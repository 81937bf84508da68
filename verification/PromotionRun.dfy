/**
 Runs of a promotion.  An operation of the promotion, or a step of another process, takes one `World` to
 the next; `Exec` replays a sequence of them.  What such runs keep is proved here; `Promoter` is the code
 that produces them.
 */
module PromotionRun {
  import opened Wrappers
  import opened LocalFs
  import opened Promotion

  /** The two folders, fixed for a promotion. */
  datatype Job = Job(source: Path, destination: Path, start: Fs)

  /** The destination file being copied into. */
  datatype Inflight = Inflight(rel: Path, ino: nat)

  /**
   `done` are the paths, relative to both folders, that are complete at the destination; `stale` says that
   the file in flight has been written to since the log last took over its state.  `orphan` is the path of an entry
   that was created and never logged, because the look at it threw; after that nothing more is published.
   */
  datatype World = World(fs: Fs, log: seq<Entry>, inflight: Option<Inflight>, done: set<Path>, stale: bool,
                         orphan: Option<Path>)

  datatype Op =
    | Mkdir(rel: Path)
    | LinkFile(rel: Path)
    | OpenExclusive(rel: Path)
    | CreateUnlogged(rel: Path, kind: Kind) // a directory or file is made, and the look at it throws
    | Write(rel: Path, at: nat, data: seq<byte>)
    | Restat(rel: Path, complete: bool)     // the log takes over the state of the written file
    | UnlinkSource(rel: Path)
    | Withdraw(entry: Entry)                // rollback removes an entry
    | OtherProcess(next: Fs)

  /** The operation is one of publishing, on the path `rel`. */
  predicate HasRel(op: Op) {
    !op.Withdraw? && !op.OtherProcess?
  }

  predicate WithdrawalDue(fs: Fs, e: Entry) {
    && e.path in fs.names && fs.names[e.path] in fs.inodes
    && HasSameIdentity(StatsOf(fs, fs.names[e.path]), e)
    && (if e.kind.File? then HasSameFileState(StatsOf(fs, fs.names[e.path]), e)
        else IsDir(fs, e.path) && !HasChildren(fs, e.path))
  }

  /** The file system lets the operation through. */
  predicate CanApply(job: Job, w: World, op: Op) {
    && (HasRel(op) ==> w.orphan.None?)
    && match op
    case Mkdir(rel) => w.inflight.None? && CanCreate(w.fs, job.destination + rel)
    case LinkFile(rel) =>
      w.inflight.None? && CanCreate(w.fs, job.destination + rel) && IsFile(w.fs, job.source + rel)
    case OpenExclusive(rel) => w.inflight.None? && CanCreate(w.fs, job.destination + rel)
    case CreateUnlogged(rel, kind) =>
      w.inflight.None? && CanCreate(w.fs, job.destination + rel) && (kind.File? || kind.Directory?)
    case Write(rel, at, data) =>
      w.inflight.Some? && w.inflight.value.rel == rel && w.inflight.value.ino in w.fs.inodes
      && at + |data| <= w.fs.maxSize
    case Restat(rel, _) =>
      w.inflight.Some? && w.inflight.value.rel == rel && w.inflight.value.ino in w.fs.inodes
      && w.log != [] && w.log[|w.log| - 1].kind.File?
      && w.log[|w.log| - 1].path == job.destination + rel && w.log[|w.log| - 1].ino == w.inflight.value.ino
    case UnlinkSource(rel) => w.inflight.None? && rel in w.done && IsFile(w.fs, job.source + rel)
    case Withdraw(e) => e in w.log && WithdrawalDue(w.fs, e)
    case OtherProcess(next) => ThirdParty(w.fs, next)
  }

  function Claim(job: Job, w: World, rel: Path, kind: Kind): World
    requires CanCreate(w.fs, job.destination + rel)
  {
    var fs := Create(w.fs, job.destination + rel, kind);
    w.(fs := fs, log := w.log + [EntryFromStats(kind, job.destination + rel, fs, w.fs.nextIno)])
  }

  function Apply(job: Job, w: World, op: Op): World
    requires CanApply(job, w, op)
  {
    match op
    case Mkdir(rel) => Claim(job, w, rel, Directory).(done := w.done + {rel})
    case LinkFile(rel) =>
      var fs := Link(w.fs, job.source + rel, job.destination + rel);
      var ino := w.fs.names[job.source + rel];
      w.(fs := fs, log := w.log + [EntryFromStats(File, job.destination + rel, fs, ino)], done := w.done + {rel})
    case OpenExclusive(rel) => Claim(job, w, rel, File).(inflight := Some(Inflight(rel, w.fs.nextIno)))
    case CreateUnlogged(rel, kind) => w.(fs := Create(w.fs, job.destination + rel, kind), orphan := Some(rel))
    case Write(rel, at, data) => w.(fs := WriteAt(w.fs, w.inflight.value.ino, at, data), stale := true)
    case Restat(rel, complete) =>
      var log := w.log[..|w.log| - 1] + [EntryFromStats(File, job.destination + rel, w.fs, w.inflight.value.ino)];
      if complete then w.(log := log, inflight := None, done := w.done + {rel}, stale := false)
      else w.(log := log, stale := false)
    case UnlinkSource(rel) => w.(fs := Remove(w.fs, job.source + rel))
    case Withdraw(e) => w.(fs := Remove(w.fs, e.path))
    case OtherProcess(next) => w.(fs := next)
  }

  predicate Legal(job: Job, ops: seq<Op>)
    decreases |ops|, 0
  {
    ops == [] || (Legal(job, ops[..|ops| - 1])
                  && CanApply(job, Exec(job, ops[..|ops| - 1]), ops[|ops| - 1]))
  }

  function Exec(job: Job, ops: seq<Op>): World
    requires Legal(job, ops)
    decreases |ops|, 1
  {
    if ops == [] then World(job.start, [], None, {}, false, None)
    else Apply(job, Exec(job, ops[..|ops| - 1]), ops[|ops| - 1])
  }

  lemma ExecAppend(job: Job, ops: seq<Op>, op: Op)
    requires Legal(job, ops) && CanApply(job, Exec(job, ops), op)
    ensures Legal(job, ops + [op]) && Exec(job, ops + [op]) == Apply(job, Exec(job, ops), op)
  {
    assert (ops + [op])[..|ops|] == ops;
  }

  // ---------------------------------------------------------------- with other processes around

  predicate WorldOk(w: World) {
    WellFormed(w.fs) && LogOk(w.fs, w.log)
  }

  lemma RestatKeepsLogOk(fs: Fs, log: seq<Entry>, path: Path, ino: nat)
    requires WellFormed(fs) && LogOk(fs, log) && log != [] && ino in fs.inodes && fs.inodes[ino].kind.File?
    ensures LogOk(fs, log[..|log| - 1] + [EntryFromStats(File, path, fs, ino)])
  {
    var log' := log[..|log| - 1] + [EntryFromStats(File, path, fs, ino)];
    forall k | 0 <= k < |log'| ensures EntryOk(fs, log'[k]) {
      if k < |log| - 1 {
        assert EntryOk(fs, log[k]);
      }
    }
  }

  lemma WithdrawKeepsWorldOk(fs: Fs, log: seq<Entry>, e: Entry)
    requires WellFormed(fs) && LogOk(fs, log) && e in log && WithdrawalDue(fs, e)
    ensures WellFormed(Remove(fs, e.path)) && LogOk(Remove(fs, e.path), log)
  {
    var k :| 0 <= k < |log| && log[k] == e;
    assert EntryOk(fs, log[k]);
    IdentityIsInode(fs, e, fs.names[e.path]);
    assert !HasChildren(fs, e.path);
    RemoveWellFormed(fs, e.path);
    LogOkAfterRemove(fs, log, e.path);
  }

  lemma OldLogOkAfterCreate(fs: Fs, log: seq<Entry>, p: Path, kind: Kind)
    requires WellFormed(fs) && LogOk(fs, log) && CanCreate(fs, p) && (kind.File? || kind.Directory?)
    ensures LogOk(Create(fs, p, kind), log)
  {
    forall k | 0 <= k < |log| ensures EntryOk(Create(fs, p, kind), log[k]) {
      assert EntryOk(fs, log[k]);
    }
  }

  lemma ApplyKeepsWorldOk(job: Job, w: World, op: Op)
    requires WorldOk(w) && CanApply(job, w, op)
    ensures WorldOk(Apply(job, w, op))
  {
    match op
    case Mkdir(rel) =>
      CreateWellFormed(w.fs, job.destination + rel, Directory);
      LogOkAfterCreate(w.fs, w.log, job.destination + rel, Directory);
    case LinkFile(rel) =>
      LinkWellFormed(w.fs, job.source + rel, job.destination + rel);
      LogOkAfterLink(w.fs, w.log, job.source + rel, job.destination + rel);
    case OpenExclusive(rel) =>
      CreateWellFormed(w.fs, job.destination + rel, File);
      LogOkAfterCreate(w.fs, w.log, job.destination + rel, File);
    case CreateUnlogged(rel, kind) =>
      CreateWellFormed(w.fs, job.destination + rel, kind);
      OldLogOkAfterCreate(w.fs, w.log, job.destination + rel, kind);
    case Write(rel, at, data) =>
      WriteWellFormed(w.fs, w.inflight.value.ino, at, data);
      LogOkAfterWrite(w.fs, w.log, w.inflight.value.ino, at, data);
    case Restat(rel, _) =>
      assert EntryOk(w.fs, w.log[|w.log| - 1]);
      RestatKeepsLogOk(w.fs, w.log, job.destination + rel, w.inflight.value.ino);
    case UnlinkSource(rel) =>
      assert !HasChildren(w.fs, job.source + rel);
      RemoveWellFormed(w.fs, job.source + rel);
      LogOkAfterRemove(w.fs, w.log, job.source + rel);
    case Withdraw(e) => WithdrawKeepsWorldOk(w.fs, w.log, e);
    case OtherProcess(next) => LogOkUnderThirdParty(w.fs, next, w.log);
  }

  lemma {:induction false} LegalWorldOk(job: Job, ops: seq<Op>)
    requires WellFormed(job.start) && Legal(job, ops)
    ensures WorldOk(Exec(job, ops))
    decreases |ops|
  {
    if ops != [] {
      LegalWorldOk(job, ops[..|ops| - 1]);
      ApplyKeepsWorldOk(job, Exec(job, ops[..|ops| - 1]), ops[|ops| - 1]);
    }
  }

  /** Operation `j` of the run gave the entry's path its inode, where there was nothing before. */
  predicate ClaimedBy(job: Job, ops: seq<Op>, e: Entry, j: nat)
    requires Legal(job, ops)
  {
    && j < |ops| && Legal(job, ops[..j]) && Legal(job, ops[..j + 1])
    && (ops[j].Mkdir? || ops[j].LinkFile? || ops[j].OpenExclusive?)
    && e.path !in Exec(job, ops[..j]).fs.names
    && e.path in Exec(job, ops[..j + 1]).fs.names
    && Exec(job, ops[..j + 1]).fs.names[e.path] == e.ino
  }

  lemma ClaimedEarlier(job: Job, ops: seq<Op>, e: Entry, j: nat)
    requires Legal(job, ops) && ops != [] && ClaimedBy(job, ops[..|ops| - 1], e, j)
    ensures ClaimedBy(job, ops, e, j)
  {
    assert ops[..|ops| - 1][..j] == ops[..j] && ops[..|ops| - 1][..j + 1] == ops[..j + 1];
  }

  /** An entry new to the log comes from an operation that claims its path, or replaces one for the same inode. */
  lemma EntryOrigin(job: Job, w: World, op: Op, e: Entry)
    requires CanApply(job, w, op) && e in Apply(job, w, op).log
    ensures (exists prior | prior in w.log :: prior.path == e.path && prior.ino == e.ino)
            || ((op.Mkdir? || op.LinkFile? || op.OpenExclusive?)
                && e.path !in w.fs.names && e.path in Apply(job, w, op).fs.names
                && Apply(job, w, op).fs.names[e.path] == e.ino)
  {
    if op.Restat? {
      assert w.log[|w.log| - 1] in w.log;
    }
  }

  lemma {:induction false} EveryEntryWasClaimed(job: Job, ops: seq<Op>, e: Entry)
    requires Legal(job, ops) && e in Exec(job, ops).log
    ensures exists j: nat :: ClaimedBy(job, ops, e, j)
    decreases |ops|
  {
    if ops != [] {
      var n := |ops| - 1;
      var before := Exec(job, ops[..n]);
      assert ops[..n + 1] == ops;
      EntryOrigin(job, before, ops[n], e);
      if prior :| prior in before.log && prior.path == e.path && prior.ino == e.ino {
        EveryEntryWasClaimed(job, ops[..n], prior);
        var j: nat :| ClaimedBy(job, ops[..n], prior, j);
        ClaimedEarlier(job, ops, prior, j);
        assert ClaimedBy(job, ops, e, j);
      } else {
        assert ClaimedBy(job, ops, e, n);
      }
    }
  }

  /**
   Whatever other processes did, a withdrawal removes the very inode this promotion put at that path: a
   file with the bytes it had when its state was last recorded, or a directory with nothing in it.
   */
  lemma WithdrawalsAreOwn(job: Job, ops: seq<Op>, e: Entry)
    requires WellFormed(job.start) && Legal(job, ops) && CanApply(job, Exec(job, ops), Withdraw(e))
    ensures exists j: nat :: ClaimedBy(job, ops, e, j)
    ensures var fs := Exec(job, ops).fs;
            && fs.names[e.path] == e.ino
            && (e.kind.File? ==> IsFile(fs, e.path) && fs.inodes[e.ino].bytes == e.snapshot)
            && (!e.kind.File? ==> IsDir(fs, e.path) && !HasChildren(fs, e.path))
  {
    LegalWorldOk(job, ops);
    EveryEntryWasClaimed(job, ops, e);
    var fs := Exec(job, ops).fs;
    var log := Exec(job, ops).log;
    var k :| 0 <= k < |log| && log[k] == e;
    assert EntryOk(fs, log[k]);
    IdentityIsInode(fs, e, fs.names[e.path]);
  }

  // ---------------------------------------------------------------- left alone

  /** A publishing step that follows the source folder, with no other process involved. */
  predicate Faithful(job: Job, w: World, op: Op) {
    match op
    case Mkdir(rel) => IsDir(job.start, job.source + rel)
    case LinkFile(rel) => true
    case OpenExclusive(rel) => IsFile(job.start, job.source + rel)
    case CreateUnlogged(rel, kind) => if kind.File? then IsFile(job.start, job.source + rel)
                                      else IsDir(job.start, job.source + rel)
    case Write(_, _, _) => true
    case Restat(rel, complete) => complete ==> SameContents(job.start, job.source + rel, w.fs, job.destination + rel)
    case UnlinkSource(_) => true
    case Withdraw(_) => false
    case OtherProcess(_) => false
  }

  predicate Undisturbed(job: Job, ops: seq<Op>)
    requires Legal(job, ops)
    decreases |ops|
  {
    ops == [] || (Undisturbed(job, ops[..|ops| - 1])
                  && Faithful(job, Exec(job, ops[..|ops| - 1]), ops[|ops| - 1]))
  }

  predicate JobOk(job: Job) {
    WellFormed(job.start) && Apart(job.source, job.destination) && job.destination != []
    && job.destination !in job.start.names && IsDir(job.start, job.source)
  }

  function RelOf(inflight: Option<Inflight>): Option<Path> {
    if inflight.Some? then Some(inflight.value.rel) else None
  }

  predicate InflightOk(job: Job, w: World) {
    w.inflight.Some? ==>
      && w.inflight.value.ino in w.fs.inodes && w.inflight.value.ino !in job.start.inodes
      && w.log != [] && w.log[|w.log| - 1].ino == w.inflight.value.ino
      && w.log[|w.log| - 1].kind.File?
      && w.log[|w.log| - 1].path == job.destination + w.inflight.value.rel
      && forall p | p in w.fs.names ::
           p != job.destination + w.inflight.value.rel ==> w.fs.names[p] != w.inflight.value.ino
  }

  predicate StatesOk(w: World) {
    && (forall k :: 0 <= k < |w.log| - (if w.stale then 1 else 0) ==> StateCurrent(w.fs, w.log[k]))
    && (w.stale ==> w.inflight.Some? && w.log != [] && !StateCurrent(w.fs, w.log[|w.log| - 1]))
  }

  predicate DoneOk(job: Job, w: World) {
    forall r | r in w.done :: job.destination + r in w.fs.names && RelOf(w.inflight) != Some(r)
  }

  ghost predicate OnTrack(job: Job, w: World) {
    && WorldOk(w)
    && Progress(job.start, w.fs, w.log, job.source, job.destination, RelOf(w.inflight))
    && InflightOk(job, w) && StatesOk(w) && DoneOk(job, w)
  }

  lemma StartOnTrack(job: Job)
    requires JobOk(job)
    ensures OnTrack(job, World(job.start, [], None, {}, false, None))
  {
    forall p | p in job.start.names ensures !(job.destination <= p) {
      if job.destination <= p {
        AncestorExists(job.start, p, job.destination);
      }
    }
  }

  lemma MkdirOnTrack(job: Job, w: World, rel: Path)
    requires JobOk(job) && OnTrack(job, w) && CanApply(job, w, Mkdir(rel)) && Faithful(job, w, Mkdir(rel))
    ensures OnTrack(job, Apply(job, w, Mkdir(rel)))
  {
    ApplyKeepsWorldOk(job, w, Mkdir(rel));
    MkdirProgress(job.start, w.fs, w.log, job.source, job.destination, rel);
    ClaimKeepsStates(job, w, rel, Directory);
    CreateKeepsDone(job, w, rel);
  }

  lemma ClaimKeepsStates(job: Job, w: World, rel: Path, kind: Kind)
    requires WorldOk(w) && StatesOk(w) && w.inflight.None?
    requires CanCreate(w.fs, job.destination + rel) && (kind.File? || kind.Directory?)
    ensures var w' := Claim(job, w, rel, kind); StatesCurrent(w'.fs, w'.log)
  {
    LogOkAfterCreate(w.fs, w.log, job.destination + rel, kind);
  }

  /** A name added at the destination was not complete before. */
  lemma CreateKeepsDone(job: Job, w: World, rel: Path)
    requires DoneOk(job, w) && w.inflight.None? && job.destination + rel !in w.fs.names
    ensures rel !in w.done
    ensures forall r | r in w.done :: job.destination + r in w.fs.names && r != rel
  {
  }

  lemma LinkProgressOf(job: Job, w: World, rel: Path)
    requires JobOk(job) && WellFormed(w.fs) && CanApply(job, w, LinkFile(rel))
    requires Progress(job.start, w.fs, w.log, job.source, job.destination, None)
    ensures var w' := Apply(job, w, LinkFile(rel));
            Progress(job.start, w'.fs, w'.log, job.source, job.destination, None)
  {
    assert job.source + rel in w.fs.names;
    LinkProgress(job.start, w.fs, w.log, job.source, job.destination, rel);
  }

  lemma LinkKeepsStates(job: Job, w: World, rel: Path)
    requires WorldOk(w) && StatesOk(w) && CanApply(job, w, LinkFile(rel))
    ensures StatesOk(Apply(job, w, LinkFile(rel)))
  {
    LogOkAfterLink(w.fs, w.log, job.source + rel, job.destination + rel);
  }

  lemma LinkOnTrack(job: Job, w: World, rel: Path)
    requires JobOk(job) && OnTrack(job, w) && CanApply(job, w, LinkFile(rel))
    ensures OnTrack(job, Apply(job, w, LinkFile(rel)))
  {
    ApplyKeepsWorldOk(job, w, LinkFile(rel));
    LinkProgressOf(job, w, rel);
    LinkKeepsStates(job, w, rel);
    CreateKeepsDone(job, w, rel);
  }

  lemma OpenInflight(job: Job, w: World, rel: Path)
    requires WellFormed(job.start) && WellFormed(w.fs) && Extends(job.start, w.fs)
    requires CanApply(job, w, OpenExclusive(rel))
    ensures InflightOk(job, Apply(job, w, OpenExclusive(rel)))
  {
  }

  lemma OpenOnTrack(job: Job, w: World, rel: Path)
    requires JobOk(job) && OnTrack(job, w)
    requires CanApply(job, w, OpenExclusive(rel)) && Faithful(job, w, OpenExclusive(rel))
    ensures OnTrack(job, Apply(job, w, OpenExclusive(rel)))
  {
    ApplyKeepsWorldOk(job, w, OpenExclusive(rel));
    OpenProgress(job.start, w.fs, w.log, job.source, job.destination, rel);
    ClaimKeepsStates(job, w, rel, File);
    OpenInflight(job, w, rel);
    CreateKeepsDone(job, w, rel);
  }

  /** A write outdates the state of the last entry and of no other. */
  lemma WriteOutdatesLast(fs: Fs, log: seq<Entry>, ino: nat, at: nat, data: seq<byte>)
    requires WellFormed(fs) && LogOk(fs, log) && log != [] && ino in fs.inodes
    requires log[|log| - 1].ino == ino && log[|log| - 1].kind.File?
    requires forall k :: 0 <= k < |log| - 1 ==> StateCurrent(fs, log[k]) && log[k].ino != ino
    ensures !StateCurrent(WriteAt(fs, ino, at, data), log[|log| - 1])
    ensures forall k :: 0 <= k < |log| - 1 ==> StateCurrent(WriteAt(fs, ino, at, data), log[k])
  {
    assert EntryOk(fs, log[|log| - 1]);
    forall k | 0 <= k < |log| - 1 ensures StateCurrent(WriteAt(fs, ino, at, data), log[k]) {
      assert StateCurrent(fs, log[k]);
    }
  }

  lemma OtherEntriesElsewhere(fs: Fs, log: seq<Entry>, destination: Path, ino: nat)
    requires Ledger(fs, log, destination) && log != []
    requires forall p | p in fs.names :: p != log[|log| - 1].path ==> fs.names[p] != ino
    ensures forall k :: 0 <= k < |log| - 1 ==> log[k].ino != ino
  {
    forall k | 0 <= k < |log| - 1 ensures log[k].ino != ino {
      assert log[k].path != log[|log| - 1].path;
    }
  }

  lemma WriteInflight(job: Job, w: World, rel: Path, at: nat, data: seq<byte>)
    requires InflightOk(job, w) && DoneOk(job, w) && CanApply(job, w, Write(rel, at, data))
    ensures InflightOk(job, Apply(job, w, Write(rel, at, data)))
    ensures DoneOk(job, Apply(job, w, Write(rel, at, data)))
  {
  }

  lemma OnlyLastIsInflight(job: Job, w: World)
    requires Ledger(w.fs, w.log, job.destination) && InflightOk(job, w) && w.inflight.Some?
    ensures LastIs(w.log, w.inflight.value.ino)
    ensures forall k :: 0 <= k < |w.log| - 1 ==> w.log[k].ino != w.inflight.value.ino
  {
    OtherEntriesElsewhere(w.fs, w.log, job.destination, w.inflight.value.ino);
  }

  predicate LastIs(log: seq<Entry>, ino: nat) {
    log != [] && log[|log| - 1].ino == ino && log[|log| - 1].kind.File?
  }

  lemma WriteStates(job: Job, w: World, rel: Path, at: nat, data: seq<byte>)
    requires WorldOk(w) && StatesOk(w) && CanApply(job, w, Write(rel, at, data))
    requires LastIs(w.log, w.inflight.value.ino)
    requires forall k :: 0 <= k < |w.log| - 1 ==> w.log[k].ino != w.inflight.value.ino
    ensures StatesOk(Apply(job, w, Write(rel, at, data)))
  {
    WriteOutdatesLast(w.fs, w.log, w.inflight.value.ino, at, data);
  }

  lemma WriteOnTrack(job: Job, w: World, rel: Path, at: nat, data: seq<byte>)
    requires JobOk(job) && OnTrack(job, w) && CanApply(job, w, Write(rel, at, data))
    ensures OnTrack(job, Apply(job, w, Write(rel, at, data)))
  {
    ApplyKeepsWorldOk(job, w, Write(rel, at, data));
    WriteProgress(job.start, w.fs, w.log, job.source, job.destination, rel, w.inflight.value.ino, at, data);
    WriteInflight(job, w, rel, at, data);
    OnlyLastIsInflight(job, w);
    WriteStates(job, w, rel, at, data);
  }

  lemma RestatStates(job: Job, w: World, rel: Path, complete: bool)
    requires StatesOk(w) && CanApply(job, w, Restat(rel, complete))
    ensures StatesOk(Apply(job, w, Restat(rel, complete)))
  {
    var w' := Apply(job, w, Restat(rel, complete));
    forall k | 0 <= k < |w'.log| ensures StateCurrent(w'.fs, w'.log[k]) {
      if k < |w.log| - 1 {
        assert StateCurrent(w.fs, w.log[k]);
      }
    }
  }

  lemma RestatInflight(job: Job, w: World, rel: Path, complete: bool)
    requires InflightOk(job, w) && DoneOk(job, w) && CanApply(job, w, Restat(rel, complete))
    requires complete ==> job.destination + rel in w.fs.names
    ensures InflightOk(job, Apply(job, w, Restat(rel, complete)))
    ensures DoneOk(job, Apply(job, w, Restat(rel, complete)))
  {
  }

  lemma RestatProgress(job: Job, w: World, rel: Path, complete: bool)
    requires Progress(job.start, w.fs, w.log, job.source, job.destination, RelOf(w.inflight))
    requires CanApply(job, w, Restat(rel, complete)) && Faithful(job, w, Restat(rel, complete))
    ensures var w' := Apply(job, w, Restat(rel, complete));
            Progress(job.start, w'.fs, w'.log, job.source, job.destination, RelOf(w'.inflight))
  {
    var w' := Apply(job, w, Restat(rel, complete));
    LedgerKeepsPaths(w.fs, w.log, w'.log, job.destination);
    if complete {
      CopyCompletes(job.start, w.fs, w'.log, job.source, job.destination, rel);
    }
  }

  lemma RestatOnTrack(job: Job, w: World, rel: Path, complete: bool)
    requires JobOk(job) && OnTrack(job, w)
    requires CanApply(job, w, Restat(rel, complete)) && Faithful(job, w, Restat(rel, complete))
    ensures OnTrack(job, Apply(job, w, Restat(rel, complete)))
  {
    ApplyKeepsWorldOk(job, w, Restat(rel, complete));
    RestatProgress(job, w, rel, complete);
    RestatStates(job, w, rel, complete);
    RestatInflight(job, w, rel, complete);
  }

  lemma UnlinkOnTrack(job: Job, w: World, rel: Path)
    requires JobOk(job) && OnTrack(job, w) && CanApply(job, w, UnlinkSource(rel))
    ensures OnTrack(job, Apply(job, w, UnlinkSource(rel)))
  {
    ApplyKeepsWorldOk(job, w, UnlinkSource(rel));
    assert w.fs.names[job.source + rel] == job.start.names[job.source + rel];
    UnlinkProgress(job.start, w.fs, w.log, job.source, job.destination, rel);
    LogOkAfterRemove(w.fs, w.log, job.source + rel);
    SourcePathsApart(job.source, job.destination, rel);
    SourcePathsApart(job.destination, job.source, rel);
  }

  lemma {:induction false} UndisturbedOnTrack(job: Job, ops: seq<Op>)
    requires JobOk(job) && Legal(job, ops) && Undisturbed(job, ops)
    requires Exec(job, ops).orphan.None?
    ensures OnTrack(job, Exec(job, ops))
    decreases |ops|
  {
    if ops == [] {
      StartOnTrack(job);
    } else {
      var w, op := Exec(job, ops[..|ops| - 1]), ops[|ops| - 1];
      UndisturbedOnTrack(job, ops[..|ops| - 1]);
      match op
      case Mkdir(rel) => MkdirOnTrack(job, w, rel);
      case LinkFile(rel) => LinkOnTrack(job, w, rel);
      case OpenExclusive(rel) => OpenOnTrack(job, w, rel);
      case Write(rel, at, data) => WriteOnTrack(job, w, rel, at, data);
      case Restat(rel, complete) => RestatOnTrack(job, w, rel, complete);
      case UnlinkSource(rel) => UnlinkOnTrack(job, w, rel);
    }
  }

  lemma {:induction false} PrefixUndisturbed(job: Job, ops: seq<Op>, n: nat)
    requires n <= |ops| && Legal(job, ops) && Undisturbed(job, ops)
    ensures Legal(job, ops[..n]) && Undisturbed(job, ops[..n])
    decreases |ops|
  {
    if n < |ops| {
      PrefixUndisturbed(job, ops[..|ops| - 1], n);
      assert ops[..|ops| - 1][..n] == ops[..n];
    } else {
      assert ops[..n] == ops;
    }
  }

  /** Once an entry has been created and not logged nothing more is published. */
  lemma OrphanIsLast(job: Job, ops: seq<Op>)
    requires Legal(job, ops) && Undisturbed(job, ops) && Exec(job, ops).orphan.Some?
    ensures ops != [] && ops[|ops| - 1].CreateUnlogged? && Exec(job, ops[..|ops| - 1]).orphan.None?
    ensures Exec(job, ops).orphan.value == ops[|ops| - 1].rel
  {
  }

  lemma CreateKeepsReachable(fs0: Fs, fs: Fs, p: Path, kind: Kind, source: Path, destination: Path)
    requires WellFormed(fs) && CanCreate(fs, p) && BytesReachable(fs0, fs, source, destination)
    ensures BytesReachable(fs0, Create(fs, p, kind), source, destination)
  {
    var fs' := Create(fs, p, kind);
    forall r: Path | IsFile(fs0, source + r)
      ensures SameContents(fs0, source + r, fs', source + r) || SameContents(fs0, source + r, fs', destination + r)
    {
      var q := if SameContents(fs0, source + r, fs, source + r) then source + r else destination + r;
      assert SameContents(fs0, source + r, fs, q);
    }
  }

  lemma BytesReachableNow(job: Job, ops: seq<Op>)
    requires JobOk(job) && Legal(job, ops) && Undisturbed(job, ops) && Exec(job, ops).orphan.None?
    ensures BytesReachable(job.start, Exec(job, ops).fs, job.source, job.destination)
  {
    UndisturbedOnTrack(job, ops);
    var w := Exec(job, ops);
    ProgressKeepsBytes(job.start, w.fs, w.log, job.source, job.destination, RelOf(w.inflight));
  }

  lemma BytesReachableAtEnd(job: Job, ops: seq<Op>)
    requires JobOk(job) && Legal(job, ops) && Undisturbed(job, ops)
    ensures BytesReachable(job.start, Exec(job, ops).fs, job.source, job.destination)
  {
    if Exec(job, ops).orphan.None? {
      BytesReachableNow(job, ops);
    } else {
      var n := |ops| - 1;
      OrphanIsLast(job, ops);
      BytesReachableNow(job, ops[..n]);
      LegalWorldOk(job, ops[..n]);
      var fs := Exec(job, ops[..n]).fs;
      CreateKeepsReachable(job.start, fs, job.destination + ops[n].rel, ops[n].kind, job.source, job.destination);
    }
  }

  /** Until rollback, every file of the source can be read in full at one of its two paths, at every step. */
  lemma BytesStayReachable(job: Job, ops: seq<Op>, n: nat)
    requires JobOk(job) && n <= |ops| && Legal(job, ops) && Undisturbed(job, ops)
    ensures Legal(job, ops[..n])
    ensures BytesReachable(job.start, Exec(job, ops[..n]).fs, job.source, job.destination)
  {
    PrefixUndisturbed(job, ops, n);
    BytesReachableAtEnd(job, ops[..n]);
  }

  /** Everything below `rel` is complete at the destination. */
  ghost predicate Delivered(job: Job, w: World, rel: Path) {
    forall r: Path :: rel <= r && job.source + r in job.start.names ==> r in w.done
  }

  /** When everything has been delivered the destination is an exact copy and nothing else has changed. */
  lemma {:induction false} DeliveredIsExactCopy(job: Job, ops: seq<Op>)
    requires JobOk(job) && Legal(job, ops) && Undisturbed(job, ops)
    requires Exec(job, ops).inflight.None? && Exec(job, ops).orphan.None? && Delivered(job, Exec(job, ops), [])
    ensures var fs := Exec(job, ops).fs;
            && (forall r: Path :: job.destination + r in fs.names <==> job.source + r in job.start.names)
            && (forall r: Path :: job.source + r in job.start.names ==>
                  SameContents(job.start, job.source + r, fs, job.destination + r))
            && OutsideSame(job.start, fs, job.source, job.destination)
  {
    UndisturbedOnTrack(job, ops);
    var w := Exec(job, ops);
    forall r: Path ensures job.destination + r in w.fs.names <==> job.source + r in job.start.names {
      assert [] <= r;
      if job.destination + r in w.fs.names {
        assert SameContents(job.start, job.source + r, w.fs, job.destination + r);
      }
    }
    forall r: Path | job.source + r in job.start.names
      ensures SameContents(job.start, job.source + r, w.fs, job.destination + r)
    {
      assert job.destination + r in w.fs.names;
    }
  }

  /** Everywhere but in the source folder, names are what they were at the start. */
  ghost predicate Restored(job: Job, fs: Fs) {
    forall p :: !(job.source <= p) ==> SameAt(job.start, fs, p)
  }

  /**
   Wherever an undisturbed publication stops, rolling back restores the destination exactly when the state of a
   partly written file has been taken over into the log and everything that was created has been logged.
   */
  lemma RollbackRestoresIff(job: Job, ops: seq<Op>)
    requires JobOk(job) && Legal(job, ops) && Undisturbed(job, ops) && !job.start.identities.Unavailable?
    ensures var w := Exec(job, ops); Restored(job, RollbackAll(w.fs, w.log)) <==> !w.stale && w.orphan.None?
  {
    if Exec(job, ops).orphan.Some? {
      OrphanRunIsNotRestored(job, ops);
    } else if Exec(job, ops).stale {
      StaleRunIsNotRestored(job, ops, Exec(job, ops));
    } else {
      AccurateRunIsRestored(job, ops);
    }
  }

  lemma AccurateRunIsRestored(job: Job, ops: seq<Op>)
    requires JobOk(job) && Legal(job, ops) && Undisturbed(job, ops) && !job.start.identities.Unavailable?
    requires !Exec(job, ops).stale && Exec(job, ops).orphan.None?
    ensures Restored(job, RollbackAll(Exec(job, ops).fs, Exec(job, ops).log))
  {
    RollbackReady(job, ops);
    AccurateIsRestored(job, Exec(job, ops));
  }

  lemma {:induction false} StaleRunIsNotRestored(job: Job, ops: seq<Op>, w: World)
    requires JobOk(job) && Legal(job, ops) && Undisturbed(job, ops)
    requires w == Exec(job, ops) && w.stale && w.orphan.None?
    ensures !Restored(job, RollbackAll(w.fs, w.log))
  {
    StaleReady(job, ops, w);
    StaleIsNotRestored(job, w);
  }

  lemma StaleIsNotRestored(job: Job, w: World)
    requires JobOk(job) && WorldOk(w) && StatesOk(w) && w.stale && Ledger(w.fs, w.log, job.destination)
    requires w.log[|w.log| - 1].kind.File?
    ensures !Restored(job, RollbackAll(w.fs, w.log))
  {
    StaleKeepsDestination(job, w);
    DestinationLeftOver(job, RollbackAll(w.fs, w.log));
  }

  lemma {:induction false} OrphanRunIsNotRestored(job: Job, ops: seq<Op>)
    requires JobOk(job) && Legal(job, ops) && Undisturbed(job, ops) && Exec(job, ops).orphan.Some?
    ensures !Restored(job, RollbackAll(Exec(job, ops).fs, Exec(job, ops).log))
  {
    var w := Exec(job, ops);
    OrphanIsUnlogged(job, ops);
    var p := job.destination + w.orphan.value;
    LegalWorldOk(job, ops);
    UnloggedStays(w.fs, w.log, p);
    AncestorExists(RollbackAll(w.fs, w.log), p, job.destination);
    DestinationLeftOver(job, RollbackAll(w.fs, w.log));
  }

  lemma {:induction false} OrphanIsUnlogged(job: Job, ops: seq<Op>)
    requires JobOk(job) && Legal(job, ops) && Undisturbed(job, ops) && Exec(job, ops).orphan.Some?
    ensures var w := Exec(job, ops);
            job.destination + w.orphan.value in w.fs.names && !Logged(w.log, job.destination + w.orphan.value)
  {
    OrphanIsLast(job, ops);
    UndisturbedOnTrack(job, ops[..|ops| - 1]);
  }

  lemma DestinationLeftOver(job: Job, fs: Fs)
    requires JobOk(job) && job.destination in fs.names
    ensures !Restored(job, fs)
  {
    assert !SameAt(job.start, fs, job.destination);
  }

  lemma {:induction false} StaleReady(job: Job, ops: seq<Op>, w: World)
    requires JobOk(job) && Legal(job, ops) && Undisturbed(job, ops)
    requires w == Exec(job, ops) && w.stale && w.orphan.None?
    ensures WorldOk(w) && StatesOk(w) && Ledger(w.fs, w.log, job.destination) && w.log[|w.log| - 1].kind.File?
  {
    UndisturbedOnTrack(job, ops);
  }

  lemma {:induction false} RollbackReady(job: Job, ops: seq<Op>)
    requires JobOk(job) && Legal(job, ops) && Undisturbed(job, ops)
    requires !Exec(job, ops).stale && Exec(job, ops).orphan.None?
    ensures var w := Exec(job, ops);
            && LogOk(w.fs, w.log) && StatesCurrent(w.fs, w.log) && Ledger(w.fs, w.log, job.destination)
            && OutsideSame(job.start, w.fs, job.source, job.destination)
            && w.fs.identities == job.start.identities
  {
    UndisturbedOnTrack(job, ops);
    assert Extends(job.start, Exec(job, ops).fs);
  }

  lemma AccurateIsRestored(job: Job, w: World)
    requires JobOk(job) && LogOk(w.fs, w.log) && StatesCurrent(w.fs, w.log) && Ledger(w.fs, w.log, job.destination)
    requires OutsideSame(job.start, w.fs, job.source, job.destination) && !w.fs.identities.Unavailable?
    ensures Restored(job, RollbackAll(w.fs, w.log))
  {
    RollbackRestores(w.fs, w.log, job.destination);
    RestoredAfterClearing(job, w.fs, RollbackAll(w.fs, w.log));
  }

  lemma StaleKeepsDestination(job: Job, w: World)
    requires WorldOk(w) && StatesOk(w) && w.stale && Ledger(w.fs, w.log, job.destination)
    requires w.log[|w.log| - 1].kind.File?
    ensures job.destination in RollbackAll(w.fs, w.log).names
  {
    StaleFileStays(job, w);
    AncestorExists(RollbackAll(w.fs, w.log), w.log[|w.log| - 1].path, job.destination);
  }

  lemma StaleFileStays(job: Job, w: World)
    requires WorldOk(w) && StatesOk(w) && w.stale && Ledger(w.fs, w.log, job.destination)
    requires w.log[|w.log| - 1].kind.File?
    ensures var fs' := RollbackAll(w.fs, w.log); WellFormed(fs') && w.log[|w.log| - 1].path in fs'.names
  {
    LastEntryIsFile(w.fs, w.log, job.destination);
    OutdatedFileStays(w.fs, w.log, w.log[|w.log| - 1].path);
  }

  lemma LastEntryIsFile(fs: Fs, log: seq<Entry>, destination: Path)
    requires LogOk(fs, log) && LogBelow(fs, log, destination) && ParentsFirst(log) && log != []
    requires log[|log| - 1].kind.File? && !StateCurrent(fs, log[|log| - 1])
    ensures IsFile(fs, log[|log| - 1].path)
    ensures forall k :: 0 <= k < |log| && log[k].path == log[|log| - 1].path ==>
              !HasSameFileState(StatsOf(fs, fs.names[log[|log| - 1].path]), log[k])
  {
    assert EntryOk(fs, log[|log| - 1]);
    forall k | 0 <= k < |log| && log[k].path == log[|log| - 1].path ensures k == |log| - 1 {
    }
  }

  lemma RestoredAfterClearing(job: Job, fs: Fs, fs': Fs)
    requires JobOk(job) && OutsideSame(job.start, fs, job.source, job.destination)
    requires forall p :: p in fs'.names <==> p in fs.names && !(job.destination <= p)
    requires forall p | p in fs'.names :: fs'.names[p] == fs.names[p]
    ensures Restored(job, fs')
  {
    forall p | !(job.source <= p) ensures SameAt(job.start, fs', p) {
      if job.destination <= p {
        if p in job.start.names {
          AncestorExists(job.start, p, job.destination);
        }
      } else {
        assert SameAt(job.start, fs, p);
      }
    }
  }

  // ---------------------------------------------------------------- what a rollback cannot bring back

  lemma {:induction false} UnlinkedStaysGone(job: Job, ops: seq<Op>, r: Path)
    requires JobOk(job) && Legal(job, ops) && Undisturbed(job, ops) && UnlinkSource(r) in ops
    ensures job.source + r !in Exec(job, ops).fs.names
    decreases |ops|
  {
    var n := |ops| - 1;
    if ops[n] != UnlinkSource(r) {
      assert ops == ops[..n] + [ops[n]];
      UnlinkedStaysGone(job, ops[..n], r);
      SourcePathsApart(job.source, job.destination, ops[n].rel);
      assert job.source <= job.source + r;
    }
  }

  lemma {:induction false} LogIsBelow(job: Job, ops: seq<Op>)
    requires JobOk(job) && Legal(job, ops) && Undisturbed(job, ops)
    ensures forall k :: 0 <= k < |Exec(job, ops).log| ==> job.destination <= Exec(job, ops).log[k].path
  {
    if Exec(job, ops).orphan.None? {
      UndisturbedOnTrack(job, ops);
    } else {
      OrphanIsLast(job, ops);
      UndisturbedOnTrack(job, ops[..|ops| - 1]);
    }
  }

  /** `k` is the log's entry for a finished file, which is as it says. */
  predicate FinishedEntry(w: World, p: Path, k: nat) {
    && k < |w.log| && w.log[k].path == p && w.log[k].kind.File? && StateCurrent(w.fs, w.log[k])
    && p in w.fs.names && w.fs.names[p] == w.log[k].ino
  }

  lemma DoneFileIsLogged(job: Job, w: World, r: Path) returns (k: nat)
    requires JobOk(job) && OnTrack(job, w) && r in w.done && IsFile(job.start, job.source + r)
    ensures FinishedEntry(w, job.destination + r, k)
  {
    var p := job.destination + r;
    DoneFileStands(job, w, r);
    k :| 0 <= k < |w.log| && w.log[k].path == p;
    EntryStands(w.fs, w.log, job.destination, k);
    if w.stale && k == |w.log| - 1 {
      SameSuffix(job.destination, r, w.inflight.value.rel);
    }
  }

  lemma DoneFileStands(job: Job, w: World, r: Path)
    requires OnTrack(job, w) && r in w.done && IsFile(job.start, job.source + r)
    ensures IsFile(w.fs, job.destination + r) && Logged(w.log, job.destination + r)
    ensures RelOf(w.inflight) != Some(r)
  {
    assert SameContents(job.start, job.source + r, w.fs, job.destination + r);
  }

  lemma EntryStands(fs: Fs, log: seq<Entry>, destination: Path, k: nat)
    requires LogOk(fs, log) && LogBelow(fs, log, destination) && k < |log|
    ensures log[k].path in fs.names && fs.names[log[k].path] == log[k].ino
    ensures log[k].ino in fs.inodes && fs.inodes[log[k].ino].kind == log[k].kind
  {
    assert EntryOk(fs, log[k]);
  }

  lemma {:induction false} DoneFileAtEnd(job: Job, ops: seq<Op>, r: Path) returns (k: nat)
    requires JobOk(job) && Legal(job, ops) && Undisturbed(job, ops)
    requires r in Exec(job, ops).done && IsFile(job.start, job.source + r)
    ensures FinishedEntry(Exec(job, ops), job.destination + r, k)
  {
    if Exec(job, ops).orphan.None? {
      UndisturbedOnTrack(job, ops);
      k := DoneFileIsLogged(job, Exec(job, ops), r);
    } else {
      OrphanIsLast(job, ops);
      UndisturbedOnTrack(job, ops[..|ops| - 1]);
      k := DoneFileIsLogged(job, Exec(job, ops[..|ops| - 1]), r);
      assert EntryOk(Exec(job, ops[..|ops| - 1]).fs, Exec(job, ops[..|ops| - 1]).log[k]);
    }
  }

  lemma UnlinkedIsNowhere(job: Job, ops: seq<Op>, r: Path)
    requires JobOk(job) && Legal(job, ops) && Undisturbed(job, ops) && !Exec(job, ops).fs.identities.Unavailable?
    requires IsFile(job.start, job.source + r) && UnlinkSource(r) in ops
    ensures var fs' := RollbackAll(Exec(job, ops).fs, Exec(job, ops).log);
            job.source + r !in fs'.names && job.destination + r !in fs'.names
  {
    var w := Exec(job, ops);
    UnlinkedStaysGone(job, ops, r);
    RollbackSparesUnlogged(w.fs, w.log, job.source + r);
    UnlinkedIsDone(job, ops, r);
    var k := DoneFileAtEnd(job, ops, r);
    LegalWorldOk(job, ops);
    CurrentFileIsRemoved(w.fs, w.log, k);
  }

  lemma NotUnlinkedIsInSource(job: Job, ops: seq<Op>, r: Path)
    requires JobOk(job) && Legal(job, ops) && Undisturbed(job, ops)
    requires IsFile(job.start, job.source + r) && UnlinkSource(r) !in ops
    ensures job.source + r in RollbackAll(Exec(job, ops).fs, Exec(job, ops).log).names
  {
    var w := Exec(job, ops);
    SourceUntouched(job, ops, r);
    LogIsBelow(job, ops);
    SourcePathsApart(job.destination, job.source, r);
    RollbackSparesUnlogged(w.fs, w.log, job.source + r);
  }

  /**
   Wherever an undisturbed publication stops, a source file has no name left at either place after the rollback if
   and only if it had already been unlinked from the source.
   */
  lemma RollbackLosesIff(job: Job, ops: seq<Op>, r: Path)
    requires JobOk(job) && Legal(job, ops) && Undisturbed(job, ops) && !Exec(job, ops).fs.identities.Unavailable?
    requires IsFile(job.start, job.source + r)
    ensures var fs' := RollbackAll(Exec(job, ops).fs, Exec(job, ops).log);
            job.source + r !in fs'.names && job.destination + r !in fs'.names <==> UnlinkSource(r) in ops
  {
    if UnlinkSource(r) in ops {
      UnlinkedIsNowhere(job, ops, r);
    } else {
      NotUnlinkedIsInSource(job, ops, r);
    }
  }

  lemma IdentitiesStay(job: Job, ops: seq<Op>)
    requires JobOk(job) && Legal(job, ops) && Undisturbed(job, ops)
    ensures Exec(job, ops).fs.identities == job.start.identities
  {
    if Exec(job, ops).orphan.None? {
      UndisturbedOnTrack(job, ops);
    } else {
      OrphanIsLast(job, ops);
      UndisturbedOnTrack(job, ops[..|ops| - 1]);
    }
  }

  lemma RollbackLosesFiles(job: Job, ops: seq<Op>)
    requires JobOk(job) && Legal(job, ops) && Undisturbed(job, ops) && !job.start.identities.Unavailable?
    ensures var fs' := RollbackAll(Exec(job, ops).fs, Exec(job, ops).log);
            forall r: Path :: IsFile(job.start, job.source + r) ==>
              (job.source + r !in fs'.names && job.destination + r !in fs'.names <==> UnlinkSource(r) in ops)
  {
    IdentitiesStay(job, ops);
    var fs' := RollbackAll(Exec(job, ops).fs, Exec(job, ops).log);
    forall r: Path | IsFile(job.start, job.source + r)
      ensures job.source + r !in fs'.names && job.destination + r !in fs'.names <==> UnlinkSource(r) in ops
    {
      RollbackLosesIff(job, ops, r);
    }
  }

  /** On a file system that shows no identities at all, rollback removes nothing. */
  lemma {:induction false} NoIdentitiesNoRollback(fs: Fs, log: seq<Entry>)
    requires LogOk(fs, log) && fs.identities.Unavailable?
    ensures RollbackAll(fs, log) == fs
    decreases |log|
  {
    if log != [] {
      assert EntryOk(fs, log[|log| - 1]);
      assert forall k :: 0 <= k < |log| - 1 ==> log[..|log| - 1][k] == log[k];
      NoIdentitiesNoRollback(fs, log[..|log| - 1]);
    }
  }

  // ---------------------------------------------------------------- what the code may rely on

  lemma {:induction false} SourceUntouched(job: Job, ops: seq<Op>, r: Path)
    requires JobOk(job) && Legal(job, ops) && Undisturbed(job, ops)
    requires UnlinkSource(r) !in ops
    ensures SameAt(job.start, Exec(job, ops).fs, job.source + r)
    decreases |ops|
  {
    if ops != [] {
      var op := ops[|ops| - 1];
      SourceUntouched(job, ops[..|ops| - 1], r);
      assert op in ops;
      if HasRel(op) {
        SourcePathsApart(job.source, job.destination, op.rel);
        if op.UnlinkSource? && job.source + r == job.source + op.rel {
          SameSuffix(job.source, r, op.rel);
        }
      }
    }
  }

  lemma ApplyKeepsDone(job: Job, w: World, op: Op)
    requires CanApply(job, w, op)
    ensures w.done <= Apply(job, w, op).done
  {
  }

  lemma SourceNameKept(job: Job, ops: seq<Op>, rel: Path)
    requires JobOk(job) && Legal(job, ops) && Undisturbed(job, ops)
    requires job.source + rel in Exec(job, ops).fs.names
    requires Exec(job, ops).orphan.None?
    ensures job.source + rel in job.start.names
    ensures Exec(job, ops).fs.names[job.source + rel] == job.start.names[job.source + rel]
  {
    UndisturbedOnTrack(job, ops);
  }

  /** The file in flight sits at its destination path. */
  lemma InflightInPlace(job: Job, ops: seq<Op>)
    requires JobOk(job) && Legal(job, ops) && Undisturbed(job, ops) && Exec(job, ops).inflight.Some?
    requires Exec(job, ops).orphan.None?
    ensures var w := Exec(job, ops); var i := w.inflight.value;
            && job.destination + i.rel in w.fs.names && w.fs.names[job.destination + i.rel] == i.ino
            && IsFile(w.fs, job.destination + i.rel)
    ensures Extends(job.start, Exec(job, ops).fs)
  {
    UndisturbedOnTrack(job, ops);
    var w := Exec(job, ops);
    LastInPlace(w.fs, w.log, job.destination);
  }

  lemma LastInPlace(fs: Fs, log: seq<Entry>, destination: Path)
    requires LogOk(fs, log) && LogBelow(fs, log, destination) && log != []
    ensures var last := log[|log| - 1];
            last.path in fs.names && fs.names[last.path] == last.ino
            && last.ino in fs.inodes && fs.inodes[last.ino].kind == last.kind
  {
    assert EntryOk(fs, log[|log| - 1]);
  }

  /** The file in flight is complete once it holds the bytes of the source file. */
  lemma FullCopyIsFaithful(job: Job, ops: seq<Op>, rel: Path, ino: nat)
    requires JobOk(job) && Legal(job, ops) && Undisturbed(job, ops) && IsFile(job.start, job.source + rel)
    requires Exec(job, ops).inflight == Some(Inflight(rel, ino)) && ino in Exec(job, ops).fs.inodes
    requires job.start.names[job.source + rel] in Exec(job, ops).fs.inodes
    requires var inodes := Exec(job, ops).fs.inodes;
             inodes[ino].bytes == inodes[job.start.names[job.source + rel]].bytes
    requires Exec(job, ops).orphan.None?
    ensures Faithful(job, Exec(job, ops), Restat(rel, true))
  {
    InflightInPlace(job, ops);
  }

  predicate NoUnlinkBelow(ops: seq<Op>, rel: Path) {
    forall k :: 0 <= k < |ops| && ops[k].UnlinkSource? ==> !(rel <= ops[k].rel)
  }

  /** Nothing has been unlinked below `rel` yet, so listing it shows what the source folder held. */
  lemma ListingMatches(job: Job, ops: seq<Op>, rel: Path)
    requires JobOk(job) && Legal(job, ops) && Undisturbed(job, ops) && NoUnlinkBelow(ops, rel)
    requires Exec(job, ops).orphan.None?
    ensures var fs := Exec(job, ops).fs;
            && Children(fs, job.source + rel) == Children(job.start, job.source + rel)
            && forall c | c in Children(job.start, job.source + rel) ::
                 SameAt(job.start, fs, job.source + (rel + [c]))
    ensures Extends(job.start, Exec(job, ops).fs)
  {
    var fs := Exec(job, ops).fs;
    UndisturbedOnTrack(job, ops);
    forall c: string ensures SameAt(job.start, fs, job.source + (rel + [c])) {
      assert UnlinkSource(rel + [c]) !in ops;
      SourceUntouched(job, ops, rel + [c]);
    }
    ChildrenByName(fs, job.source, rel);
    ChildrenByName(job.start, job.source, rel);
  }

  lemma ChildrenByName(fs: Fs, source: Path, rel: Path)
    ensures forall c: string :: c in Children(fs, source + rel) <==> source + (rel + [c]) in fs.names
  {
    forall c: string ensures c in Children(fs, source + rel) <==> source + (rel + [c]) in fs.names {
      ChildByName(fs, source + rel, c);
      assert source + rel + [c] == source + (rel + [c]);
    }
  }

  lemma ChildByName(fs: Fs, dir: Path, c: string)
    ensures c in Children(fs, dir) <==> dir + [c] in fs.names
  {
    if c in Children(fs, dir) {
      var p :| p in fs.names && p != [] && Parent(p) == dir && p[|p| - 1] == c;
      assert p == Parent(p) + [p[|p| - 1]];
    }
    if dir + [c] in fs.names {
      var p := dir + [c];
      assert p != [] && Parent(p) == dir && p[|p| - 1] == c;
    }
  }

  lemma FileDelivered(job: Job, w: World, rel: Path)
    requires WellFormed(job.start) && IsFile(job.start, job.source + rel) && rel in w.done
    ensures Delivered(job, w, rel)
  {
    forall r: Path | rel <= r && job.source + r in job.start.names ensures r == rel {
      if r != rel {
        var p := job.source + r;
        ParentsAreDirs(job.start, p, job.source + rel);
      }
    }
  }

  lemma {:induction false} ParentsAreDirs(fs: Fs, p: Path, ancestor: Path)
    requires WellFormed(fs) && p in fs.names && ancestor <= p && ancestor != p
    ensures IsDir(fs, ancestor)
    decreases |p|
  {
    if Parent(p) != ancestor {
      ParentsAreDirs(fs, Parent(p), ancestor);
    }
  }

  lemma ChildrenDelivered(job: Job, w: World, rel: Path)
    requires WellFormed(job.start) && rel in w.done
    requires forall c | c in Children(job.start, job.source + rel) :: Delivered(job, w, rel + [c])
    ensures Delivered(job, w, rel)
  {
    forall r: Path | rel <= r && job.source + r in job.start.names ensures r in w.done {
      if r != rel {
        DeliveredBelowChild(job, w, rel, r[|rel|], r);
      }
    }
  }

  lemma DeliveredBelowChild(job: Job, w: World, rel: Path, c: string, r: Path)
    requires WellFormed(job.start) && rel + [c] <= r && job.source + r in job.start.names
    requires c in Children(job.start, job.source + rel) ==> Delivered(job, w, rel + [c])
    ensures r in w.done
  {
    assert job.source + (rel + [c]) <= job.source + r;
    AncestorExists(job.start, job.source + r, job.source + (rel + [c]));
    assert job.source + rel + [c] == job.source + (rel + [c]);
    ChildByName(job.start, job.source + rel, c);
  }

  lemma DeliveredKept(job: Job, w: World, w': World, rel: Path)
    requires Delivered(job, w, rel) && w.done <= w'.done
    ensures Delivered(job, w', rel)
  {
  }

  // ---------------------------------------------------------------- what is left of the source

  /** Every file at or below `rel` in the source folder has been unlinked there. */
  ghost predicate Emptied(job: Job, ops: seq<Op>, rel: Path) {
    forall r: Path :: rel <= r && IsFile(job.start, job.source + r) ==> UnlinkSource(r) in ops
  }

  lemma FileEmptied(job: Job, ops: seq<Op>, rel: Path)
    requires WellFormed(job.start) && IsFile(job.start, job.source + rel) && UnlinkSource(rel) in ops
    ensures Emptied(job, ops, rel)
  {
    forall r: Path | rel <= r && IsFile(job.start, job.source + r) ensures r == rel {
      if r != rel {
        ParentsAreDirs(job.start, job.source + r, job.source + rel);
      }
    }
  }

  lemma ChildrenEmptied(job: Job, ops: seq<Op>, rel: Path)
    requires WellFormed(job.start) && IsDir(job.start, job.source + rel)
    requires forall c | c in Children(job.start, job.source + rel) :: Emptied(job, ops, rel + [c])
    ensures Emptied(job, ops, rel)
  {
    forall r: Path | rel <= r && IsFile(job.start, job.source + r) ensures UnlinkSource(r) in ops {
      assert r != rel;
      var c := r[|rel|];
      assert job.source + (rel + [c]) <= job.source + r;
      AncestorExists(job.start, job.source + r, job.source + (rel + [c]));
      assert job.source + rel + [c] == job.source + (rel + [c]);
      ChildByName(job.start, job.source + rel, c);
    }
  }

  lemma EmptiedKept(job: Job, earlier: seq<Op>, later: seq<Op>, rel: Path)
    requires Emptied(job, earlier, rel) && earlier <= later
    ensures Emptied(job, later, rel)
  {
    forall r: Path | rel <= r && IsFile(job.start, job.source + r) ensures UnlinkSource(r) in later {
      var k :| 0 <= k < |earlier| && earlier[k] == UnlinkSource(r);
      assert later[k] == UnlinkSource(r);
    }
  }

  /** A publication that has done this for the whole folder leaves no file in it. */
  lemma EmptiedIsGone(job: Job, ops: seq<Op>)
    requires JobOk(job) && Legal(job, ops) && Undisturbed(job, ops) && Emptied(job, ops, [])
    ensures forall r: Path :: IsFile(job.start, job.source + r) ==> job.source + r !in Exec(job, ops).fs.names
  {
    forall r: Path | IsFile(job.start, job.source + r) ensures job.source + r !in Exec(job, ops).fs.names {
      UnlinkedStaysGone(job, ops, r);
    }
  }

  // ---------------------------------------------------------------- when nothing stands in the way

  /** The destination can be made, and the source holds nothing but folders and files that fit below it. */
  ghost predicate Passable(job: Job) {
    && JobOk(job) && IsDir(job.start, Parent(job.destination))
    && forall r: Path :: job.source + r in job.start.names ==>
         && |job.destination + r| <= job.start.maxDepth
         && (IsDir(job.start, job.source + r) || IsFile(job.start, job.source + r))
  }

  /** Nothing at or below `rel` is complete yet. */
  ghost predicate Untouched(w: World, rel: Path) {
    forall r: Path :: rel <= r ==> r !in w.done
  }

  /** What stands at the destination has been completed or is being written. */
  lemma {:induction false} DestinationIsDone(job: Job, ops: seq<Op>, r: Path)
    requires JobOk(job) && Legal(job, ops) && Undisturbed(job, ops)
    requires job.destination + r in Exec(job, ops).fs.names
    requires Exec(job, ops).orphan.None?
    ensures r in Exec(job, ops).done || RelOf(Exec(job, ops).inflight) == Some(r)
    decreases |ops|
  {
    if ops == [] {
      AncestorExists(job.start, job.destination + r, job.destination);
    } else {
      var op := ops[|ops| - 1];
      if job.destination + r in Exec(job, ops[..|ops| - 1]).fs.names {
        DestinationIsDone(job, ops[..|ops| - 1], r);
      } else {
        SameSuffix(job.destination, r, op.rel);
      }
    }
  }

  /** Only complete files have left the source. */
  lemma {:induction false} UnlinkedIsDone(job: Job, ops: seq<Op>, r: Path)
    requires Legal(job, ops) && UnlinkSource(r) in ops
    ensures r in Exec(job, ops).done
    decreases |ops|
  {
    var n := |ops| - 1;
    var before := Exec(job, ops[..n]);
    if ops[n] == UnlinkSource(r) {
      assert CanApply(job, before, UnlinkSource(r));
    } else {
      assert ops == ops[..n] + [ops[n]];
      UnlinkedIsDone(job, ops[..n], r);
    }
    ApplyKeepsDone(job, before, ops[n]);
  }

  /** What is not done yet is still whole in the source. */
  lemma SourceStillThere(job: Job, ops: seq<Op>, rel: Path)
    requires JobOk(job) && Legal(job, ops) && Undisturbed(job, ops)
    requires job.source + rel in job.start.names && rel !in Exec(job, ops).done
    requires Exec(job, ops).orphan.None?
    ensures var fs := Exec(job, ops).fs;
            job.source + rel in fs.names && (IsFile(job.start, job.source + rel) ==> IsFile(fs, job.source + rel))
  {
    if UnlinkSource(rel) in ops {
      UnlinkedIsDone(job, ops, rel);
    }
    SourceUntouched(job, ops, rel);
    UndisturbedOnTrack(job, ops);
    assert Extends(job.start, Exec(job, ops).fs);
  }

  lemma DestinationParentStays(job: Job, ops: seq<Op>)
    requires Passable(job) && Legal(job, ops) && Undisturbed(job, ops)
    requires Exec(job, ops).orphan.None?
    ensures IsDir(Exec(job, ops).fs, Parent(job.destination))
  {
    UndisturbedOnTrack(job, ops);
    assert SameAt(job.start, Exec(job, ops).fs, Parent(job.destination));
  }

  lemma DoneIsCopy(job: Job, ops: seq<Op>, r: Path)
    requires JobOk(job) && Legal(job, ops) && Undisturbed(job, ops)
    requires r in Exec(job, ops).done && Exec(job, ops).inflight.None?
    requires Exec(job, ops).orphan.None?
    ensures SameContents(job.start, job.source + r, Exec(job, ops).fs, job.destination + r)
  {
    UndisturbedOnTrack(job, ops);
  }

  lemma ParentReady(job: Job, ops: seq<Op>, rel: Path)
    requires Passable(job) && Legal(job, ops) && Undisturbed(job, ops)
    requires job.source + rel in job.start.names
    requires rel != [] ==> Parent(rel) in Exec(job, ops).done && Exec(job, ops).inflight.None?
    requires Exec(job, ops).orphan.None?
    ensures IsDir(Exec(job, ops).fs, Parent(job.destination + rel))
  {
    if rel == [] {
      assert job.destination + rel == job.destination;
      DestinationParentStays(job, ops);
    } else {
      assert Parent(job.destination + rel) == job.destination + Parent(rel);
      assert Parent(job.source + rel) == job.source + Parent(rel);
      DoneIsCopy(job, ops, Parent(rel));
    }
  }

  /** With its parent done and itself not, an entry can be created at the destination. */
  lemma ReadyToPublish(job: Job, ops: seq<Op>, rel: Path)
    requires Passable(job) && Legal(job, ops) && Undisturbed(job, ops) && Exec(job, ops).inflight.None?
    requires job.source + rel in job.start.names && rel !in Exec(job, ops).done
    requires rel != [] ==> Parent(rel) in Exec(job, ops).done
    requires Exec(job, ops).orphan.None?
    ensures CanCreate(Exec(job, ops).fs, job.destination + rel)
  {
    ParentReady(job, ops, rel);
    var fs := Exec(job, ops).fs;
    if job.destination + rel in fs.names {
      DestinationIsDone(job, ops, rel);
    }
    UndisturbedOnTrack(job, ops);
    assert Extends(job.start, fs);
  }

  /** Operations on what lies below `rel` complete nothing elsewhere. */
  lemma {:induction false} DoneBelow(job: Job, earlier: seq<Op>, later: seq<Op>, rel: Path)
    requires Legal(job, later) && Legal(job, earlier) && earlier <= later
    requires forall k :: |earlier| <= k < |later| && HasRel(later[k]) ==> rel <= later[k].rel
    ensures forall r :: r in Exec(job, later).done ==> r in Exec(job, earlier).done || rel <= r
    decreases |later|
  {
    if |later| > |earlier| {
      DoneBelow(job, earlier, later[..|later| - 1], rel);
    } else {
      assert later == earlier;
    }
  }

  // ---------------------------------------------------------------- runs that cannot be undone

  lemma StepIsUndisturbed(job: Job, ops: seq<Op>, op: Op)
    requires Legal(job, ops) && Undisturbed(job, ops)
    requires CanApply(job, Exec(job, ops), op) && Faithful(job, Exec(job, ops), op)
    ensures Legal(job, ops + [op]) && Undisturbed(job, ops + [op])
    ensures Exec(job, ops + [op]) == Apply(job, Exec(job, ops), op)
  {
    assert (ops + [op])[..|ops|] == ops;
  }

  /** In any promotion that could succeed, the look at the new destination folder may throw. */
  lemma UnloggedFolderIsLeft(job: Job)
    requires Passable(job) && !job.start.identities.Unavailable?
    ensures var ops := [CreateUnlogged([], Directory)];
            && Legal(job, ops) && Undisturbed(job, ops)
            && !Restored(job, RollbackAll(Exec(job, ops).fs, Exec(job, ops).log))
  {
    assert job.source + [] == job.source;
    ReadyToPublish(job, [], []);
    StepIsUndisturbed(job, [], CreateUnlogged([], Directory));
    assert [] + [CreateUnlogged([], Directory)] == [CreateUnlogged([], Directory)];
    RollbackRestoresIff(job, [CreateUnlogged([], Directory)]);
  }

  /** The publication up to the first file of the folder. */
  lemma FolderMade(job: Job, name: string)
    requires Passable(job) && IsFile(job.start, job.source + [name])
    ensures var ops := [Mkdir([])];
            && Legal(job, ops) && Undisturbed(job, ops)
            && CanCreate(Exec(job, ops).fs, job.destination + [name])
            && Exec(job, ops).inflight.None? && Exec(job, ops).orphan.None? && !Exec(job, ops).stale
            && [name] !in Exec(job, ops).done
            && Exec(job, ops).fs.maxSize == job.start.maxSize && Exec(job, ops).fs.identities == job.start.identities
  {
    assert job.source + [] == job.source;
    ReadyToPublish(job, [], []);
    StepIsUndisturbed(job, [], Mkdir([]));
    assert [] + [Mkdir([])] == [Mkdir([])];
    assert Parent([name]) == [];
    ReadyToPublish(job, [Mkdir([])], [name]);
  }

  /** So may the look at the first file opened for copying. */
  lemma UnloggedFileIsLeft(job: Job, name: string)
    requires Passable(job) && !job.start.identities.Unavailable? && IsFile(job.start, job.source + [name])
    ensures var ops := [Mkdir([])] + [CreateUnlogged([name], File)];
            && Legal(job, ops) && Undisturbed(job, ops)
            && !Restored(job, RollbackAll(Exec(job, ops).fs, Exec(job, ops).log))
  {
    FolderMade(job, name);
    StepIsUndisturbed(job, [Mkdir([])], CreateUnlogged([name], File));
    RollbackRestoresIff(job, [Mkdir([])] + [CreateUnlogged([name], File)]);
  }

  /** And after a write to it, what the file has become may be impossible to read back. */
  lemma StaleFileIsLeft(job: Job, name: string, data: seq<byte>)
    requires Passable(job) && !job.start.identities.Unavailable? && IsFile(job.start, job.source + [name])
    requires |data| <= job.start.maxSize
    ensures var ops := [Mkdir([])] + [OpenExclusive([name])] + [Write([name], 0, data)];
            && Legal(job, ops) && Undisturbed(job, ops)
            && !Restored(job, RollbackAll(Exec(job, ops).fs, Exec(job, ops).log))
  {
    FolderMade(job, name);
    var begun := [Mkdir([])] + [OpenExclusive([name])];
    StepIsUndisturbed(job, [Mkdir([])], OpenExclusive([name]));
    StepIsUndisturbed(job, begun, Write([name], 0, data));
    RollbackRestoresIff(job, begun + [Write([name], 0, data)]);
  }

  /** Stopped after its first file a promotion is undone at the destination, and the file is lost. */
  lemma StoppedPromotionLosesFile(job: Job, name: string)
    requires Passable(job) && !job.start.identities.Unavailable? && IsFile(job.start, job.source + [name])
    ensures var ops := [Mkdir([])] + [LinkFile([name])] + [UnlinkSource([name])];
            && Legal(job, ops) && Undisturbed(job, ops)
            && var fs := RollbackAll(Exec(job, ops).fs, Exec(job, ops).log);
            && Restored(job, fs) && job.source + [name] !in fs.names && job.destination + [name] !in fs.names
  {
    FolderMade(job, name);
    SourceStillThere(job, [Mkdir([])], [name]);
    var linked := [Mkdir([])] + [LinkFile([name])];
    StepIsUndisturbed(job, [Mkdir([])], LinkFile([name]));
    LinkKeepsSource(job, Exec(job, [Mkdir([])]), [name]);
    StepIsUndisturbed(job, linked, UnlinkSource([name]));
    var ops := linked + [UnlinkSource([name])];
    RollbackRestoresIff(job, ops);
    assert ops[2] == UnlinkSource([name]);
    RollbackLosesIff(job, ops, [name]);
  }

  lemma LinkKeepsSource(job: Job, w: World, rel: Path)
    requires CanApply(job, w, LinkFile(rel))
    ensures var w' := Apply(job, w, LinkFile(rel));
            && IsFile(w'.fs, job.source + rel)
            && w'.inflight.None? && w'.orphan.None? && rel in w'.done && w'.stale == w.stale
            && w'.fs.identities == w.fs.identities
  {
  }

  /** A folder with one file, to be promoted beside itself. */
  function ExampleJob(bytes: seq<byte>): Job {
    var names: map<Path, nat> := map[[] := 0, ["temp"] := 1, ["temp", "file"] := 2];
    var inodes := map[0 := Inode(Directory, [], 0, 0), 1 := Inode(Directory, [], 0, 0), 2 := Inode(File, bytes, 0, 0)];
    Job(["temp"], ["final"], Fs(names, inodes, 3, 1, Stable, 9, |bytes|))
  }

  lemma ExampleIsPassable(bytes: seq<byte>)
    ensures Passable(ExampleJob(bytes)) && IsFile(ExampleJob(bytes).start, ExampleJob(bytes).source + ["file"])
  {
    var job := ExampleJob(bytes);
    assert job.source + ["file"] == ["temp", "file"];
    assert Parent(["temp"]) == [] && Parent(["temp", "file"]) == ["temp"] && Parent(["final"]) == [];
    forall r: Path | job.source + r in job.start.names
      ensures |job.destination + r| <= 9 && (IsDir(job.start, job.source + r) || IsFile(job.start, job.source + r))
    {
      assert (job.source + r)[0] == "temp";
    }
  }
}
