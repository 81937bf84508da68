/**
 Publishing a downloaded folder without overwriting anything (src/main/local-downloaded-folder-promotion.ts):
 every directory and file is claimed exclusively at the destination and logged, and a failure rolls the
 log back in reverse, removing an entry only while it is still the one that was logged.
 */
module Promotion {
  import opened Wrappers
  import opened LocalFs

  datatype Stats = Stats(dev: nat, ino: nat, birthtime: nat, size: nat, mtime: nat, mode: nat)
  datatype FileState = FileState(size: nat, mtime: nat, mode: nat)

  /** A logged entry.  `ino` and `snapshot` record which inode it was and, for a file, the bytes it held. */
  datatype Entry = Entry(kind: Kind, path: Path, dev: nat, inoShown: nat, birthtime: nat,
                         fileState: Option<FileState>, ino: nat, snapshot: seq<byte>)

  function StatsOf(fs: Fs, ino: nat): Stats
    requires ino in fs.inodes
  {
    var i := fs.inodes[ino];
    match fs.identities
    case Stable => Stats(1, ino, 0, |i.bytes|, i.mtime, i.mode)
    case BirthTimeOnly => Stats(0, 0, ino + 1, |i.bytes|, i.mtime, i.mode)
    case Unavailable => Stats(0, 0, 0, |i.bytes|, i.mtime, i.mode)
  }

  predicate HasSameIdentity(current: Stats, e: Entry) {
    if e.dev != 0 || e.inoShown != 0 then current.dev == e.dev && current.ino == e.inoShown
    else e.birthtime != 0 && current.birthtime == e.birthtime
  }

  predicate HasSameFileState(current: Stats, e: Entry) {
    e.fileState.None?
    || (current.size == e.fileState.value.size && current.mtime == e.fileState.value.mtime
        && current.mode == e.fileState.value.mode)
  }

  function EntryFromStats(kind: Kind, path: Path, fs: Fs, ino: nat): Entry
    requires ino in fs.inodes
  {
    var st := StatsOf(fs, ino);
    Entry(kind, path, st.dev, st.ino, st.birthtime,
          if kind.File? then Some(FileState(st.size, st.mtime, st.mode)) else None,
          ino, fs.inodes[ino].bytes)
  }

  /** An entry that the log may hold in `fs`: it shows the identity of its inode and dates from the past. */
  predicate EntryOk(fs: Fs, e: Entry) {
    && e.ino in fs.inodes
    && fs.inodes[e.ino].kind == e.kind
    && (e.kind.Directory? || e.kind.File?)
    && (e.dev, e.inoShown, e.birthtime)
       == (StatsOf(fs, e.ino).dev, StatsOf(fs, e.ino).ino, StatsOf(fs, e.ino).birthtime)
    && (e.kind.File? <==> e.fileState.Some?)
    && (e.kind.File? ==> e.fileState.value.mtime < fs.clock)
    && (e.kind.File? && fs.inodes[e.ino].mtime == e.fileState.value.mtime ==> fs.inodes[e.ino].bytes == e.snapshot)
  }

  predicate LogOk(fs: Fs, log: seq<Entry>) {
    forall k :: 0 <= k < |log| ==> EntryOk(fs, log[k])
  }

  /** With inode numbers or birth times to compare, equal identity means the same inode. */
  lemma IdentityIsInode(fs: Fs, e: Entry, ino: nat)
    requires EntryOk(fs, e) && ino in fs.inodes
    ensures HasSameIdentity(StatsOf(fs, ino), e) <==> ino == e.ino && !fs.identities.Unavailable?
  {
  }

  lemma LogOkUnderThirdParty(fs: Fs, fs': Fs, log: seq<Entry>)
    requires WellFormed(fs) && LogOk(fs, log) && ThirdParty(fs, fs')
    ensures LogOk(fs', log)
  {
    forall k | 0 <= k < |log| ensures EntryOk(fs', log[k]) {
      assert EntryOk(fs, log[k]);
    }
  }

  // ---------------------------------------------------------------- rollback without interference

  function RollbackEntry(fs: Fs, e: Entry): Fs {
    if e.path !in fs.names || fs.names[e.path] !in fs.inodes then fs
    else
      var current := StatsOf(fs, fs.names[e.path]);
      if !HasSameIdentity(current, e) then fs
      else if e.kind.File? then
        if HasSameFileState(current, e) then Remove(fs, e.path) else fs
      else if IsDir(fs, e.path) && !HasChildren(fs, e.path) then Remove(fs, e.path)
      else fs
  }

  function RollbackAll(fs: Fs, log: seq<Entry>): Fs
    decreases |log|
  {
    if log == [] then fs
    else RollbackAll(RollbackEntry(fs, log[|log| - 1]), log[..|log| - 1])
  }

  predicate Logged(log: seq<Entry>, p: Path) {
    exists k :: 0 <= k < |log| && log[k].path == p
  }

  /** No entry is listed twice, and none before a directory that holds it. */
  predicate ParentsFirst(log: seq<Entry>) {
    && (forall j, k :: 0 <= j < k < |log| ==> log[j].path != log[k].path)
    && (forall j, k :: 0 <= j < k < |log| && log[j].path != [] ==> Parent(log[j].path) != log[k].path)
  }

  predicate LogBelow(fs: Fs, log: seq<Entry>, destination: Path) {
    forall k :: 0 <= k < |log| ==>
      destination <= log[k].path && log[k].path in fs.names && fs.names[log[k].path] == log[k].ino
  }

  /** The log lists exactly what exists at and below `destination`, parents before children. */
  predicate Ledger(fs: Fs, log: seq<Entry>, destination: Path) {
    && LogBelow(fs, log, destination)
    && ParentsFirst(log)
    && (forall p | p in fs.names :: destination <= p ==> Logged(log, p))
  }

  predicate StateCurrent(fs: Fs, e: Entry) {
    e.ino in fs.inodes && (e.kind.File? ==> HasSameFileState(StatsOf(fs, e.ino), e))
  }

  predicate StatesCurrent(fs: Fs, log: seq<Entry>) {
    forall k :: 0 <= k < |log| ==> StateCurrent(fs, log[k])
  }

  lemma LastHasNoChildren(fs: Fs, log: seq<Entry>, destination: Path)
    requires Ledger(fs, log, destination) && log != []
    ensures !HasChildren(fs, log[|log| - 1].path)
  {
    assert forall q: Path :: q != [] && destination <= Parent(q) ==> destination <= q;
    forall q | q in fs.names && q != [] && destination <= q ensures Parent(q) != log[|log| - 1].path {
      assert Logged(log, q);
    }
  }

  lemma LastIsRemoved(fs: Fs, log: seq<Entry>, destination: Path)
    requires LogOk(fs, log) && Ledger(fs, log, destination) && StatesCurrent(fs, log)
    requires log != [] && !fs.identities.Unavailable?
    ensures RollbackEntry(fs, log[|log| - 1]) == Remove(fs, log[|log| - 1].path)
  {
    LastHasNoChildren(fs, log, destination);
    assert EntryOk(fs, log[|log| - 1]) && StateCurrent(fs, log[|log| - 1]);
  }

  lemma LogOkAfterRemove(fs: Fs, log: seq<Entry>, p: Path)
    requires LogOk(fs, log)
    ensures LogOk(Remove(fs, p), log)
    ensures StatesCurrent(fs, log) ==> StatesCurrent(Remove(fs, p), log)
  {
    forall k | 0 <= k < |log|
      ensures EntryOk(Remove(fs, p), log[k])
      ensures StateCurrent(fs, log[k]) ==> StateCurrent(Remove(fs, p), log[k])
    {
      assert EntryOk(fs, log[k]);
    }
  }

  lemma LedgerShrinks(fs: Fs, log: seq<Entry>, destination: Path)
    requires Ledger(fs, log, destination) && log != []
    ensures Ledger(Remove(fs, log[|log| - 1].path), log[..|log| - 1], destination)
  {
    var fs', log' := Remove(fs, log[|log| - 1].path), log[..|log| - 1];
    forall p | p in fs'.names && destination <= p ensures Logged(log', p) {
      assert Logged(log, p);
      var k :| 0 <= k < |log| && log[k].path == p;
      assert log'[k].path == p;
    }
    forall k | 0 <= k < |log'|
      ensures destination <= log'[k].path && log'[k].path in fs'.names && fs'.names[log'[k].path] == log'[k].ino
    {
      assert log'[k] == log[k];
    }
  }

  /** Undisturbed, rollback clears everything at and below the destination and touches nothing else. */
  lemma {:induction false} RollbackRestores(fs: Fs, log: seq<Entry>, destination: Path)
    requires LogOk(fs, log) && Ledger(fs, log, destination) && StatesCurrent(fs, log)
    requires !fs.identities.Unavailable?
    ensures forall p :: p in RollbackAll(fs, log).names <==> p in fs.names && !(destination <= p)
    ensures forall p | p in RollbackAll(fs, log).names :: RollbackAll(fs, log).names[p] == fs.names[p]
    ensures RollbackAll(fs, log).inodes == fs.inodes
    decreases |log|
  {
    if log == [] {
      assert forall p | p in fs.names :: destination <= p ==> Logged(log, p);
    } else {
      var last := log[|log| - 1];
      LastIsRemoved(fs, log, destination);
      LedgerShrinks(fs, log, destination);
      LogOkAfterRemove(fs, log, last.path);
      var fs', log' := Remove(fs, last.path), log[..|log| - 1];
      assert LogOk(fs', log') && StatesCurrent(fs', log');
      RollbackRestores(fs', log', destination);
      assert destination <= last.path;
    }
  }

  lemma RollbackEntryWellFormed(fs: Fs, e: Entry)
    requires WellFormed(fs) && EntryOk(fs, e)
    ensures WellFormed(RollbackEntry(fs, e))
  {
    if RollbackEntry(fs, e) != fs {
      IdentityIsInode(fs, e, fs.names[e.path]);
      assert !HasChildren(fs, e.path);
      RemoveWellFormed(fs, e.path);
    }
  }

  /** A file whose recorded state is out of date stays, and with it every directory above it. */
  lemma {:induction false} OutdatedFileStays(fs: Fs, log: seq<Entry>, p: Path)
    requires WellFormed(fs) && LogOk(fs, log) && IsFile(fs, p)
    requires forall k :: 0 <= k < |log| && log[k].path == p ==> !HasSameFileState(StatsOf(fs, fs.names[p]), log[k])
    ensures WellFormed(RollbackAll(fs, log)) && p in RollbackAll(fs, log).names
    decreases |log|
  {
    if log != [] {
      var e, log' := log[|log| - 1], log[..|log| - 1];
      var fs' := RollbackEntry(fs, e);
      assert EntryOk(fs, e);
      RollbackEntryWellFormed(fs, e);
      assert fs' == fs || (fs' == Remove(fs, e.path) && e.path != p) by {
        if fs' != fs {
          IdentityIsInode(fs, e, fs.names[e.path]);
        }
      }
      LogOkAfterRemove(fs, log, e.path);
      assert forall k :: 0 <= k < |log'| ==> log'[k] == log[k];
      OutdatedFileStays(fs', log', p);
    }
  }

  /** What the log does not mention stays, and with it every directory above it. */
  lemma {:induction false} UnloggedStays(fs: Fs, log: seq<Entry>, p: Path)
    requires WellFormed(fs) && LogOk(fs, log) && p in fs.names && !Logged(log, p)
    ensures WellFormed(RollbackAll(fs, log)) && p in RollbackAll(fs, log).names
    decreases |log|
  {
    if log != [] {
      var e, log' := log[|log| - 1], log[..|log| - 1];
      assert EntryOk(fs, e) && e.path != p;
      RollbackEntryWellFormed(fs, e);
      LogOkAfterRemove(fs, log, e.path);
      assert forall k :: 0 <= k < |log'| ==> log'[k] == log[k];
      UnloggedStays(RollbackEntry(fs, e), log', p);
    }
  }

  /** Rolling back takes away what the log mentions, at most. */
  lemma {:induction false} RollbackSparesUnlogged(fs: Fs, log: seq<Entry>, p: Path)
    ensures p in RollbackAll(fs, log).names ==> p in fs.names
    ensures !Logged(log, p) && p in fs.names ==> p in RollbackAll(fs, log).names
    decreases |log|
  {
    if log != [] {
      var e, log' := log[|log| - 1], log[..|log| - 1];
      assert forall k :: 0 <= k < |log'| ==> log'[k] == log[k];
      assert e.path == p ==> Logged(log, p);
      RollbackSparesUnlogged(RollbackEntry(fs, e), log', p);
    }
  }

  /** A file that is as the log says is taken away, wherever in the log it stands. */
  lemma {:induction false} CurrentFileIsRemoved(fs: Fs, log: seq<Entry>, k: nat)
    requires LogOk(fs, log) && k < |log| && !fs.identities.Unavailable?
    requires log[k].kind.File? && StateCurrent(fs, log[k])
    requires log[k].path in fs.names ==> fs.names[log[k].path] == log[k].ino
    ensures log[k].path !in RollbackAll(fs, log).names
    decreases |log|
  {
    var e, log' := log[|log| - 1], log[..|log| - 1];
    assert EntryOk(fs, log[k]);
    if k == |log| - 1 {
      RollbackSparesUnlogged(RollbackEntry(fs, e), log', e.path);
    } else {
      LogOkAfterRemove(fs, log, e.path);
      assert forall j :: 0 <= j < |log'| ==> log'[j] == log[j];
      CurrentFileIsRemoved(RollbackEntry(fs, e), log', k);
    }
  }

  lemma {:induction false} AncestorExists(fs: Fs, p: Path, ancestor: Path)
    requires WellFormed(fs) && p in fs.names && ancestor <= p
    ensures ancestor in fs.names
    decreases |p|
  {
    if ancestor != p {
      AncestorExists(fs, Parent(p), ancestor);
    }
  }

  // ---------------------------------------------------------------- publication without interference

  ghost predicate SameAt(fs: Fs, fs': Fs, p: Path) {
    && (p in fs.names <==> p in fs'.names)
    && (p in fs.names ==> fs.names[p] == fs'.names[p])
  }

  /** Every inode of `fs` is still there, with the same contents. */
  predicate Extends(fs: Fs, fs': Fs) {
    && fs.identities == fs'.identities && fs.maxDepth == fs'.maxDepth && fs.maxSize == fs'.maxSize
    && fs.nextIno <= fs'.nextIno
    && forall i | i in fs.inodes :: i in fs'.inodes && fs'.inodes[i] == fs.inodes[i]
  }

  predicate SameContents(fs: Fs, p: Path, fs': Fs, p': Path) {
    && p in fs.names && fs.names[p] in fs.inodes && p' in fs'.names && fs'.names[p'] in fs'.inodes
    && fs'.inodes[fs'.names[p']].kind == fs.inodes[fs.names[p]].kind
    && (fs.inodes[fs.names[p]].kind.File? ==>
          fs'.inodes[fs'.names[p']].bytes == fs.inodes[fs.names[p]].bytes)
  }

  /** Neither tree contains the other. */
  predicate Apart(source: Path, destination: Path) {
    !(source <= destination) && !(destination <= source)
  }

  /** Outside the two trees nothing has changed. */
  ghost predicate OutsideSame(fs0: Fs, fs: Fs, source: Path, destination: Path) {
    forall p :: !(source <= p) && !(destination <= p) ==> SameAt(fs0, fs, p)
  }

  /** What has left the source is complete at the destination; nothing new has appeared in the source. */
  ghost predicate SourceOk(fs0: Fs, fs: Fs, source: Path, destination: Path) {
    && (forall r: Path :: source + r in fs.names ==>
          source + r in fs0.names && fs.names[source + r] == fs0.names[source + r])
    && (forall r: Path :: source + r in fs0.names && source + r !in fs.names ==>
          IsFile(fs0, source + r) && SameContents(fs0, source + r, fs, destination + r))
  }

  /** Everything at the destination is a complete copy, except the one file being written. */
  ghost predicate DestinationOk(fs0: Fs, fs: Fs, source: Path, destination: Path, inflight: Option<Path>) {
    && (forall r: Path :: destination + r in fs.names && inflight != Some(r) ==>
          SameContents(fs0, source + r, fs, destination + r))
    && (inflight.Some? ==> source + inflight.value in fs.names)
  }

  ghost predicate Progress(fs0: Fs, fs: Fs, log: seq<Entry>, source: Path, destination: Path, inflight: Option<Path>) {
    && Extends(fs0, fs)
    && Ledger(fs, log, destination)
    && OutsideSame(fs0, fs, source, destination)
    && SourceOk(fs0, fs, source, destination)
    && DestinationOk(fs0, fs, source, destination, inflight)
  }

  /** Each source file can still be read in full, at its source path or at its destination path. */
  ghost predicate BytesReachable(fs0: Fs, fs: Fs, source: Path, destination: Path) {
    forall r: Path :: IsFile(fs0, source + r) ==>
      SameContents(fs0, source + r, fs, source + r) || SameContents(fs0, source + r, fs, destination + r)
  }

  lemma ProgressKeepsBytes(fs0: Fs, fs: Fs, log: seq<Entry>, source: Path, destination: Path, inflight: Option<Path>)
    requires WellFormed(fs0) && Progress(fs0, fs, log, source, destination, inflight)
    ensures BytesReachable(fs0, fs, source, destination)
  {
    forall r: Path | IsFile(fs0, source + r)
      ensures SameContents(fs0, source + r, fs, source + r) || SameContents(fs0, source + r, fs, destination + r)
    {
      if source + r in fs.names {
        assert fs.names[source + r] == fs0.names[source + r];
      }
    }
  }

  lemma LoggedGrows(fs: Fs, fs': Fs, log: seq<Entry>, e: Entry, destination: Path)
    requires forall p | p in fs.names :: destination <= p ==> Logged(log, p)
    requires fs'.names == fs.names[e.path := e.ino]
    ensures forall p | p in fs'.names :: destination <= p ==> Logged(log + [e], p)
  {
    var log' := log + [e];
    forall p | p in fs'.names && destination <= p ensures Logged(log', p) {
      if p == e.path {
        assert log'[|log|].path == p;
      } else {
        assert Logged(log, p);
        var k :| 0 <= k < |log| && log[k].path == p;
        assert log'[k].path == p;
      }
    }
  }

  lemma LedgerGrows(fs: Fs, fs': Fs, log: seq<Entry>, e: Entry, destination: Path)
    requires WellFormed(fs) && Ledger(fs, log, destination)
    requires destination <= e.path && e.path !in fs.names && fs'.names == fs.names[e.path := e.ino]
    ensures Ledger(fs', log + [e], destination)
  {
    LoggedGrows(fs, fs', log, e, destination);
    OrderGrows(fs, log, e, destination);
  }

  lemma OrderGrows(fs: Fs, log: seq<Entry>, e: Entry, destination: Path)
    requires WellFormed(fs) && LogBelow(fs, log, destination) && ParentsFirst(log) && e.path !in fs.names
    ensures ParentsFirst(log + [e])
  {
    forall j | 0 <= j < |log| && log[j].path != [] ensures Parent(log[j].path) != e.path {
      assert log[j].path in fs.names;
    }
  }

  /** A step that only adds one name at the destination keeps the outside and the source as they were. */
  lemma NameAdded(fs0: Fs, fs: Fs, fs': Fs, source: Path, destination: Path, rel: Path, ino: nat)
    requires Extends(fs0, fs) && Extends(fs, fs') && Apart(source, destination)
    requires OutsideSame(fs0, fs, source, destination) && SourceOk(fs0, fs, source, destination)
    requires destination + rel !in fs.names && fs'.names == fs.names[destination + rel := ino]
    ensures Extends(fs0, fs')
    ensures OutsideSame(fs0, fs', source, destination) && SourceOk(fs0, fs', source, destination)
  {
    SourcePathsApart(source, destination, rel);
    forall p | !(source <= p) && !(destination <= p) ensures SameAt(fs0, fs', p) {
      assert SameAt(fs0, fs, p) && p != destination + rel;
    }
    forall r: Path | source + r in fs0.names && source + r !in fs'.names
      ensures IsFile(fs0, source + r) && SameContents(fs0, source + r, fs', destination + r)
    {
      assert SameContents(fs0, source + r, fs, destination + r);
    }
  }

  lemma SourcePathsApart(source: Path, destination: Path, rel: Path)
    requires Apart(source, destination)
    ensures forall r: Path :: source + r != destination + rel
  {
    assert destination == (destination + rel)[..|destination|];
    forall r: Path ensures source + r != destination + rel {
      assert source == (source + r)[..|source|];
    }
  }

  lemma SameSuffix(root: Path, r: Path, rel: Path)
    requires root + r == root + rel
    ensures r == rel
  {
    assert r == (root + r)[|root|..] && rel == (root + rel)[|root|..];
  }

  /** Paths already at the destination keep their contents; the added one is complete or is the one in flight. */
  lemma DestinationGrows(fs0: Fs, fs: Fs, fs': Fs, source: Path, destination: Path, rel: Path, ino: nat,
        inflight: Option<Path>)
    requires Extends(fs, fs') && DestinationOk(fs0, fs, source, destination, None)
    requires fs'.names == fs.names[destination + rel := ino]
    requires destination + rel !in fs.names
    requires forall p | p in fs.names :: fs.names[p] in fs.inodes
    requires inflight == None || inflight == Some(rel)
    requires inflight == None ==> SameContents(fs0, source + rel, fs', destination + rel)
    requires inflight == Some(rel) ==> source + rel in fs'.names
    ensures DestinationOk(fs0, fs', source, destination, inflight)
  {
    forall r: Path | destination + r in fs'.names && inflight != Some(r)
      ensures SameContents(fs0, source + r, fs', destination + r)
    {
      if destination + r == destination + rel {
        SameSuffix(destination, r, rel);
      } else {
        assert SameContents(fs0, source + r, fs, destination + r);
      }
    }
  }

  lemma CreateExtends(fs: Fs, p: Path, kind: Kind)
    requires WellFormed(fs) && CanCreate(fs, p)
    ensures Extends(fs, Create(fs, p, kind))
  {
  }

  /** mkdir at the destination. */
  lemma MkdirProgress(fs0: Fs, fs: Fs, log: seq<Entry>, source: Path, destination: Path, rel: Path)
    requires WellFormed(fs) && Progress(fs0, fs, log, source, destination, None) && Apart(source, destination)
    requires CanCreate(fs, destination + rel) && IsDir(fs0, source + rel)
    ensures var fs' := Create(fs, destination + rel, Directory);
            Progress(fs0, fs', log + [EntryFromStats(Directory, destination + rel, fs', fs.nextIno)],
                     source, destination, None)
  {
    var fs' := Create(fs, destination + rel, Directory);
    CreateExtends(fs, destination + rel, Directory);
    LedgerGrows(fs, fs', log, EntryFromStats(Directory, destination + rel, fs', fs.nextIno), destination);
    NameAdded(fs0, fs, fs', source, destination, rel, fs.nextIno);
    DestinationGrows(fs0, fs, fs', source, destination, rel, fs.nextIno, None);
  }

  /** Exclusive open of a destination file: from here on it is the file in flight. */
  lemma OpenProgress(fs0: Fs, fs: Fs, log: seq<Entry>, source: Path, destination: Path, rel: Path)
    requires WellFormed(fs) && Progress(fs0, fs, log, source, destination, None) && Apart(source, destination)
    requires CanCreate(fs, destination + rel) && source + rel in fs.names
    ensures var fs' := Create(fs, destination + rel, File);
            Progress(fs0, fs', log + [EntryFromStats(File, destination + rel, fs', fs.nextIno)],
                     source, destination, Some(rel))
  {
    var fs' := Create(fs, destination + rel, File);
    CreateExtends(fs, destination + rel, File);
    LedgerGrows(fs, fs', log, EntryFromStats(File, destination + rel, fs', fs.nextIno), destination);
    NameAdded(fs0, fs, fs', source, destination, rel, fs.nextIno);
    SourcePathsApart(source, destination, rel);
    DestinationGrows(fs0, fs, fs', source, destination, rel, fs.nextIno, Some(rel));
  }

  lemma LinkProgress(fs0: Fs, fs: Fs, log: seq<Entry>, source: Path, destination: Path, rel: Path)
    requires WellFormed(fs) && Progress(fs0, fs, log, source, destination, None) && Apart(source, destination)
    requires CanCreate(fs, destination + rel) && IsFile(fs, source + rel)
    requires source + rel in fs0.names && fs0.names[source + rel] in fs0.inodes
    ensures var fs' := Link(fs, source + rel, destination + rel);
            Progress(fs0, fs', log + [EntryFromStats(File, destination + rel, fs', fs.names[source + rel])],
                     source, destination, None)
  {
    var fs' := Link(fs, source + rel, destination + rel);
    LedgerGrows(fs, fs', log, EntryFromStats(File, destination + rel, fs', fs.names[source + rel]), destination);
    NameAdded(fs0, fs, fs', source, destination, rel, fs.names[source + rel]);
    assert fs.names[source + rel] == fs0.names[source + rel];
    DestinationGrows(fs0, fs, fs', source, destination, rel, fs.names[source + rel], None);
  }

  /** Writing to the file in flight, whose inode did not exist before promotion began. */
  lemma WriteProgress(fs0: Fs, fs: Fs, log: seq<Entry>, source: Path, destination: Path, rel: Path, ino: nat, at: nat,
                      data: seq<byte>)
    requires Progress(fs0, fs, log, source, destination, Some(rel))
    requires ino in fs.inodes && ino !in fs0.inodes
    requires forall p | p in fs.names :: p != destination + rel ==> fs.names[p] != ino
    ensures Progress(fs0, WriteAt(fs, ino, at, data), log, source, destination, Some(rel))
  {
    var fs' := WriteAt(fs, ino, at, data);
    forall p | !(source <= p) && !(destination <= p) ensures SameAt(fs0, fs', p) {
      assert SameAt(fs0, fs, p);
    }
    forall r: Path | source + r in fs0.names && source + r !in fs'.names
      ensures IsFile(fs0, source + r) && SameContents(fs0, source + r, fs', destination + r)
    {
      assert SameContents(fs0, source + r, fs, destination + r);
      if destination + r == destination + rel {
        SameSuffix(destination, r, rel);
      }
    }
    forall r: Path | destination + r in fs'.names && Some(rel) != Some(r)
      ensures SameContents(fs0, source + r, fs', destination + r)
    {
      if destination + r == destination + rel {
        SameSuffix(destination, r, rel);
      }
      assert SameContents(fs0, source + r, fs, destination + r);
    }
    forall p | p in fs'.names && destination <= p ensures Logged(log, p) {
      assert p in fs.names;
    }
  }

  /** A published source file may be unlinked. */
  lemma UnlinkProgress(fs0: Fs, fs: Fs, log: seq<Entry>, source: Path, destination: Path, rel: Path)
    requires Progress(fs0, fs, log, source, destination, None) && Apart(source, destination)
    requires IsFile(fs0, source + rel) && source + rel in fs.names && destination + rel in fs.names
    ensures Progress(fs0, Remove(fs, source + rel), log, source, destination, None)
  {
    var fs' := Remove(fs, source + rel);
    SourcePathsApart(destination, source, rel);
    assert forall p | destination <= p :: p == destination + p[|destination|..];
    forall p | !(source <= p) && !(destination <= p) ensures SameAt(fs0, fs', p) {
      assert SameAt(fs0, fs, p);
      assert source <= source + rel;
    }
    forall r: Path | source + r in fs0.names && source + r !in fs'.names
      ensures IsFile(fs0, source + r) && SameContents(fs0, source + r, fs', destination + r)
    {
      if source + r == source + rel {
        SameSuffix(source, r, rel);
      }
      assert SameContents(fs0, source + r, fs, destination + r);
    }
    forall r: Path | destination + r in fs'.names ensures SameContents(fs0, source + r, fs', destination + r) {
      assert destination <= destination + r;
      assert SameContents(fs0, source + r, fs, destination + r);
    }
    forall p | p in fs'.names && destination <= p ensures Logged(log, p) {
      assert p in fs.names;
    }
    forall k | 0 <= k < |log|
      ensures log[k].path in fs'.names && fs'.names[log[k].path] == log[k].ino
    {
      assert destination <= log[k].path;
    }
  }

  /** The finished file is no longer in flight. */
  lemma CopyCompletes(fs0: Fs, fs: Fs, log: seq<Entry>, source: Path, destination: Path, rel: Path)
    requires Progress(fs0, fs, log, source, destination, Some(rel))
    requires SameContents(fs0, source + rel, fs, destination + rel)
    ensures Progress(fs0, fs, log, source, destination, None)
  {
    forall r: Path | destination + r in fs.names ensures SameContents(fs0, source + r, fs, destination + r) {
      if r != rel {
        assert Some(rel) != Some(r);
      }
    }
  }

  lemma LedgerKeepsPaths(fs: Fs, log: seq<Entry>, log': seq<Entry>, destination: Path)
    requires Ledger(fs, log, destination) && |log'| == |log|
    requires forall k :: 0 <= k < |log| ==> log'[k].path == log[k].path && log'[k].ino == log[k].ino
    ensures Ledger(fs, log', destination)
  {
    forall p | p in fs.names && destination <= p ensures Logged(log', p) {
      assert Logged(log, p);
      var k :| 0 <= k < |log| && log[k].path == p;
      assert log'[k].path == p;
    }
  }

  lemma LogOkAfterWrite(fs: Fs, log: seq<Entry>, ino: nat, at: nat, data: seq<byte>)
    requires LogOk(fs, log) && ino in fs.inodes
    ensures LogOk(WriteAt(fs, ino, at, data), log)
  {
    forall k | 0 <= k < |log| ensures EntryOk(WriteAt(fs, ino, at, data), log[k]) {
      assert EntryOk(fs, log[k]);
    }
  }

  lemma LogOkAfterCreate(fs: Fs, log: seq<Entry>, p: Path, kind: Kind)
    requires WellFormed(fs) && LogOk(fs, log) && CanCreate(fs, p) && (kind.File? || kind.Directory?)
    ensures var fs' := Create(fs, p, kind);
            LogOk(fs', log + [EntryFromStats(kind, p, fs', fs.nextIno)])
            && (StatesCurrent(fs, log) ==> StatesCurrent(fs', log + [EntryFromStats(kind, p, fs', fs.nextIno)]))
  {
    var fs' := Create(fs, p, kind);
    var log' := log + [EntryFromStats(kind, p, fs', fs.nextIno)];
    forall k | 0 <= k < |log'|
      ensures EntryOk(fs', log'[k])
      ensures StatesCurrent(fs, log) ==> StateCurrent(fs', log'[k])
    {
      if k < |log| {
        assert EntryOk(fs, log[k]);
        assert StatesCurrent(fs, log) ==> StateCurrent(fs, log[k]);
      }
    }
  }

  lemma LogOkAfterLink(fs: Fs, log: seq<Entry>, source: Path, p: Path)
    requires WellFormed(fs) && LogOk(fs, log) && CanCreate(fs, p) && IsFile(fs, source)
    ensures var fs' := Link(fs, source, p);
            LogOk(fs', log + [EntryFromStats(File, p, fs', fs.names[source])])
            && (StatesCurrent(fs, log) ==> StatesCurrent(fs', log + [EntryFromStats(File, p, fs', fs.names[source])]))
  {
    var fs' := Link(fs, source, p);
    var log' := log + [EntryFromStats(File, p, fs', fs.names[source])];
    forall k | 0 <= k < |log'|
      ensures EntryOk(fs', log'[k])
      ensures StatesCurrent(fs, log) ==> StateCurrent(fs', log'[k])
    {
      if k < |log| {
        assert EntryOk(fs, log[k]);
        assert StatesCurrent(fs, log) ==> StateCurrent(fs, log[k]);
      }
    }
  }
}
