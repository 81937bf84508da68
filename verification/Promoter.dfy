/**
 The code of the promotion.  Any operation may fail, any `throwIfAborted` may abort, reads and writes may be
 short, and at every await other processes may change the file system, unless `alone` is set.
 Each method extends the run `ops` by the operations it performs.
 */
module Promoter {
  import opened Wrappers
  import opened LocalFs
  import opened Promotion
  import opened PromotionRun

  /** `later` continues `earlier` with operations on `rel` and on what lies below it. */
  predicate Continues(earlier: seq<Op>, later: seq<Op>, rel: Path) {
    && earlier <= later
    && forall k :: |earlier| <= k < |later| && HasRel(later[k]) ==> rel <= later[k].rel
  }

  class FolderPromotion {
    const job: Job
    /** No other process touches the file system. */
    const alone: bool
    /** No call fails and nothing is aborted; reads and writes may be short all the same. */
    const faultless: bool
    var fs: Fs
    var log: seq<Entry>
    ghost var ops: seq<Op>
    ghost var world: World

    ghost predicate OnRecord()
      reads this
    {
      && WellFormed(job.start)
      && Legal(job, ops) && Exec(job, ops) == world && world.fs == fs && world.log == log
      && fs.maxDepth == job.start.maxDepth && fs.maxSize == job.start.maxSize
    }

    ghost predicate Valid()
      reads this
    {
      OnRecord() && (Undisturbable() ==> Undisturbed(job, ops))
    }

    predicate Undisturbable() {
      alone && JobOk(job)
    }

    ghost predicate Idle()
      reads this
    {
      Valid() && world.inflight.None? && !world.stale && world.orphan.None?
    }

    /** Nothing can keep the promotion from succeeding. */
    ghost predicate Smooth() {
      faultless && alone && Passable(job)
    }

    /** In a smooth promotion it is the turn of `rel`, which is not done yet, after its parent. */
    ghost predicate Due(rel: Path)
      reads this
    {
      Smooth() ==>
        && Untouched(world, rel) && job.source + rel in job.start.names
        && (rel != [] ==> Parent(rel) in world.done)
    }

    constructor (start: Fs, source: Path, destination: Path, alone: bool, faultless: bool)
      requires WellFormed(start)
      ensures Idle() && ops == [] && job == Job(source, destination, start)
      ensures this.alone == alone && this.faultless == faultless
    {
      this.faultless := faultless;
      this.job, this.alone := Job(source, destination, start), alone;
      fs, log, ops, world := start, [], [], World(start, [], None, {}, false, None);
    }

    ghost method Note(op: Op)
      requires Legal(job, ops) && Exec(job, ops) == world && CanApply(job, world, op)
      modifies this`ops, this`world
      ensures ops == old(ops) + [op] && world == Apply(job, old(world), op)
      ensures Legal(job, ops) && Exec(job, ops) == world
      ensures Undisturbed(job, old(ops)) && Faithful(job, old(world), op) ==> Undisturbed(job, ops)
    {
      ExecAppend(job, ops, op);
      assert (ops + [op])[..|ops|] == ops;
      world := Apply(job, world, op);
      ops := ops + [op];
    }

    /** Other processes may run here. */
    method Await(ghost rel: Path)
      requires OnRecord()
      modifies this
      ensures OnRecord() && (old(Valid()) ==> Valid())
      ensures forall k :: |old(ops)| <= k < |ops| ==> ops[k].OtherProcess?
      ensures Continues(old(ops), ops, rel) && log == old(log)
      ensures world.inflight == old(world).inflight && world.done == old(world).done && world.stale == old(world).stale
      ensures world.orphan == old(world).orphan
      ensures old(fs).inodes.Keys <= fs.inodes.Keys
      ensures alone ==> fs == old(fs) && ops == old(ops)
    {
      var next: Fs := *;
      if !alone && ThirdParty(fs, next) {
        Note(OtherProcess(next));
        fs := next;
      }
    }

    /** mkdir, looked at and logged in the same synchronous stretch; the look may throw. */
    method Mkdir(rel: Path) returns (ok: bool)
      requires Idle() && (Undisturbable() ==> IsDir(job.start, job.source + rel))
      modifies this
      ensures Valid() && Continues(old(ops), ops, rel)
      ensures ok ==> Idle() && world.done == old(world).done + {rel} && |job.destination + rel| <= fs.maxDepth
      ensures ok && alone ==> ops == old(ops) + [PromotionRun.Mkdir(rel)]
      ensures alone && !CanCreate(old(fs), job.destination + rel) ==> !ok && ops == old(ops)
      ensures faultless && alone && CanCreate(old(fs), job.destination + rel) ==> ok
    {
      Await(rel);
      var fault: bool := *;
      fault := fault && !faultless;
      if fault || !CanCreate(fs, job.destination + rel) {
        return false;
      }
      var lookThrows: bool := *;
      if lookThrows && !faultless {
        CreateOnly(rel, Directory);
        return false;
      }
      MkdirNow(rel);
      return true;
    }

    /** Something is made at the destination and never makes it into the log. */
    method CreateOnly(rel: Path, kind: Kind)
      requires Idle() && CanCreate(fs, job.destination + rel) && (kind.Directory? || kind.File?)
      requires Undisturbable() ==> if kind.File? then IsFile(job.start, job.source + rel)
                                   else IsDir(job.start, job.source + rel)
      modifies this
      ensures Valid() && ops == old(ops) + [CreateUnlogged(rel, kind)] && log == old(log)
    {
      Note(CreateUnlogged(rel, kind));
      fs := Create(fs, job.destination + rel, kind);
    }

    method MkdirNow(rel: Path)
      requires Idle() && CanCreate(fs, job.destination + rel)
      requires Undisturbable() ==> IsDir(job.start, job.source + rel)
      modifies this
      ensures Idle() && ops == old(ops) + [PromotionRun.Mkdir(rel)]
      ensures world.done == old(world).done + {rel}
    {
      Note(PromotionRun.Mkdir(rel));
      ClaimPath(rel, Directory);
    }

    /** The file system's and the log's side of a claim that has been noted. */
    method ClaimPath(rel: Path, kind: Kind)
      requires CanCreate(fs, job.destination + rel)
      modifies this`fs, this`log
      ensures fs == Create(old(fs), job.destination + rel, kind)
      ensures log == old(log) + [EntryFromStats(kind, job.destination + rel, fs, old(fs).nextIno)]
    {
      var ino := fs.nextIno;
      fs := Create(fs, job.destination + rel, kind);
      log := log + [EntryFromStats(kind, job.destination + rel, fs, ino)];
    }

    method PutBytes(rel: Path, ino: nat, at: nat, data: seq<byte>)
      requires Valid() && world.inflight == Some(Inflight(rel, ino)) && ino in fs.inodes && world.orphan.None?
      requires at + |data| <= fs.maxSize
      modifies this
      ensures Valid() && ops == old(ops) + [Write(rel, at, data)] && log == old(log)
      ensures fs == WriteAt(old(fs), ino, at, data)
      ensures world == old(world).(fs := fs, stale := true)
    {
      Note(Write(rel, at, data));
      fs := WriteAt(fs, ino, at, data);
    }

    /** One write system call, which takes a first part of `data`; `n` is 0 when it fails or is aborted. */
    method WriteSome(rel: Path, ino: nat, at: nat, data: seq<byte>) returns (n: nat)
      requires Valid() && world.inflight == Some(Inflight(rel, ino)) && ino in fs.inodes && world.orphan.None?
      requires at + |data| <= fs.maxSize && data != []
      requires alone ==> |fs.inodes[ino].bytes| == at
      modifies this
      ensures Valid() && Continues(old(ops), ops, rel) && n <= |data| && log == old(log)
      ensures world.inflight == old(world).inflight && world.done == old(world).done && world.orphan.None?
      ensures old(fs).inodes.Keys <= fs.inodes.Keys
      ensures ino in fs.inodes
      ensures alone ==> OnlyInode(old(fs), fs, ino) && fs.inodes[ino].bytes == old(fs).inodes[ino].bytes + data[..n]
      ensures faultless ==> n > 0
    {
      Await(rel);
      var taken: int := *;
      n := if 1 <= taken <= |data| then taken else if faultless then 1 else 0;
      if n > 0 {
        if alone {
          WriteAppends(fs, ino, data[..n]);
        }
        PutBytes(rel, ino, at, data[..n]);
      } else {
        assert fs.inodes[ino].bytes + data[..n] == fs.inodes[ino].bytes;
      }
    }

    ghost predicate Copying(rel: Path, ino: nat)
      reads this
    {
      Valid() && world.inflight == Some(Inflight(rel, ino)) && ino in fs.inodes && world.orphan.None?
    }

    /** Writes one chunk at `position`, in as many short writes as it takes. */
    method WriteChunk(rel: Path, ino: nat, position: nat, chunk: seq<byte>) returns (ok: bool)
      requires Copying(rel, ino) && position + |chunk| <= fs.maxSize
      requires alone ==> |fs.inodes[ino].bytes| == position
      modifies this
      ensures Copying(rel, ino) && Continues(old(ops), ops, rel) && log == old(log) && world.done == old(world).done
      ensures old(fs).inodes.Keys <= fs.inodes.Keys
      ensures alone ==> OnlyInode(old(fs), fs, ino)
      ensures alone && ok ==> fs.inodes[ino].bytes == old(fs).inodes[ino].bytes + chunk
      ensures faultless ==> ok
    {
      var written := 0;
      ghost var bytes := fs.inodes[ino].bytes;
      while written < |chunk|
        invariant written <= |chunk|
        invariant Copying(rel, ino) && Continues(old(ops), ops, rel) && log == old(log) && world.done == old(world).done
        invariant old(fs).inodes.Keys <= fs.inodes.Keys
        invariant alone ==> OnlyInode(old(fs), fs, ino)
        invariant alone ==> fs.inodes[ino].bytes == bytes + chunk[..written]
      {
        var n := WriteSome(rel, ino, position + written, chunk[written..]);
        if n == 0 {
          return false;
        }
        PartByPart(bytes, chunk, written, n);
        written := written + n;
      }
      assert chunk[..written] == chunk;
      return true;
    }

    /** Copies the open source file into the open destination file, in short reads and short writes. */
    method CopyBytes(rel: Path, sourceIno: nat, ino: nat) returns (ok: bool)
      requires Copying(rel, ino) && sourceIno in fs.inodes && sourceIno != ino
      requires alone ==> fs.inodes[ino].bytes == []
      modifies this
      ensures Copying(rel, ino) && Continues(old(ops), ops, rel) && log == old(log) && world.done == old(world).done
      ensures alone ==> OnlyInode(old(fs), fs, ino)
      ensures alone && ok ==> fs.inodes[ino].bytes == old(fs).inodes[sourceIno].bytes
      ensures faultless && alone && old(fs).inodes[sourceIno].kind.File? ==> ok
    {
      var position := 0;
      while true
        invariant Copying(rel, ino) && Continues(old(ops), ops, rel) && log == old(log) && world.done == old(world).done
        invariant position <= job.start.maxSize && sourceIno in fs.inodes
        invariant alone ==> OnlyInode(old(fs), fs, ino)
        invariant alone ==> position <= |old(fs).inodes[sourceIno].bytes|
                            && fs.inodes[ino].bytes == old(fs).inodes[sourceIno].bytes[..position]
        decreases job.start.maxSize - position
      {
        var readable, chunk := ReadSome(rel, sourceIno, position);
        if !readable {
          return false;
        }
        if chunk == [] {
          return true;
        }
        var written := WriteChunk(rel, ino, position, chunk);
        if !written {
          return false;
        }
        position := position + |chunk|;
      }
    }

    /** One read system call: some bytes from `position` on, none at or past the end of the file. */
    method ReadSome(ghost rel: Path, ino: nat, position: nat) returns (ok: bool, chunk: seq<byte>)
      requires Valid() && ino in fs.inodes
      modifies this
      ensures Valid() && Continues(old(ops), ops, rel) && log == old(log)
      ensures world.inflight == old(world).inflight && world.done == old(world).done
      ensures world.orphan == old(world).orphan
      ensures old(fs).inodes.Keys <= fs.inodes.Keys
      ensures alone ==> fs == old(fs) && ops == old(ops)
      ensures ok && position >= |fs.inodes[ino].bytes| ==> chunk == []
      ensures ok && position < |fs.inodes[ino].bytes| ==>
                chunk != [] && position + |chunk| <= |fs.inodes[ino].bytes| <= fs.maxSize
                && chunk == fs.inodes[ino].bytes[position..position + |chunk|]
      ensures faultless && fs.inodes[ino].kind.File? ==> ok
    {
      Await(rel);
      var failsOrAborts: bool := *;
      failsOrAborts := failsOrAborts && !faultless;
      if failsOrAborts || !fs.inodes[ino].kind.File? {
        return false, [];
      }
      LegalWorldOk(job, ops);
      var bytes := fs.inodes[ino].bytes;
      if position >= |bytes| {
        return true, [];
      }
      var n: nat := *;
      n := if 1 <= n <= |bytes| - position then n else 1;
      return true, bytes[position..position + n];
    }

    /** Opens the source file for reading. */
    method OpenSource(rel: Path) returns (ok: bool, ino: nat)
      requires Idle()
      modifies this
      ensures Idle() && Continues(old(ops), ops, rel) && log == old(log) && world.done == old(world).done
      ensures alone ==> fs == old(fs) && ops == old(ops)
      ensures ok ==> ino in fs.inodes
      ensures ok && Undisturbable() ==>
                job.source + rel in job.start.names && job.start.names[job.source + rel] == ino
      ensures faultless && alone && job.source + rel in old(fs).names ==> ok
      ensures ok && alone ==> job.source + rel in fs.names && fs.names[job.source + rel] == ino
    {
      Await(rel);
      var fault: bool := *;
      fault := fault && !faultless;
      if fault || job.source + rel !in fs.names {
        return false, 0;
      }
      if Undisturbable() {
        SourceNameKept(job, ops, rel);
      }
      LegalWorldOk(job, ops);
      return true, fs.names[job.source + rel];
    }

    /** Claims a destination file by an exclusive open, looks at it and logs it; the look may throw. */
    method OpenDestination(rel: Path) returns (ok: bool, ino: nat)
      requires Idle() && (Undisturbable() ==> IsFile(job.start, job.source + rel))
      modifies this
      ensures Continues(old(ops), ops, rel) && world.done == old(world).done
      ensures Valid() && (!ok ==> log == old(log))
      ensures ok ==> Copying(rel, ino) && ino !in old(fs).inodes && fs.inodes[ino].bytes == []
      ensures old(fs).inodes.Keys <= fs.inodes.Keys
      ensures ok ==> LastEntryIs(log, job.destination + rel, ino)
      ensures faultless && alone && CanCreate(old(fs), job.destination + rel) ==> ok
      ensures ok && alone ==>
                CanCreate(old(fs), job.destination + rel) && fs == Create(old(fs), job.destination + rel, File)
    {
      LegalWorldOk(job, ops);
      Await(rel);
      LegalWorldOk(job, ops);
      var fault: bool := *;
      fault := fault && !faultless;
      if fault || !CanCreate(fs, job.destination + rel) {
        return false, 0;
      }
      var lookThrows: bool := *;
      if lookThrows && !faultless {
        CreateOnly(rel, File);
        return false, 0;
      }
      ino := OpenNow(rel);
      return true, ino;
    }

    method OpenNow(rel: Path) returns (ino: nat)
      requires Idle() && CanCreate(fs, job.destination + rel)
      requires Undisturbable() ==> IsFile(job.start, job.source + rel)
      modifies this
      ensures Copying(rel, ino) && ops == old(ops) + [OpenExclusive(rel)] && ino == old(fs).nextIno
      ensures world.done == old(world).done && fs == Create(old(fs), job.destination + rel, File)
      ensures LastEntryIs(log, job.destination + rel, ino)
    {
      ino := fs.nextIno;
      Note(OpenExclusive(rel));
      ClaimPath(rel, File);
    }

    /** The log takes over the state of the written file, unless reading that state fails. */
    method TakeState(rel: Path, ino: nat, complete: bool) returns (ok: bool)
      requires Copying(rel, ino) && LastEntryIs(log, job.destination + rel, ino)
      requires complete && Undisturbable() ==> Faithful(job, world, Restat(rel, true))
      modifies this
      ensures Valid() && Continues(old(ops), ops, rel)
      ensures ok && complete ==> Idle() && world.done == old(world).done + {rel}
      ensures !(ok && complete) ==> Copying(rel, ino) && LastEntryIs(log, job.destination + rel, ino)
      ensures (faultless ==> ok) && (alone ==> fs == old(fs))
    {
      Await(rel);
      ok := *;
      ok := ok || faultless;
      if ok {
        RestatNow(rel, ino, complete);
      }
    }

    method RestatNow(rel: Path, ino: nat, complete: bool)
      requires Copying(rel, ino) && LastEntryIs(log, job.destination + rel, ino)
      requires complete && Undisturbable() ==> Faithful(job, world, Restat(rel, true))
      modifies this
      ensures Valid() && ops == old(ops) + [Restat(rel, complete)]
      ensures complete ==> Idle() && world.done == old(world).done + {rel}
      ensures !complete ==> Copying(rel, ino) && LastEntryIs(log, job.destination + rel, ino)
      ensures fs == old(fs)
    {
      Note(Restat(rel, complete));
      log := log[..|log| - 1] + [EntryFromStats(File, job.destination + rel, fs, ino)];
    }

    /** Removes a published file from the source folder. */
    method RemoveSource(rel: Path) returns (ok: bool)
      requires Idle() && rel in world.done
      modifies this
      ensures Idle() && Continues(old(ops), ops, rel) && world.done == old(world).done
      ensures ok ==> ops != [] && ops[|ops| - 1] == UnlinkSource(rel)
      ensures faultless && alone && IsFile(old(fs), job.source + rel) ==> ok
    {
      Await(rel);
      var failsOrAborts: bool := *;
      failsOrAborts := failsOrAborts && !faultless;
      ok := !failsOrAborts && IsFile(fs, job.source + rel);
      if ok {
        Note(UnlinkSource(rel));
        fs := Remove(fs, job.source + rel);
      }
    }

    /** Publishes a file by copying it. */
    method CopyFile(rel: Path) returns (ok: bool)
      requires Idle() && (Undisturbable() ==> IsFile(job.start, job.source + rel))
      requires Smooth() ==> CanCreate(fs, job.destination + rel) && IsFile(fs, job.source + rel)
      modifies this
      ensures Valid() && Continues(old(ops), ops, rel)
      ensures ok ==> Idle() && world.done == old(world).done + {rel} && UnlinkSource(rel) in ops
      ensures Smooth() ==> ok
    {
      var readable, sourceIno := OpenSource(rel);
      if !readable {
        return false;
      }
      var claimed, ino := OpenDestination(rel);
      if !claimed {
        return false;
      }
      ok := CopyAndSettle(rel, sourceIno, ino);
      if ok {
        ok := RemoveSource(rel);
      }
    }

    /** Fills the claimed file and takes its state over into the log, also when the copying has failed. */
    method CopyAndSettle(rel: Path, sourceIno: nat, ino: nat) returns (copied: bool)
      requires Copying(rel, ino) && sourceIno in fs.inodes && sourceIno != ino && fs.inodes[ino].bytes == []
      requires LastEntryIs(log, job.destination + rel, ino)
      requires Undisturbable() ==> IsFile(job.start, job.source + rel)
      requires Undisturbable() ==>
                 job.source + rel in job.start.names && job.start.names[job.source + rel] == sourceIno
      modifies this
      ensures Valid() && Continues(old(ops), ops, rel)
      ensures copied ==> Idle() && world.done == old(world).done + {rel}
      ensures alone ==> OnlyInode(old(fs), fs, ino)
      ensures faultless && alone && old(fs).inodes[sourceIno].kind.File? ==> copied
    {
      copied := CopyBytes(rel, sourceIno, ino);
      if copied {
        if Undisturbable() {
          FullCopyIsFaithful(job, ops, rel, ino);
        }
        copied := TakeState(rel, ino, true);
      }
      if !copied {
        var taken := TakeState(rel, ino, false);
      }
    }

    /** Publishes a file by a hard link where the file system allows it, by copying it otherwise. */
    method PublishFile(rel: Path) returns (ok: bool)
      requires Idle() && Due(rel) && (Undisturbable() ==> IsFile(job.start, job.source + rel))
      modifies this
      ensures Valid() && Continues(old(ops), ops, rel)
      ensures ok ==> Idle() && world.done == old(world).done + {rel} && UnlinkSource(rel) in ops
      ensures Smooth() ==> ok
    {
      if Smooth() {
        ReadyToPublish(job, ops, rel);
        SourceStillThere(job, ops, rel);
      }
      Await(rel);
      var fault: bool := *;
      fault := fault && !faultless;
      if fault || job.source + rel !in fs.names {
        return false;
      }
      Await(rel);
      if job.destination + rel in fs.names {
        return false;
      }
      ok := LinkOrCopy(rel);
    }

    method LinkOrCopy(rel: Path) returns (ok: bool)
      requires Idle() && (Undisturbable() ==> IsFile(job.start, job.source + rel))
      requires Smooth() ==> CanCreate(fs, job.destination + rel) && IsFile(fs, job.source + rel)
      modifies this
      ensures Valid() && Continues(old(ops), ops, rel)
      ensures ok ==> Idle() && world.done == old(world).done + {rel} && UnlinkSource(rel) in ops
      ensures Smooth() ==> ok
    {
      var linkable: bool := *;
      if !linkable || !CanCreate(fs, job.destination + rel) || !IsFile(fs, job.source + rel) {
        ok := CopyFile(rel);
        return;
      }
      LinkNow(rel);
      ok := RemoveSource(rel);
    }

    /** The hard link and its log entry, in one synchronous stretch. */
    method LinkNow(rel: Path)
      requires Idle() && CanCreate(fs, job.destination + rel) && IsFile(fs, job.source + rel)
      modifies this
      ensures Idle() && ops == old(ops) + [LinkFile(rel)]
      ensures world.done == old(world).done + {rel}
      ensures fs == Link(old(fs), job.source + rel, job.destination + rel)
    {
      Note(LinkFile(rel));
      var ino := fs.names[job.source + rel];
      fs := Link(fs, job.source + rel, job.destination + rel);
      log := log + [EntryFromStats(File, job.destination + rel, fs, ino)];
    }

    /** readdir with file types. */
    method ReadDirectory(rel: Path) returns (ok: bool, entries: map<string, Kind>)
      requires Idle() && (Undisturbable() ==> NoUnlinkBelow(ops, rel))
      modifies this
      ensures Idle() && Continues(old(ops), ops, rel) && world.done == old(world).done
      ensures Undisturbable() ==> ops == old(ops)
      ensures ok && Undisturbable() ==> Lists(job, entries, rel)
      ensures faultless ==> ok
    {
      Await(rel);
      ok := *;
      ok := ok || faultless;
      entries := map[];
      if ok {
        var names := Children(fs, job.source + rel);
        entries := map c | c in names :: KindAt(fs, job.source + (rel + [c]));
        if Undisturbable() {
          ListingMatches(job, ops, rel);
          ChildrenByName(job.start, job.source, rel);
        }
      }
    }

    /** Publishes the directory `rel` and everything in it, in whatever order the entries are sorted. */
    method PublishDirectory(rel: Path) returns (ok: bool)
      requires Idle() && (Undisturbable() ==> IsDir(job.start, job.source + rel) && NoUnlinkBelow(ops, rel))
      requires Due(rel)
      modifies this
      ensures Valid() && Continues(old(ops), ops, rel)
      ensures ok ==> Idle() && old(world).done <= world.done
      ensures ok && Undisturbable() ==> Delivered(job, world, rel) && Emptied(job, ops, rel)
      ensures alone && job.destination + rel in old(fs).names ==> !ok && ops == old(ops)
      ensures Smooth() ==> ok
      decreases job.start.maxDepth + 1 - |job.destination + rel|, 1
    {
      if Smooth() {
        ReadyToPublish(job, ops, rel);
      }
      var made := Mkdir(rel);
      if !made {
        return false;
      }
      ok := PublishContents(rel);
    }

    method PublishContents(rel: Path) returns (ok: bool)
      requires Idle() && rel in world.done && |job.destination + rel| <= job.start.maxDepth
      requires Undisturbable() ==> IsDir(job.start, job.source + rel) && NoUnlinkBelow(ops, rel)
      requires Smooth() ==> forall c: string :: Untouched(world, rel + [c])
      modifies this
      ensures Valid() && Continues(old(ops), ops, rel)
      ensures ok ==> Idle() && old(world).done <= world.done
      ensures ok && Undisturbable() ==> Delivered(job, world, rel) && Emptied(job, ops, rel)
      ensures Smooth() ==> ok
      decreases job.start.maxDepth + 1 - |job.destination + rel|, 0, 2
    {
      var listed, entries := ReadDirectory(rel);
      if !listed {
        return false;
      }
      ok := PublishEntries(rel, entries);
      if ok && Undisturbable() {
        ChildrenDelivered(job, world, rel);
        ChildrenEmptied(job, ops, rel);
      }
    }

    method PublishEntries(rel: Path, entries: map<string, Kind>) returns (ok: bool)
      requires Idle() && |job.destination + rel| <= job.start.maxDepth
      requires Undisturbable() ==> Lists(job, entries, rel)
      requires Smooth() ==> rel in world.done && forall c | c in entries :: Untouched(world, rel + [c])
      requires Undisturbable() ==> forall c | c in entries :: NoUnlinkBelow(ops, rel + [c])
      modifies this
      ensures Valid() && Continues(old(ops), ops, rel)
      ensures ok ==> Idle() && old(world).done <= world.done
      ensures ok && Undisturbable() ==> forall c | c in entries :: Delivered(job, world, rel + [c])
      ensures ok && Undisturbable() ==> forall c | c in entries :: Emptied(job, ops, rel + [c])
      ensures Smooth() ==> ok
      decreases job.start.maxDepth + 1 - |job.destination + rel|, 0, 1
    {
      var remaining := entries.Keys;
      while remaining != {}
        invariant Idle() && Continues(old(ops), ops, rel) && old(world).done <= world.done
        invariant remaining <= entries.Keys
        invariant Undisturbable() ==> forall c | c in entries.Keys - remaining :: Delivered(job, world, rel + [c])
        invariant Undisturbable() ==> forall c | c in entries.Keys - remaining :: Emptied(job, ops, rel + [c])
        invariant Undisturbable() ==> forall c | c in remaining :: NoUnlinkBelow(ops, rel + [c])
        invariant Smooth() ==> forall c | c in remaining :: Untouched(world, rel + [c])
        decreases |remaining|
      {
        var name :| name in remaining;
        assert Parent(rel + [name]) == rel;
        ghost var before, doneBefore := ops, world;
        var published := PublishEntry(rel, name, entries[name]);
        ContinuesUp(old(ops), before, ops, rel, name);
        if !published {
          return false;
        }
        remaining := remaining - {name};
        if Smooth() {
          SiblingsUntouched(job, before, ops, rel, name, remaining);
        }
        if Undisturbable() {
          SiblingsStay(before, ops, rel, name, remaining);
          forall c | c in entries.Keys - remaining
            ensures Delivered(job, world, rel + [c]) && Emptied(job, ops, rel + [c])
          {
            if c != name {
              DeliveredKept(job, doneBefore, world, rel + [c]);
              EmptiedKept(job, before, ops, rel + [c]);
            }
          }
        }
      }
      return true;
    }

    method PublishEntry(rel: Path, name: string, kind: Kind) returns (ok: bool)
      requires Idle() && |job.destination + rel| <= job.start.maxDepth && Due(rel + [name])
      requires Undisturbable() ==> kind == KindAt(job.start, job.source + (rel + [name]))
                                   && job.source + (rel + [name]) in job.start.names
                                   && NoUnlinkBelow(ops, rel + [name])
      modifies this
      ensures Valid() && Continues(old(ops), ops, rel + [name])
      ensures ok ==> Idle() && old(world).done <= world.done
      ensures ok && Undisturbable() ==> Delivered(job, world, rel + [name]) && Emptied(job, ops, rel + [name])
      ensures Smooth() ==> ok
      decreases job.start.maxDepth + 1 - |job.destination + rel|, 0, 0
    {
      var aborted: bool := *;
      aborted := aborted && !faultless;
      if aborted || kind.Other? {
        return false;
      }
      if kind.Directory? {
        ok := PublishDirectory(rel + [name]);
      } else {
        ok := PublishFile(rel + [name]);
        if ok && Undisturbable() {
          FileDelivered(job, world, rel + [name]);
          FileEmptied(job, ops, rel + [name]);
        }
      }
      aborted := *;
      aborted := aborted && !faultless;
      ok := ok && !aborted;
    }

    /** Undoes the log in reverse; `faulted` reports whether any of its own file operations failed. */
    method Rollback() returns (faulted: bool)
      requires OnRecord()
      modifies this
      ensures OnRecord() && log == old(log) && old(ops) <= ops
      ensures forall k :: |old(ops)| <= k < |ops| ==> ops[k].Withdraw? || ops[k].OtherProcess?
      ensures alone && (!faulted || log == []) ==> fs == RollbackAll(old(fs), log)
      ensures faultless ==> !faulted
    {
      faulted := false;
      var k: nat := |log|;
      assert log[..k] == log;
      while k > 0
        invariant k <= |log| && OnRecord() && log == old(log) && old(ops) <= ops
        invariant forall j :: |old(ops)| <= j < |ops| ==> ops[j].Withdraw? || ops[j].OtherProcess?
        invariant faulted ==> log != [] && !faultless
        invariant alone && !faulted ==> RollbackAll(old(fs), log) == RollbackAll(fs, log[..k])
      {
        RollbackStep(fs, log, k);
        k := k - 1;
        var fault := WithdrawEntry(log[k]);
        faulted := faulted || fault;
      }
    }

    /** One turn of the rollback loop; the look at the path and the removal are one step. */
    method WithdrawEntry(entry: Entry) returns (fault: bool)
      requires OnRecord() && entry in log
      modifies this
      ensures OnRecord() && log == old(log) && old(ops) <= ops
      ensures forall k :: |old(ops)| <= k < |ops| ==> ops[k].Withdraw? || ops[k].OtherProcess?
      ensures alone && !fault ==> fs == RollbackEntry(old(fs), entry)
      ensures faultless ==> !fault
    {
      Await([]);
      fault := *;
      fault := fault && !faultless;
      if fault || entry.path !in fs.names || fs.names[entry.path] !in fs.inodes {
        return;
      }
      var current := StatsOf(fs, fs.names[entry.path]);
      if !HasSameIdentity(current, entry) {
        return;
      }
      if entry.kind.File? {
        if HasSameFileState(current, entry) {
          Note(Withdraw(entry));
          fs := Remove(fs, entry.path);
        }
      } else if IsDir(fs, entry.path) && !HasChildren(fs, entry.path) {
        Note(Withdraw(entry));
        fs := Remove(fs, entry.path);
      }
    }

    /**
     The whole promotion.  `published` is the run up to the rollback.  Left alone, success means an exact copy,
     a source without files and an untouched rest; failure with a working rollback restores every name outside the
     source folder exactly when everything created was logged and the state of a partly written file could be read
     back, and loses exactly the files already unlinked from the source; an existing destination is refused
     untouched; and with nothing in its way and no failing call it succeeds.  Whoever else is around, the rollback
     performs nothing but withdrawals of logged entries.
     */
    method Promote() returns (ok: bool, faulted: bool, ghost published: seq<Op>)
      requires Idle() && ops == []
      modifies this
      ensures OnRecord() && published <= ops
      ensures forall k :: |published| <= k < |ops| ==> ops[k].Withdraw? || ops[k].OtherProcess?
      ensures Legal(job, published) && (Undisturbable() ==> Undisturbed(job, published))
      ensures ok && Undisturbable() ==>
                (forall r: Path :: job.destination + r in fs.names <==> job.source + r in job.start.names)
                && (forall r: Path :: job.source + r in job.start.names ==>
                      SameContents(job.start, job.source + r, fs, job.destination + r))
                && OutsideSame(job.start, fs, job.source, job.destination)
                && (forall r: Path :: IsFile(job.start, job.source + r) ==> job.source + r !in fs.names)
      ensures !ok && !faulted && Undisturbable() && !job.start.identities.Unavailable? ==>
                (Restored(job, fs) <==> !Exec(job, published).stale && Exec(job, published).orphan.None?)
      ensures !ok && !faulted && Undisturbable() && !job.start.identities.Unavailable? ==>
                forall r: Path :: IsFile(job.start, job.source + r) ==>
                  (job.source + r !in fs.names && job.destination + r !in fs.names <==> UnlinkSource(r) in published)
      ensures alone && job.destination in job.start.names ==> !ok && fs == job.start
      ensures (Smooth() ==> ok) && (faultless ==> !faulted)
    {
      published, faulted := ops, false;
      var aborted: bool := *;
      aborted := aborted && !faultless;
      if aborted {
        return false, false, ops;
      }
      assert job.source + [] == job.source && job.destination + [] == job.destination;
      ok := PublishDirectory([]);
      published := ops;
      if ok {
        if Undisturbable() {
          DeliveredIsExactCopy(job, ops);
          EmptiedIsGone(job, ops);
        }
      } else {
        if Undisturbable() && !job.start.identities.Unavailable? {
          RollbackRestoresIff(job, ops);
          RollbackLosesFiles(job, ops);
        }
        faulted := Rollback();
      }
    }
  }

  function KindAt(fs: Fs, p: Path): Kind {
    if p in fs.names && fs.names[p] in fs.inodes then fs.inodes[fs.names[p]].kind else Other
  }

  /** `entries` are the entries of a directory of the source folder as it was at the start. */
  predicate Lists(job: Job, entries: map<string, Kind>, rel: Path) {
    && entries.Keys == Children(job.start, job.source + rel)
    && forall c | c in entries :: entries[c] == KindAt(job.start, job.source + (rel + [c]))
                                  && job.source + (rel + [c]) in job.start.names
  }

  predicate LastEntryIs(log: seq<Entry>, path: Path, ino: nat) {
    log != [] && log[|log| - 1].kind.File? && log[|log| - 1].path == path && log[|log| - 1].ino == ino
  }

  /** The two differ at most in the contents of `ino`. */
  predicate OnlyInode(fs: Fs, fs': Fs, ino: nat) {
    && fs'.names == fs.names && fs'.inodes.Keys == fs.inodes.Keys
    && forall i | i in fs.inodes && i != ino :: fs'.inodes[i] == fs.inodes[i]
  }

  lemma WriteAppends(fs: Fs, ino: nat, data: seq<byte>)
    requires ino in fs.inodes
    ensures WriteAt(fs, ino, |fs.inodes[ino].bytes|, data).inodes[ino].bytes == fs.inodes[ino].bytes + data
  {
    var bytes := fs.inodes[ino].bytes;
    assert bytes[..|bytes|] == bytes;
  }

  lemma RollbackStep(fs: Fs, log: seq<Entry>, k: nat)
    requires 0 < k <= |log|
    ensures RollbackAll(fs, log[..k]) == RollbackAll(RollbackEntry(fs, log[k - 1]), log[..k - 1])
  {
    assert log[..k][..k - 1] == log[..k - 1];
  }

  lemma PartByPart(bytes: seq<byte>, chunk: seq<byte>, written: nat, n: nat)
    requires written + n <= |chunk|
    ensures bytes + chunk[..written] + chunk[written..][..n] == bytes + chunk[..written + n]
  {
    assert chunk[..written] + chunk[written..][..n] == chunk[..written + n];
  }

  lemma ContinuesUp(earliest: seq<Op>, earlier: seq<Op>, later: seq<Op>, rel: Path, name: string)
    requires Continues(earliest, earlier, rel) && Continues(earlier, later, rel + [name])
    ensures Continues(earliest, later, rel)
  {
  }

  /** Work on one entry unlinks nothing below its siblings. */
  lemma SiblingsStay(earlier: seq<Op>, later: seq<Op>, rel: Path, name: string, siblings: set<string>)
    requires Continues(earlier, later, rel + [name]) && name !in siblings
    requires forall c | c in siblings :: NoUnlinkBelow(earlier, rel + [c])
    ensures forall c | c in siblings :: NoUnlinkBelow(later, rel + [c])
  {
    forall c, k | c in siblings && 0 <= k < |later| && later[k].UnlinkSource? ensures !(rel + [c] <= later[k].rel) {
      if k < |earlier| {
        assert NoUnlinkBelow(earlier, rel + [c]) && earlier[k] == later[k];
      } else {
        assert rel + [name] <= later[k].rel;
        assert (rel + [name])[|rel|] == name && (rel + [c])[|rel|] == c;
      }
    }
  }

  lemma SamePathSameName(rel: Path, name: string, other: string, r: Path)
    requires rel + [name] <= r && rel + [other] <= r
    ensures name == other
  {
    assert (rel + [name])[|rel|] == r[|rel|] == (rel + [other])[|rel|];
  }

  /** Work on one entry completes nothing below its siblings. */
  lemma SiblingsUntouched(job: Job, earlier: seq<Op>, later: seq<Op>, rel: Path, name: string, siblings: set<string>)
    requires Legal(job, earlier) && Legal(job, later) && Continues(earlier, later, rel + [name]) && name !in siblings
    requires forall c | c in siblings :: Untouched(Exec(job, earlier), rel + [c])
    ensures forall c | c in siblings :: Untouched(Exec(job, later), rel + [c])
  {
    DoneBelow(job, earlier, later, rel + [name]);
    forall c, r | c in siblings && rel + [c] <= r ensures r !in Exec(job, later).done {
      assert Untouched(Exec(job, earlier), rel + [c]);
      if rel + [name] <= r {
        SamePathSameName(rel, name, c, r);
      }
    }
  }
}
