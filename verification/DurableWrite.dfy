/**
 Replacing a file so that neither a failure nor a crash at any moment can leave anything but the complete
 old contents or the complete new ones (src/main/durable-file-write.ts, and the credential writer of
 src/main/integration-credential-file.ts).

 The disk keeps what programs see and, beside it, what a crash may bring back: a file that was not synced
 may hold anything, and a name changed since its directory was last synced may have any earlier binding.
 */
module DurableWrite {
  import opened Wrappers

  type byte = x: int | 0 <= x < 256
  type Contents = seq<byte>

  datatype File = File(bytes: Contents, synced: bool)

  /** `earlier` holds, by name, the bindings since the last directory sync other than the present one. */
  datatype Disk = Disk(names: map<string, nat>, earlier: map<string, set<Option<nat>>>,
                       files: map<nat, File>, nextIno: nat)

  function Binding(d: Disk, name: string): Option<nat> {
    if name in d.names then Some(d.names[name]) else None
  }

  function Bindings(d: Disk, name: string): set<Option<nat>> {
    (if name in d.earlier then d.earlier[name] else {}) + {Binding(d, name)}
  }

  /** What a program reads at `name`. */
  function Read(d: Disk, name: string): Option<Contents> {
    if name in d.names && d.names[name] in d.files then Some(d.files[d.names[name]].bytes) else None
  }

  /** `c` is what may be read at `name` after a crash. */
  predicate AfterCrash(d: Disk, name: string, c: Option<Contents>) {
    exists b | b in Bindings(d, name) :: BindingReads(d, b, c)
  }

  predicate BindingReads(d: Disk, b: Option<nat>, c: Option<Contents>) {
    match b
    case None => c.None?
    case Some(ino) => c.Some? && (ino in d.files && d.files[ino].synced ==> c.value == d.files[ino].bytes)
  }

  // ---------------------------------------------------------------- operations

  function Rebound(d: Disk, name: string): Disk {
    d.(earlier := d.earlier[name := Bindings(d, name)])
  }

  /** open with the truncating flag: an existing file keeps its inode. */
  function OpenTruncate(d: Disk, name: string): Disk {
    if name in d.names then d.(files := d.files[d.names[name] := File([], false)])
    else Rebound(d, name).(names := d.names[name := d.nextIno], files := d.files[d.nextIno := File([], false)],
                           nextIno := d.nextIno + 1)
  }

  function Append(d: Disk, ino: nat, data: Contents): Disk
    requires ino in d.files
  {
    d.(files := d.files[ino := File(d.files[ino].bytes + data, false)])
  }

  function Fsync(d: Disk, ino: nat): Disk
    requires ino in d.files
  {
    d.(files := d.files[ino := d.files[ino].(synced := true)])
  }

  function Unlink(d: Disk, name: string): Disk {
    if name in d.names then Rebound(d, name).(names := d.names - {name}) else d
  }

  function Rename(d: Disk, from: string, to: string): Disk
    requires from in d.names && from != to
  {
    Rebound(Rebound(d, from), to).(names := (d.names - {from})[to := d.names[from]])
  }

  function SyncDirectory(d: Disk): Disk {
    d.(earlier := map[])
  }

  // ---------------------------------------------------------------- sound disks and crashes

  /** Whatever a name is or was bound to since the last directory sync is a file. */
  ghost predicate Sound(d: Disk) {
    && (forall n, b :: b in Bindings(d, n) && b.Some? ==> b.value in d.files)
    && (forall i | i in d.files :: i < d.nextIno)
  }

  lemma OpenTruncateIsSound(d: Disk, name: string)
    requires Sound(d)
    ensures Sound(OpenTruncate(d, name))
  {
    var d' := OpenTruncate(d, name);
    assert Binding(d, name) in Bindings(d, name);
    forall n, b | b in Bindings(d', n) && b.Some? ensures b.value in d'.files {
      assert b in Bindings(d, n) || b == Some(d.nextIno);
    }
  }

  lemma WritesAreSound(d: Disk, ino: nat, data: Contents)
    requires Sound(d) && ino in d.files
    ensures Sound(Append(d, ino, data)) && Sound(Fsync(d, ino))
  {
    assert forall n :: Bindings(Append(d, ino, data), n) == Bindings(d, n) == Bindings(Fsync(d, ino), n);
  }

  lemma UnlinkIsSound(d: Disk, name: string)
    requires Sound(d)
    ensures Sound(Unlink(d, name))
  {
    var d' := Unlink(d, name);
    forall n, b | b in Bindings(d', n) && b.Some? ensures b.value in d'.files {
      assert b in Bindings(d, n);
    }
  }

  lemma RenameIsSound(d: Disk, from: string, to: string)
    requires Sound(d) && from in d.names && from != to
    ensures Sound(Rename(d, from, to))
  {
    var d' := Rename(d, from, to);
    forall n, b | b in Bindings(d', n) && b.Some? ensures b.value in d'.files {
      assert b in Bindings(d, n) || b == Binding(d, from);
      assert Binding(d, from) in Bindings(d, from);
    }
  }

  lemma SyncDirectoryIsSound(d: Disk)
    requires Sound(d)
    ensures Sound(SyncDirectory(d))
  {
    forall n, b | b in Bindings(SyncDirectory(d), n) && b.Some? ensures b.value in d.files {
      assert b in Bindings(d, n);
    }
  }

  /** `d'` is what a crash may leave: each name with one of its bindings, each synced file as it was. */
  ghost predicate Crash(d: Disk, d': Disk) {
    && (forall n :: Binding(d', n) in Bindings(d, n))
    && d'.earlier == map[] && d'.nextIno == d.nextIno && d'.files.Keys == d.files.Keys
    && (forall i | i in d.files :: d'.files[i].synced && (d.files[i].synced ==> d'.files[i].bytes == d.files[i].bytes))
  }

  /** Of one name, a crash of the whole disk shows exactly what `AfterCrash` says. */
  lemma CrashShowsIff(d: Disk, name: string, c: Option<Contents>)
    requires Sound(d)
    ensures AfterCrash(d, name, c) <==> exists d' :: Crash(d, d') && Read(d', name) == c
  {
    if AfterCrash(d, name, c) {
      var d' := CrashTo(d, name, c);
    }
    if d' :| Crash(d, d') && Read(d', name) == c {
      assert Binding(d', name) in Bindings(d, name) && BindingReads(d, Binding(d', name), c);
    }
  }

  /** The present disk, with one name bound anew and everything synced. */
  function Rebind(d: Disk, name: string, b: Option<nat>, contents: Contents): Disk {
    Disk(if b.Some? then d.names[name := b.value] else d.names - {name}, map[],
         map i | i in d.files :: File(if d.files[i].synced || b != Some(i) then d.files[i].bytes else contents, true),
         d.nextIno)
  }

  lemma CrashTo(d: Disk, name: string, c: Option<Contents>) returns (d': Disk)
    requires Sound(d) && AfterCrash(d, name, c)
    ensures Crash(d, d') && Read(d', name) == c
  {
    var b :| b in Bindings(d, name) && BindingReads(d, b, c);
    d' := Rebind(d, name, b, if c.Some? then c.value else []);
    forall n ensures Binding(d', n) in Bindings(d, n) {
      assert n != name ==> Binding(d', n) == Binding(d, n);
    }
  }

  /** Opening a name for writing empties its file, or makes one; until it is synced a crash may leave anything there. */
  lemma OpenedMayHoldAnything(d: Disk, name: string, c: Contents)
    requires Sound(d)
    ensures var d' := OpenTruncate(d, name);
            && Read(d', name) == Some([]) && AfterCrash(d', name, Some(c))
            && (name in d.names ==> d'.names == d.names)
            && forall n | n in d.names && Binding(d, n) != Binding(d, name) ::
                 d'.names[n] == d.names[n] && d'.names[n] != d'.names[name] && Read(d', n) == Read(d, n)
  {
    var d' := OpenTruncate(d, name);
    assert BindingReads(d', Binding(d', name), Some(c));
    forall n | n in d.names ensures d.names[n] in d.files {
      assert Binding(d, n) in Bindings(d, n);
    }
  }

  /** What is written can be read at once, but after a crash anything may be there, until it is synced. */
  lemma WrittenMayHoldAnything(d: Disk, name: string, data: Contents, c: Contents)
    requires name in d.names && d.names[name] in d.files
    ensures var d' := Append(d, d.names[name], data);
            && Read(d', name) == Some(d.files[d.names[name]].bytes + data) && AfterCrash(d', name, Some(c))
    ensures var d' := Fsync(d, d.names[name]);
            && Read(d', name) == Read(d, name)
            && (BindingReads(d', Binding(d, name), Some(c)) <==> Read(d, name) == Some(c))
  {
    var d' := Append(d, d.names[name], data);
    assert BindingReads(d', Binding(d', name), Some(c));
  }

  /** A removed name is gone at once, but a crash may bring back whatever it could have brought back before. */
  lemma RemovedMayComeBack(d: Disk, name: string, c: Option<Contents>)
    ensures name !in Unlink(d, name).names && forall n | n != name :: Binding(Unlink(d, name), n) == Binding(d, n)
    ensures AfterCrash(Unlink(d, name), name, c) <==> AfterCrash(d, name, c) || c.None?
  {
    var d' := Unlink(d, name);
    assert Bindings(d', name) == Bindings(d, name) + {None};
    if AfterCrash(d, name, c) {
      var b :| b in Bindings(d, name) && BindingReads(d, b, c);
      assert b in Bindings(d', name) && BindingReads(d', b, c);
    }
    assert BindingReads(d', None, None);
    if AfterCrash(d', name, c) {
      var b :| b in Bindings(d', name) && BindingReads(d', b, c);
      assert BindingReads(d, b, c);
    }
  }

  // ---------------------------------------------------------------- the invariant of a replacement

  /** Whatever a crash binds `final` to is fully on disk. */
  ghost predicate OnDisk(d: Disk, final: string) {
    Sound(d) && forall b | b in Bindings(d, final) :: b.Some? ==> d.files[b.value].synced
  }

  /** And no write through `tmp` can touch it. */
  ghost predicate Ready(d: Disk, tmp: string, final: string) {
    && tmp != final && OnDisk(d, final)
    && forall b | b in Bindings(d, final) :: b.Some? ==> Binding(d, tmp) != b
  }

  /** `final` still has every binding it had in `d0`, and those files are as they were. */
  predicate FinalKept(d0: Disk, d: Disk, final: string) {
    && Binding(d, final) == Binding(d0, final) && Bindings(d, final) == Bindings(d0, final)
    && forall b | b in Bindings(d0, final) :: b.Some? && b.value in d0.files ==>
         b.value in d.files && d.files[b.value] == d0.files[b.value]
  }

  /** A crash can bring back no other name with a binding that it could not have come back with before. */
  ghost predicate OthersKept(d0: Disk, d: Disk, tmp: string, final: string) {
    forall n :: n != tmp && n != final ==> Bindings(d, n) <= Bindings(d0, n)
  }

  /** A replacement begun on `d0` has not got beyond its temporary file. */
  ghost predicate Kept(d0: Disk, d: Disk, tmp: string, final: string) {
    Ready(d0, tmp, final) && Ready(d, tmp, final) && FinalKept(d0, d, final) && OthersKept(d0, d, tmp, final)
  }

  /** A reader of `final`, now or after a crash, gets a complete old version or the complete payload. */
  ghost predicate OldOrNew(d0: Disk, d: Disk, final: string, payload: Contents) {
    && (Read(d, final) == Read(d0, final) || Read(d, final) == Some(payload))
    && forall c :: AfterCrash(d, final, c) ==> AfterCrash(d0, final, c) || c == Some(payload)
  }

  /** A replacement begun on `d0` may have got to `d`. */
  ghost predicate Reaches(d0: Disk, d: Disk, tmp: string, final: string, payload: Contents) {
    Ready(d, tmp, final) && OldOrNew(d0, d, final, payload) && OthersKept(d0, d, tmp, final)
  }

  /** Every state of the disk from `d0` on. */
  ghost predicate Trace(d0: Disk, states: seq<Disk>, tmp: string, final: string, payload: Contents) {
    && states != [] && states[0] == d0
    && forall k :: 0 <= k < |states| ==> Reaches(d0, states[k], tmp, final, payload)
  }

  lemma OpenKeeps(d0: Disk, d: Disk, tmp: string, final: string)
    requires Kept(d0, d, tmp, final)
    ensures Kept(d0, OpenTruncate(d, tmp), tmp, final)
  {
    OpenTruncateIsSound(d, tmp);
  }

  lemma WriteKeeps(d0: Disk, d: Disk, tmp: string, final: string, ino: nat, data: Contents)
    requires Kept(d0, d, tmp, final) && Binding(d, tmp) == Some(ino) && ino in d.files
    ensures Kept(d0, Append(d, ino, data), tmp, final) && Kept(d0, Fsync(d, ino), tmp, final)
  {
    WritesAreSound(d, ino, data);
  }

  lemma UnlinkKeeps(d0: Disk, d: Disk, tmp: string, final: string)
    requires Kept(d0, d, tmp, final)
    ensures Kept(d0, Unlink(d, tmp), tmp, final)
  {
    UnlinkIsSound(d, tmp);
  }

  lemma KeptIsOld(d0: Disk, d: Disk, tmp: string, final: string, payload: Contents)
    requires Kept(d0, d, tmp, final)
    ensures Reaches(d0, d, tmp, final, payload)
  {
    forall c | AfterCrash(d, final, c) ensures AfterCrash(d0, final, c) {
      var b :| b in Bindings(d, final) && BindingReads(d, b, c);
      assert BindingReads(d0, b, c);
    }
  }

  /** The rename of a synced file holding the payload. */
  lemma RenameIsNew(d0: Disk, d: Disk, tmp: string, final: string, payload: Contents)
    requires Kept(d0, d, tmp, final)
    requires tmp in d.names && d.names[tmp] in d.files && d.files[d.names[tmp]] == File(payload, true)
    ensures var d' := Rename(d, tmp, final);
            && Reaches(d0, d', tmp, final, payload) && Read(d', final) == Some(payload) && tmp !in d'.names
  {
    var d' := Rename(d, tmp, final);
    RenameIsSound(d, tmp, final);
    assert Bindings(d', final) == Bindings(d, final) + {Some(d.names[tmp])};
    forall c | AfterCrash(d', final, c) ensures AfterCrash(d0, final, c) || c == Some(payload) {
      var b :| b in Bindings(d', final) && BindingReads(d', b, c);
      if b in Bindings(d, final) {
        assert BindingReads(d0, b, c);
      }
    }
  }

  /** Once the directory is synced as well, the payload survives any crash. */
  lemma SyncedSurvives(d: Disk, tmp: string, final: string, payload: Contents)
    requires Ready(d, tmp, final) && Read(d, final) == Some(payload)
    ensures var d' := SyncDirectory(d);
            && Ready(d', tmp, final) && Read(d', final) == Some(payload)
            && (forall n :: Bindings(d', n) <= Bindings(d, n))
            && forall c :: AfterCrash(d', final, c) ==> c == Some(payload)
  {
    var d' := SyncDirectory(d);
    SyncDirectoryIsSound(d);
    assert Binding(d, final) in Bindings(d, final);
    assert Bindings(d', final) == {Binding(d, final)};
  }

  // ---------------------------------------------------------------- beginning again after a crash

  lemma CrashIsOnDisk(d: Disk, d': Disk, final: string)
    requires Sound(d) && Crash(d, d')
    ensures OnDisk(d', final)
  {
    forall n, b | b in Bindings(d', n) && b.Some? ensures b.value in d'.files {
      assert b == Binding(d', n) && b in Bindings(d, n);
    }
  }

  /** After a crash a replacement may begin if and only if the two names have not come back as one file. */
  lemma ReadyAfterCrashIff(d: Disk, d': Disk, tmp: string, final: string)
    requires Sound(d) && Crash(d, d') && tmp != final
    ensures Ready(d', tmp, final) <==> (tmp in d'.names && final in d'.names ==> d'.names[tmp] != d'.names[final])
  {
    CrashIsOnDisk(d, d', final);
    assert Bindings(d', final) == {Binding(d', final)};
  }

  /** So it always may under a name that has not been used since the last directory sync. */
  lemma FreshNameIsReady(d: Disk, d': Disk, tmp: string, final: string)
    requires Sound(d) && Crash(d, d') && tmp != final && Bindings(d, tmp) == {None}
    ensures Ready(d', tmp, final)
  {
    assert Binding(d', tmp) in Bindings(d, tmp);
    ReadyAfterCrashIff(d, d', tmp, final);
  }

  /** After a commit with the directory sync every crash shows the payload, and the next replacement may begin. */
  ghost predicate Survives(d: Disk, tmp: string, final: string, payload: Contents) {
    && (forall c :: AfterCrash(d, final, c) ==> c == Some(payload))
    && (forall d' :: Crash(d, d') ==> Ready(d', tmp, final) && Read(d', final) == Some(payload))
  }

  lemma SyncedCommitSurvives(d: Disk, tmp: string, final: string, payload: Contents)
    requires Ready(d, tmp, final) && Read(d, final) == Some(payload) && tmp !in d.names
    ensures Survives(SyncDirectory(d), tmp, final, payload)
  {
    SyncedSurvives(d, tmp, final, payload);
    forall d' | Crash(SyncDirectory(d), d') ensures Ready(d', tmp, final) && Read(d', final) == Some(payload) {
      FreshNameIsReady(SyncDirectory(d), d', tmp, final);
      CrashShowsIff(SyncDirectory(d), final, Read(d', final));
    }
  }

  // ---------------------------------------------------------------- the writers

  datatype Outcome = Committed(directorySynced: bool) | Vetoed | Failed

  class DurableDisk {
    var d: Disk
    /** No operation fails; write counts may be short all the same. */
    const faultless: bool
    /** Every state of the disk since the replacement under way began. */
    ghost var trace: seq<Disk>

    /** The replacement that began on `d0` has not touched `final`, and no state so far endangered it. */
    ghost predicate Preparing(d0: Disk, tmp: string, final: string, payload: Contents)
      reads this
    {
      Kept(d0, d, tmp, final) && Safe(d0, tmp, final, payload)
    }

    /** Whatever moment a crash comes at, it finds one of the states that `Trace` allows. */
    ghost predicate Safe(d0: Disk, tmp: string, final: string, payload: Contents)
      reads this
    {
      Trace(d0, trace, tmp, final, payload) && trace[|trace| - 1] == d
    }

    ghost predicate Holds(tmp: string, ino: nat, bytes: Contents)
      reads this
    {
      tmp in d.names && d.names[tmp] == ino && ino in d.files && d.files[ino].bytes == bytes
    }

    constructor (disk: Disk, faultless: bool)
      ensures d == disk && this.faultless == faultless
    {
      d, this.faultless, trace := disk, faultless, [];
    }

    method Open(ghost d0: Disk, tmp: string, final: string, ghost payload: Contents) returns (handle: Option<nat>)
      requires Preparing(d0, tmp, final, payload)
      modifies this
      ensures Preparing(d0, tmp, final, payload)
      ensures handle.Some? ==> Holds(tmp, handle.value, [])
      ensures faultless ==> handle.Some?
    {
      var fault: bool := *;
      if fault && !faultless {
        return None;
      }
      OpenKeeps(d0, d, tmp, final);
      d := OpenTruncate(d, tmp);
      KeptIsOld(d0, d, tmp, final, payload);
      trace := trace + [d];
      return Some(d.names[tmp]);
    }

    /** Writes the payload in as many calls as short counts make necessary; a count of zero is an error. */
    method WriteAll(ghost d0: Disk, tmp: string, final: string, ino: nat, payload: Contents) returns (ok: bool)
      requires Preparing(d0, tmp, final, payload) && Holds(tmp, ino, [])
      modifies this
      ensures Preparing(d0, tmp, final, payload)
      ensures ok ==> Holds(tmp, ino, payload)
      ensures faultless ==> ok
    {
      var written := 0;
      while written < |payload|
        invariant written <= |payload|
        invariant Preparing(d0, tmp, final, payload) && Holds(tmp, ino, payload[..written])
      {
        var bytes: int := *;
        if faultless && !(1 <= bytes <= |payload| - written) {
          bytes := 1;
        }
        if bytes <= 0 || bytes > |payload| - written {
          return false;
        }
        WriteOnce(d0, tmp, final, ino, payload, payload[..written], payload[written..written + bytes]);
        assert payload[..written] + payload[written..written + bytes] == payload[..written + bytes];
        written := written + bytes;
      }
      assert payload[..written] == payload;
      return true;
    }

    method WriteOnce(ghost d0: Disk, tmp: string, final: string, ino: nat, ghost payload: Contents,
                     ghost sofar: Contents, data: Contents)
      requires Preparing(d0, tmp, final, payload) && Holds(tmp, ino, sofar)
      modifies this
      ensures Preparing(d0, tmp, final, payload) && Holds(tmp, ino, sofar + data)
    {
      WriteKeeps(d0, d, tmp, final, ino, data);
      d := Append(d, ino, data);
      KeptIsOld(d0, d, tmp, final, payload);
      trace := trace + [d];
    }

    method Sync(ghost d0: Disk, tmp: string, final: string, ino: nat, ghost payload: Contents) returns (ok: bool)
      requires Preparing(d0, tmp, final, payload) && Holds(tmp, ino, payload)
      modifies this
      ensures Preparing(d0, tmp, final, payload) && Holds(tmp, ino, payload)
      ensures ok ==> d.files[ino].synced
      ensures faultless ==> ok
    {
      ok := *;
      ok := ok || faultless;
      if ok {
        WriteKeeps(d0, d, tmp, final, ino, []);
        d := Fsync(d, ino);
        KeptIsOld(d0, d, tmp, final, payload);
        trace := trace + [d];
      }
    }

    /** Open, write, sync and close the temporary file. */
    method WriteTmp(ghost d0: Disk, tmp: string, final: string, payload: Contents) returns (ok: bool)
      requires Preparing(d0, tmp, final, payload)
      modifies this
      ensures Preparing(d0, tmp, final, payload)
      ensures ok ==> tmp in d.names && d.names[tmp] in d.files && d.files[d.names[tmp]] == File(payload, true)
      ensures faultless ==> ok
    {
      var handle := Open(d0, tmp, final, payload);
      if handle.None? {
        return false;
      }
      ok := WriteAll(d0, tmp, final, handle.value, payload);
      if ok {
        ok := Sync(d0, tmp, final, handle.value, payload);
      }
      var closed: bool := *;
      ok := ok && (closed || faultless);
    }

    /** The rename either happens as a whole or fails and changes nothing. */
    method RenameOnto(ghost d0: Disk, tmp: string, final: string, ghost payload: Contents) returns (ok: bool)
      requires Preparing(d0, tmp, final, payload)
      requires tmp in d.names && d.names[tmp] in d.files && d.files[d.names[tmp]] == File(payload, true)
      modifies this
      ensures Safe(d0, tmp, final, payload)
      ensures ok ==> Read(d, final) == Some(payload) && tmp !in d.names
      ensures !ok ==> Preparing(d0, tmp, final, payload) && d == old(d)
      ensures faultless ==> ok
    {
      ok := *;
      ok := ok || faultless;
      if ok {
        RenameIsNew(d0, d, tmp, final, payload);
        d := Rename(d, tmp, final);
        trace := trace + [d];
      }
    }

    /** Best effort: it may not be possible to sync a directory at all. */
    method SyncDir(ghost d0: Disk, tmp: string, final: string, ghost payload: Contents) returns (ok: bool)
      requires Safe(d0, tmp, final, payload) && Read(d, final) == Some(payload)
      requires tmp !in d.names
      modifies this
      ensures Safe(d0, tmp, final, payload) && Read(d, final) == Some(payload)
      ensures tmp !in d.names
      ensures ok ==> Survives(d, tmp, final, payload)
      ensures faultless ==> ok
    {
      ok := *;
      ok := ok || faultless;
      if ok {
        SyncedSurvives(d, tmp, final, payload);
        SyncedCommitSurvives(d, tmp, final, payload);
        d := SyncDirectory(d);
        trace := trace + [d];
      }
    }

    /** Removes the temporary file; a failure to do so is ignored. */
    method RemoveTmp(ghost d0: Disk, tmp: string, final: string, ghost payload: Contents, rmFails: bool)
      requires Preparing(d0, tmp, final, payload)
      modifies this
      ensures Preparing(d0, tmp, final, payload)
      ensures !rmFails ==> tmp !in d.names
    {
      if !rmFails {
        UnlinkKeeps(d0, d, tmp, final);
        d := Unlink(d, tmp);
        KeptIsOld(d0, d, tmp, final, payload);
        trace := trace + [d];
      }
    }

    /**
     writeFileDurableIfCurrent; `isCurrent` is the answer when it is asked, `rmFails` whether a temporary file cannot be
     removed.  Whatever fails, every state on the way is old or new; only a commit changes `final`, a writer that is no
     longer current never commits, and a temporary file that is not committed is removed.
     */
    method WriteFileDurableIfCurrent(tmp: string, final: string, payload: Contents, isCurrent: bool, rmFails: bool)
      returns (outcome: Outcome)
      requires Ready(d, tmp, final)
      modifies this
      ensures Safe(old(d), tmp, final, payload) && Ready(d, tmp, final)
      ensures outcome.Committed? ==> Read(d, final) == Some(payload) && tmp !in d.names
      ensures outcome == Committed(true) ==> Survives(d, tmp, final, payload)
      ensures !outcome.Committed? ==> FinalKept(old(d), d, final) && (!rmFails ==> tmp !in d.names)
      ensures (outcome.Committed? ==> isCurrent) && (outcome.Vetoed? ==> !isCurrent)
      ensures faultless ==> outcome == (if isCurrent then Committed(true) else Vetoed)
    {
      ghost var d0 := d;
      Begin(tmp, final, payload);
      var written := WriteTmp(d0, tmp, final, payload);
      outcome := if written && !isCurrent then Vetoed else Failed;
      if written && isCurrent {
        var renamed := RenameOnto(d0, tmp, final, payload);
        if renamed {
          var synced := SyncDir(d0, tmp, final, payload);
          return Committed(synced);
        }
      }
      RemoveTmp(d0, tmp, final, payload, rmFails);
    }

    /** renameDurable, for a temporary file that is complete and synced already. */
    method RenameDurable(tmp: string, final: string) returns (outcome: Outcome)
      requires Ready(d, tmp, final) && tmp in d.names && d.names[tmp] in d.files && d.files[d.names[tmp]].synced
      modifies this
      ensures Safe(old(d), tmp, final, old(d.files[d.names[tmp]].bytes)) && Ready(d, tmp, final)
      ensures outcome.Committed? ==> Read(d, final) == old(Read(d, tmp)) && tmp !in d.names
      ensures outcome == Committed(true) ==> Survives(d, tmp, final, old(d.files[d.names[tmp]].bytes))
      ensures !outcome.Committed? ==> d == old(d)
      ensures faultless ==> outcome == Committed(true)
    {
      ghost var d0, payload := d, d.files[d.names[tmp]].bytes;
      Begin(tmp, final, payload);
      var renamed := RenameOnto(d0, tmp, final, payload);
      if !renamed {
        return Failed;
      }
      var synced := SyncDir(d0, tmp, final, payload);
      return Committed(synced);
    }

    ghost method Begin(tmp: string, final: string, payload: Contents)
      requires Ready(d, tmp, final)
      modifies this`trace
      ensures Preparing(d, tmp, final, payload) && trace == [d]
    {
      KeptIsOld(d, d, tmp, final, payload);
      trace := [d];
    }

    /** writeFileDurableSync, which leaves its temporary file behind when it throws. */
    method WriteFileDurableSync(tmp: string, final: string, payload: Contents) returns (outcome: Outcome)
      requires Ready(d, tmp, final)
      modifies this
      ensures Safe(old(d), tmp, final, payload) && Ready(d, tmp, final)
      ensures outcome.Committed? ==> Read(d, final) == Some(payload) && tmp !in d.names
      ensures outcome == Committed(true) ==> Survives(d, tmp, final, payload)
      ensures outcome.Failed? ==> FinalKept(old(d), d, final)
      ensures !outcome.Vetoed?
      ensures faultless ==> outcome == Committed(true)
    {
      ghost var d0 := d;
      Begin(tmp, final, payload);
      outcome := Failed;
      var written := WriteTmp(d0, tmp, final, payload);
      if written {
        var renamed := RenameOnto(d0, tmp, final, payload);
        if renamed {
          var synced := SyncDir(d0, tmp, final, payload);
          outcome := Committed(synced);
        }
      }
    }

    /** writeCredentialFileAtomic, which never syncs the directory and restricts the mode afterwards. */
    method WriteCredentialFileAtomic(path: string, data: Contents, unlinkFails: bool) returns (ok: bool)
      requires Ready(d, path + ".tmp", path)
      modifies this
      ensures Safe(old(d), path + ".tmp", path, data) && Ready(d, path + ".tmp", path)
      ensures ok ==> Read(d, path) == Some(data) && path + ".tmp" !in d.names
      ensures !ok ==> FinalKept(old(d), d, path) && (!unlinkFails ==> path + ".tmp" !in d.names)
      ensures faultless ==> ok
    {
      ghost var d0 := d;
      var tempPath := path + ".tmp";
      Begin(tempPath, path, data);
      ok := WriteTmp(d0, tempPath, path, data);
      if ok {
        ok := RenameOnto(d0, tempPath, path, data);
        if ok {
          return true;
        }
      }
      RemoveTmp(d0, tempPath, path, data, unlinkFails);
    }
  }

  // ---------------------------------------------------------------- any number of replacements and crashes

  /** A replacement up to some moment, and what a crash at that moment leaves, if one comes. */
  datatype Episode = Episode(tmp: string, payload: Contents, states: seq<Disk>, crash: Option<Disk>)

  function After(d: Disk, e: Episode): Disk {
    if e.crash.Some? then e.crash.value else if e.states == [] then d else e.states[|e.states| - 1]
  }

  function AfterAll(d: Disk, episodes: seq<Episode>): Disk
    decreases |episodes|
  {
    if episodes == [] then d else AfterAll(After(d, episodes[0]), episodes[1..])
  }

  ghost predicate Happens(d: Disk, e: Episode, final: string) {
    && Trace(d, e.states, e.tmp, final, e.payload)
    && (e.crash.Some? ==> Crash(e.states[|e.states| - 1], e.crash.value))
  }

  ghost predicate History(d: Disk, episodes: seq<Episode>, final: string)
    decreases |episodes|
  {
    episodes == [] || (Happens(d, episodes[0], final) && History(After(d, episodes[0]), episodes[1..], final))
  }

  predicate Offered(episodes: seq<Episode>, c: Option<Contents>) {
    exists k :: 0 <= k < |episodes| && c == Some(episodes[k].payload)
  }

  /** One episode leaves `final` ready to be replaced again, and shows nothing but what there was or is offered. */
  lemma EpisodeIsComplete(d: Disk, e: Episode, final: string)
    requires Happens(d, e, final)
    ensures OnDisk(After(d, e), final)
    ensures forall c :: AfterCrash(After(d, e), final, c) ==> AfterCrash(d, final, c) || c == Some(e.payload)
    ensures forall n :: n != e.tmp && n != final ==> Bindings(After(d, e), n) <= Bindings(d, n)
  {
    var last := e.states[|e.states| - 1];
    assert Reaches(d, last, e.tmp, final, e.payload);
    if e.crash.Some? {
      var d' := e.crash.value;
      CrashIsOnDisk(last, d', final);
      forall n ensures Bindings(d', n) <= Bindings(last, n) {
        assert Bindings(d', n) == {Binding(d', n)};
      }
      forall c | AfterCrash(d', final, c) ensures AfterCrash(last, final, c) {
        assert BindingReads(last, Binding(d', final), c);
      }
    }
  }

  /**
   However many replacements there have been, and wherever crashes have cut them short: what is read at `final`, and
   what a further crash would show, is what was there at the start or one of the payloads, complete.
   */
  lemma {:induction false} AlwaysComplete(d: Disk, episodes: seq<Episode>, final: string)
    requires OnDisk(d, final) && History(d, episodes, final)
    ensures var d' := AfterAll(d, episodes);
            && OnDisk(d', final)
            && (forall c :: AfterCrash(d', final, c) ==> AfterCrash(d, final, c) || Offered(episodes, c))
            && (AfterCrash(d, final, Read(d', final)) || Offered(episodes, Read(d', final)))
    decreases |episodes|
  {
    var d' := AfterAll(d, episodes);
    if episodes != [] {
      EpisodeIsComplete(d, episodes[0], final);
      AlwaysComplete(After(d, episodes[0]), episodes[1..], final);
      forall c | AfterCrash(d', final, c) ensures AfterCrash(d, final, c) || Offered(episodes, c) {
        OfferedLater(episodes, c);
      }
    }
    ReadIsOneCrash(d', final);
  }

  lemma OfferedLater(episodes: seq<Episode>, c: Option<Contents>)
    requires episodes != []
    ensures Offered(episodes[1..], c) || c == Some(episodes[0].payload) ==> Offered(episodes, c)
  {
    if k :| 0 <= k < |episodes[1..]| && c == Some(episodes[1..][k].payload) {
      assert c == Some(episodes[k + 1].payload);
    }
  }

  lemma ReadIsOneCrash(d: Disk, name: string)
    requires Sound(d)
    ensures AfterCrash(d, name, Read(d, name))
  {
    assert Binding(d, name) in Bindings(d, name) && BindingReads(d, Binding(d, name), Read(d, name));
  }

  /** In particular after a commit that reached the disk: whatever comes later, its payload or a later one is read. */
  lemma CommitsAreNotUndone(d: Disk, tmp: string, final: string, payload: Contents, episodes: seq<Episode>)
    requires OnDisk(d, final) && Survives(d, tmp, final, payload) && History(d, episodes, final)
    ensures var c := Read(AfterAll(d, episodes), final); c == Some(payload) || Offered(episodes, c)
  {
    AlwaysComplete(d, episodes, final);
  }

  /** Each replacement that takes a name never used before may begin, whatever crashes there have been. */
  lemma {:induction false} FreshNameMayBegin(d: Disk, episodes: seq<Episode>, tmp: string, final: string)
    requires OnDisk(d, final) && History(d, episodes, final)
    requires tmp != final && Bindings(d, tmp) == {None} && forall k :: 0 <= k < |episodes| ==> episodes[k].tmp != tmp
    ensures Ready(AfterAll(d, episodes), tmp, final)
    decreases |episodes|
  {
    if episodes == [] {
      assert Binding(d, tmp) in Bindings(d, tmp);
    } else {
      var d' := After(d, episodes[0]);
      EpisodeIsComplete(d, episodes[0], final);
      assert Binding(d', tmp) in Bindings(d', tmp) && Bindings(d', tmp) <= {None};
      assert Bindings(d', tmp) == {None};
      FreshNameMayBegin(d', episodes[1..], tmp, final);
    }
  }

  /** A writer's trace extends a history, wherever a crash cuts it short. */
  lemma {:induction false} HistoryGrows(d: Disk, episodes: seq<Episode>, states: seq<Disk>, tmp: string, final: string,
        payload: Contents, n: nat, crash: Option<Disk>)
    requires History(d, episodes, final) && Trace(AfterAll(d, episodes), states, tmp, final, payload)
    requires 0 < n <= |states| && (crash.Some? ==> Crash(states[n - 1], crash.value))
    ensures var e := Episode(tmp, payload, states[..n], crash);
            && History(d, episodes + [e], final)
            && AfterAll(d, episodes + [e]) == if crash.Some? then crash.value else states[n - 1]
    decreases |episodes|
  {
    var e := Episode(tmp, payload, states[..n], crash);
    if episodes == [] {
      assert Happens(d, e, final);
      assert [e][1..] == [];
    } else {
      assert (episodes + [e])[1..] == episodes[1..] + [e];
      HistoryGrows(After(d, episodes[0]), episodes[1..], states, tmp, final, payload, n, crash);
    }
  }

  // ---------------------------------------------------------------- what does not hold

  /**
   Without the directory sync a crash may still bring back the old version: right after a successful
   replacement, both the old and the new contents can be what is found.
   */
  lemma UnsyncedRenameMayBeLost(d: Disk, tmp: string, final: string, c: Option<Contents>)
    requires Ready(d, tmp, final) && tmp in d.names && d.names[tmp] in d.files && d.files[d.names[tmp]].synced
    requires AfterCrash(d, final, c)
    ensures AfterCrash(Rename(d, tmp, final), final, c)
    ensures AfterCrash(Rename(d, tmp, final), final, Some(d.files[d.names[tmp]].bytes))
  {
    var d' := Rename(d, tmp, final);
    var b :| b in Bindings(d, final) && BindingReads(d, b, c);
    assert b in Bindings(d', final) && BindingReads(d', b, c);
    assert BindingReads(d', Some(d.names[tmp]), Some(d.files[d.names[tmp]].bytes));
  }

  /** Renaming before the file is synced is not safe: a crash may then show any contents at all. */
  lemma RenameBeforeSyncIsUnsafe(d: Disk, tmp: string, final: string, garbage: Contents)
    requires tmp != final && tmp in d.names && d.names[tmp] in d.files && !d.files[d.names[tmp]].synced
    ensures AfterCrash(Rename(d, tmp, final), final, Some(garbage))
  {
    assert BindingReads(Rename(d, tmp, final), Some(d.names[tmp]), Some(garbage));
  }

  /**
   A fixed temporary name without the directory sync is not always safe to use again: a crash after the rename may
   bring both names back as one file, and opening the temporary one then empties the other.
   */
  lemma FixedNameMayEmptyFinal(d: Disk, tmp: string, final: string) returns (d': Disk)
    requires Sound(d) && tmp != final && tmp in d.names && d.names[tmp] in d.files && d.files[d.names[tmp]].synced
    ensures Crash(Rename(d, tmp, final), d') && Read(d', final) == Some(d.files[d.names[tmp]].bytes)
    ensures !Ready(d', tmp, final) && Read(OpenTruncate(d', tmp), final) == Some([])
  {
    var ino := d.names[tmp];
    assert Some(ino) == Binding(d, tmp);
    d' := Rebind(Rename(d, tmp, final), tmp, Some(ino), []);
    forall n ensures Binding(d', n) in Bindings(Rename(d, tmp, final), n) {
    }
    assert Binding(d', final) in Bindings(d', final);
  }
}
