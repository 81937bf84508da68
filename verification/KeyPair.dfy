/**
 Creating the mock server's key pair when any number of processes may start at once and any of them may
 crash (mobile/scripts/mock-server-key-pair.ts).  Each step is one system call of one process.
 */
module KeyPair {
  import opened Wrappers

  const LOCK_ATTEMPTS := 50
  const RENAME_ATTEMPTS := 5

  /** Contents of the key file: absent, not a key, or the encoding of a key. */
  datatype KeyFile = Missing | Invalid | Valid(key: nat)

  datatype Phase =
    | FirstRead
    | TryLock(attempt: nat)
    | BusyRead(attempt: nat)
    | WinnerRead
    | LastTry
    | LateRead
    | HoldsLock
    | Minted(key: nat)
    | TmpWritten(key: nat, attempt: nat)
    | Releasing(selected: Option<nat>)
    | Returned(key: nat)
    | Threw
    | Crashed

  /** What a step may leave open: does the call fail, may it be retried, is the read garbled, which key is minted. */
  datatype Choice = Choice(fault: bool, transient: bool, unreadable: bool, key: nat, crash: bool)

  /** `owner` is the process that created the lock file and has not released it. */
  datatype State = State(file: KeyFile, lock: bool, owner: Option<nat>, procs: map<nat, Phase>, persists: nat) {
    function PhaseOf(p: nat): Phase {
      if p in procs then procs[p] else FirstRead
    }
  }

  /** `lock` says whether a crashed process has left its lock file behind. */
  function Init(file: KeyFile, lock: bool): State {
    State(file, lock, None, map[], 0)
  }

  /** The key that readKeyPair finds. */
  function ReadKey(s: State, c: Choice): Option<nat> {
    if s.file.Valid? && !c.unreadable then Some(s.file.key) else None
  }

  predicate Final(phase: Phase) {
    phase.Returned? || phase.Threw? || phase.Crashed?
  }

  function Goto(s: State, p: nat, phase: Phase): State {
    s.(procs := s.procs[p := phase])
  }

  function ReadOr(s: State, p: nat, c: Choice, otherwise: Phase): State {
    var key := ReadKey(s, c);
    Goto(s, p, if key.Some? then Returned(key.value) else otherwise)
  }

  /** Exclusive creation of the lock file. */
  function OpenLock(s: State, p: nat, c: Choice, busy: Phase): State {
    if c.fault then Goto(s, p, Threw)
    else if s.lock then Goto(s, p, busy)
    else Goto(s, p, HoldsLock).(lock := true, owner := Some(p))
  }

  function Rename(s: State, p: nat, c: Choice, key: nat, attempt: nat): State {
    if !c.fault then Goto(s, p, Releasing(Some(key))).(file := Valid(key), persists := s.persists + 1)
    else if c.transient && attempt < RENAME_ATTEMPTS - 1 then Goto(s, p, TmpWritten(key, attempt + 1))
    else Goto(s, p, Releasing(None))
  }

  /** Unlinking the lock file; its failure is ignored and leaves the lock behind. */
  function Release(s: State, p: nat, c: Choice, selected: Option<nat>): State {
    Goto(s, p, if selected.Some? then Returned(selected.value) else Threw)
      .(lock := if c.fault then s.lock else false, owner := None)
  }

  function Step(s: State, p: nat, c: Choice): State {
    var phase := s.PhaseOf(p);
    if Final(phase) then s
    else if c.crash then Goto(s, p, Crashed).(owner := if s.owner == Some(p) then None else s.owner)
    else
      match phase
      case FirstRead => ReadOr(s, p, c, TryLock(0))
      case TryLock(n) => OpenLock(s, p, c, BusyRead(n))
      case BusyRead(n) => ReadOr(s, p, c, if n + 1 < LOCK_ATTEMPTS then TryLock(n + 1) else WinnerRead)
      case WinnerRead => ReadOr(s, p, c, LastTry)
      case LastTry => OpenLock(s, p, c, LateRead)
      case LateRead => ReadOr(s, p, c, Threw)
      case HoldsLock =>
        var key := ReadKey(s, c);
        Goto(s, p, if key.Some? then Releasing(key) else Minted(c.key))
      case Minted(key) => Goto(s, p, if c.fault then Releasing(None) else TmpWritten(key, 0))
      case TmpWritten(key, n) => Rename(s, p, c, key, n)
      case Releasing(selected) => Release(s, p, c, selected)
      case _ => s
  }

  function Run(s: State, events: seq<(nat, Choice)>): State
    decreases |events|
  {
    if events == [] then s else Run(Step(s, events[0].0, events[0].1), events[1..])
  }

  // ---------------------------------------------------------------- what every run keeps

  /** The double-checked read finds the key that is there. */
  predicate ChecksProperly(s: State, p: nat, c: Choice) {
    s.PhaseOf(p) == HoldsLock && !c.crash && s.file.Valid? ==> !c.unreadable
  }

  predicate ProperRun(s: State, events: seq<(nat, Choice)>)
    decreases |events|
  {
    events == []
    || (ChecksProperly(s, events[0].0, events[0].1)
        && ProperRun(Step(s, events[0].0, events[0].1), events[1..]))
  }

  predicate InsideLock(phase: Phase) {
    phase.HoldsLock? || phase.Minted? || phase.TmpWritten? || phase.Releasing?
  }

  /** What a process in this phase knows about the key file. */
  predicate KnowsFile(s: State, phase: Phase) {
    match phase
    case Minted(_) => !s.file.Valid?
    case TmpWritten(_, _) => !s.file.Valid?
    case Releasing(selected) => selected.Some? ==> s.file == Valid(selected.value)
    case Returned(key) => s.file == Valid(key)
    case _ => true
  }

  predicate Inv(s: State) {
    && (s.owner.Some? ==> s.lock && s.owner.value in s.procs && InsideLock(s.procs[s.owner.value]))
    && (forall p | p in s.procs :: InsideLock(s.procs[p]) ==> s.owner == Some(p))
    && (forall p | p in s.procs :: KnowsFile(s, s.procs[p]))
  }

  lemma StepKeepsInv(s: State, p: nat, c: Choice)
    requires Inv(s) && ChecksProperly(s, p, c)
    ensures Inv(Step(s, p, c))
  {
  }

  /** A valid key stays, and the file changes only by the one rename that makes it valid. */
  lemma StepKeepsKey(s: State, p: nat, c: Choice)
    requires Inv(s) && ChecksProperly(s, p, c)
    ensures s.file.Valid? ==> Step(s, p, c).file == s.file
    ensures Step(s, p, c).persists
            == s.persists + (if !s.file.Valid? && Step(s, p, c).file.Valid? then 1 else 0)
  {
    if p in s.procs {
      assert KnowsFile(s, s.procs[p]);
    }
  }

  lemma {:induction false} RunKeepsKey(s: State, events: seq<(nat, Choice)>)
    requires Inv(s) && ProperRun(s, events)
    ensures Inv(Run(s, events))
    ensures s.file.Valid? ==> Run(s, events).file == s.file
    ensures Run(s, events).persists
            == s.persists + (if !s.file.Valid? && Run(s, events).file.Valid? then 1 else 0)
    decreases |events|
  {
    if events != [] {
      StepKeepsInv(s, events[0].0, events[0].1);
      StepKeepsKey(s, events[0].0, events[0].1);
      RunKeepsKey(Step(s, events[0].0, events[0].1), events[1..]);
    }
  }

  /**
   For any number of processes, interleaved and crashing anywhere: all that return, return the key in the
   file, so the same key; a key that was valid at the start is that key; at most one persist succeeds.
   */
  lemma AllReturnTheSameKey(file: KeyFile, lock: bool, events: seq<(nat, Choice)>)
    requires ProperRun(Init(file, lock), events)
    ensures var s := Run(Init(file, lock), events);
            && (forall p, q | p in s.procs && q in s.procs && s.procs[p].Returned? && s.procs[q].Returned? ::
                  s.procs[p].key == s.procs[q].key)
            && (forall p | p in s.procs && s.procs[p].Returned? :: s.file == Valid(s.procs[p].key))
            && (file.Valid? ==> s.file == file && s.persists == 0)
            && s.persists <= 1
  {
    RunKeepsKey(Init(file, lock), events);
    var s := Run(Init(file, lock), events);
    forall p | p in s.procs && s.procs[p].Returned? ensures s.file == Valid(s.procs[p].key) {
      assert KnowsFile(s, s.procs[p]);
    }
  }

  /** The lock keeps writers apart: two processes are never both between acquiring and releasing it. */
  lemma OneInsideTheLock(file: KeyFile, lock: bool, events: seq<(nat, Choice)>, p: nat, q: nat)
    requires ProperRun(Init(file, lock), events)
    ensures var s := Run(Init(file, lock), events); InsideLock(s.PhaseOf(p)) && InsideLock(s.PhaseOf(q)) ==> p == q
  {
    RunKeepsKey(Init(file, lock), events);
  }

  // ---------------------------------------------------------------- the read that matters

  /** The steps by which the holder of the lock replaces the key after failing to read it. */
  function OverwriteRun(p: nat, key: nat): seq<(nat, Choice)> {
    [(p, Choice(false, false, true, key, false)), (p, Choice(false, false, false, key, false)),
     (p, Choice(false, false, false, key, false))]
  }

  /**
   In a state with the lock held, the key is safe from the holder's next read exactly when that read does
   not come back garbled on a valid file: one that does can be followed by a rename of any other key.
   */
  lemma ChecksProperlyIff(s: State, p: nat, c: Choice)
    requires Inv(s) && s.PhaseOf(p) == HoldsLock && !c.crash && s.file.Valid?
    ensures ChecksProperly(s, p, c) <==>
            (forall key: nat :: Run(Step(s, p, c.(key := key)), OverwriteRun(p, key)[1..]).file == s.file)
  {
    if c.unreadable {
      OverwriteReplacesKey(s, p, c, s.file.key + 1);
    } else {
      forall key: nat
        ensures Run(Step(s, p, c.(key := key)), OverwriteRun(p, key)[1..]).file == s.file
      {
        var s1 := Step(s, p, c.(key := key));
        assert ChecksProperly(s, p, c.(key := key));
        StepKeepsInv(s, p, c.(key := key));
        AfterReadNothingChanges(s1, p, OverwriteRun(p, key)[1..]);
      }
    }
  }

  lemma OverwriteReplacesKey(s: State, p: nat, c: Choice, key: nat)
    requires s.PhaseOf(p) == HoldsLock && !c.crash && s.file.Valid? && c.unreadable
    ensures Run(Step(s, p, c.(key := key)), OverwriteRun(p, key)[1..]).file == Valid(key)
  {
    var rest: seq<(nat, Choice)> := OverwriteRun(p, key)[1..];
    var s1 := Step(s, p, c.(key := key));
    var s2 := Step(s1, rest[0].0, rest[0].1);
    var s3 := Step(s2, rest[1].0, rest[1].1);
    assert rest[1..][1..] == rest[2..];
    assert Run(s1, rest) == Run(s2, rest[1..]) == Run(s3, rest[1..][1..]) == s3;
  }

  lemma {:induction false} RunSplit(s: State, a: seq<(nat, Choice)>, b: seq<(nat, Choice)>)
    ensures Run(s, a + b) == Run(Run(s, a), b)
    decreases |a|
  {
    if a == [] {
      assert a + b == b;
    } else {
      assert (a + b)[1..] == a[1..] + b;
      RunSplit(Step(s, a[0].0, a[0].1), a[1..], b);
    }
  }

  /** From the lock to the return: `p` finds no key, or fails to read the one there is, and stores its own. */
  function MintingRun(p: nat, key: nat, garbled: bool): seq<(nat, Choice)> {
    var c := Choice(false, false, garbled, key, false);
    [(p, c), (p, c), (p, c), (p, c), (p, c)]
  }

  lemma MintingRunMints(s: State, p: nat, key: nat, garbled: bool)
    requires s.PhaseOf(p) == TryLock(0) && !s.lock && (s.file.Valid? ==> garbled)
    ensures var s' := Run(s, MintingRun(p, key, garbled));
            && s'.file == Valid(key) && !s'.lock && s'.PhaseOf(p) == Returned(key)
            && forall q :: q != p ==> s'.PhaseOf(q) == s.PhaseOf(q)
  {
    var events: seq<(nat, Choice)> := MintingRun(p, key, garbled);
    var c := events[0].1;
    var s1 := Step(s, p, c);
    var s2 := Step(s1, p, c);
    var s3 := Step(s2, p, c);
    var s4 := Step(s3, p, c);
    var s5 := Step(s4, p, c);
    assert Run(s, events) == Run(s1, events[1..]);
    assert events[1..][1..] == events[2..] && events[2..][1..] == events[3..];
    assert events[3..][1..] == events[4..] && |events[4..]| == 1;
    assert Run(s1, events[1..]) == Run(s2, events[2..]) == Run(s3, events[3..]);
    assert Run(s3, events[3..]) == Run(s4, events[4..]) == s5;
  }

  /** Both processes look for a key while there is none. */
  function LookingRun(p: nat, q: nat): seq<(nat, Choice)> {
    [(q, Choice(false, false, false, 0, false)), (p, Choice(false, false, false, 0, false))]
  }

  lemma BothLookInVain(p: nat, q: nat)
    requires p != q
    ensures var s := Run(Init(Missing, false), LookingRun(p, q));
            s.file == Missing && !s.lock && s.PhaseOf(p) == TryLock(0) && s.PhaseOf(q) == TryLock(0)
  {
    var events: seq<(nat, Choice)> := LookingRun(p, q);
    var s1 := Step(Init(Missing, false), q, events[0].1);
    var s2 := Step(s1, p, events[1].1);
    assert events[1..][0] == events[1] && |events[1..]| == 1;
    assert Run(Init(Missing, false), events) == Run(s1, events[1..]) == Run(s2, events[1..][1..]) == s2;
  }

  /**
   A run from the very start in which a key that was returned is replaced: `q` has looked before there was a key,
   takes the lock after `p` has released it, and fails to read what `p` has stored.
   */
  lemma ReturnedKeyCanBeReplaced(p: nat, q: nat, key: nat, other: nat)
    requires p != q && key != other
    ensures var start, events := Init(Missing, false), LookingRun(p, q) + MintingRun(p, key, false);
            var s, s' := Run(start, events), Run(start, events + MintingRun(q, other, true));
            && ProperRun(start, events)
            && s.file == Valid(key) && s.PhaseOf(p) == Returned(key) && s.PhaseOf(q) == TryLock(0)
            && s'.file == Valid(other) && s'.PhaseOf(p) == Returned(key) && s'.PhaseOf(q) == Returned(other)
  {
    var start, events := Init(Missing, false), LookingRun(p, q) + MintingRun(p, key, false);
    BothLookInVain(p, q);
    RunSplit(start, LookingRun(p, q), MintingRun(p, key, false));
    MintingRunMints(Run(start, LookingRun(p, q)), p, key, false);
    RunSplit(start, events, MintingRun(q, other, true));
    MintingRunMints(Run(start, events), q, other, true);
    ReadableRunIsProper(start, events);
  }

  /** A run without garbled reads is proper. */
  lemma {:induction false} ReadableRunIsProper(s: State, events: seq<(nat, Choice)>)
    requires forall k :: 0 <= k < |events| ==> !events[k].1.unreadable
    ensures ProperRun(s, events)
    decreases |events|
  {
    if events != [] {
      ReadableRunIsProper(Step(s, events[0].0, events[0].1), events[1..]);
    }
  }

  // ---------------------------------------------------------------- every run, garbled reads included

  /** How often the holder of the lock fails to read a valid key. */
  function GarbledReads(s: State, events: seq<(nat, Choice)>): nat
    decreases |events|
  {
    if events == [] then 0
    else (if ChecksProperly(s, events[0].0, events[0].1) then 0 else 1)
         + GarbledReads(Step(s, events[0].0, events[0].1), events[1..])
  }

  predicate LockKept(s: State) {
    && (s.owner.Some? ==> s.lock && s.owner.value in s.procs && InsideLock(s.procs[s.owner.value]))
    && (forall p | p in s.procs :: InsideLock(s.procs[p]) ==> s.owner == Some(p))
  }

  /** The holder of the lock has a key of its own to store. */
  predicate AboutToPersist(s: State) {
    s.owner.Some? && s.owner.value in s.procs
    && (s.procs[s.owner.value].Minted? || s.procs[s.owner.value].TmpWritten?)
  }

  /** `allowed` more persists have been accounted for than the run began with. */
  predicate Accounted(s: State, allowed: nat) {
    && LockKept(s)
    && (s.file.Valid? || s.persists == 0)
    && (allowed == 0 ==> s.file.Valid?)
    && s.persists + (if AboutToPersist(s) then 1 else 0) <= allowed
  }

  lemma StepAccounts(s: State, p: nat, c: Choice, allowed: nat)
    requires Accounted(s, allowed)
    ensures Accounted(Step(s, p, c), allowed + if ChecksProperly(s, p, c) then 0 else 1)
  {
  }

  lemma {:induction false} RunAccounts(s: State, events: seq<(nat, Choice)>, allowed: nat)
    requires Accounted(s, allowed)
    ensures Accounted(Run(s, events), allowed + GarbledReads(s, events))
    decreases |events|
  {
    if events != [] {
      var s' := Step(s, events[0].0, events[0].1);
      StepAccounts(s, events[0].0, events[0].1, allowed);
      RunAccounts(s', events[1..], allowed + if ChecksProperly(s, events[0].0, events[0].1) then 0 else 1);
    }
  }

  /** In every run whatever: each persist but the one that a missing key calls for has a garbled read behind it. */
  lemma PersistsNeedGarbledReads(file: KeyFile, lock: bool, events: seq<(nat, Choice)>)
    ensures Run(Init(file, lock), events).persists
         <= (if file.Valid? then 0 else 1) + GarbledReads(Init(file, lock), events)
  {
    RunAccounts(Init(file, lock), events, if file.Valid? then 0 else 1);
  }

  lemma {:induction false} AfterReadNothingChanges(s: State, p: nat, events: seq<(nat, Choice)>)
    requires (s.PhaseOf(p).Releasing? || Final(s.PhaseOf(p))) && s.file.Valid?
    requires forall k :: 0 <= k < |events| ==> events[k].0 == p
    ensures Run(s, events).file == s.file
    decreases |events|
  {
    if events != [] {
      AfterReadNothingChanges(Step(s, events[0].0, events[0].1), p, events[1..]);
    }
  }

  lemma {:induction false} RunAppend(s: State, events: seq<(nat, Choice)>, p: nat, c: Choice)
    ensures Run(s, events + [(p, c)]) == Step(Run(s, events), p, c)
    decreases |events|
  {
    var all := events + [(p, c)];
    if events == [] {
      assert all[1..] == [];
    } else {
      assert all[0] == events[0] && all[1..] == events[1..] + [(p, c)];
      RunAppend(Step(s, events[0].0, events[0].1), events[1..], p, c);
    }
  }

  // ---------------------------------------------------------------- what a process goes through

  /** What a call of one process reports to it. */
  datatype Seen = Found(key: nat) | Vain | Busy | Locked | Wrote | TargetBusy | Stored(key: nat) | Failed

  /** A read, an exclusive open, the write of the temporary file, or a rename; nothing is made of the last unlink. */
  function See(s: State, p: nat, c: Choice): seq<Seen> {
    if c.crash then []
    else
      match s.PhaseOf(p)
      case FirstRead | BusyRead(_) | WinnerRead | LateRead | HoldsLock =>
        [if s.file.Valid? && !c.unreadable then Found(s.file.key) else Vain]
      case TryLock(_) | LastTry => [if c.fault then Failed else if s.lock then Busy else Locked]
      case Minted(_) => [if c.fault then Failed else Wrote]
      case TmpWritten(key, _) => [if !c.fault then Stored(key) else if c.transient then TargetBusy else Failed]
      case _ => []
  }

  /** Everything that the calls of `p` have reported. */
  function Account(s: State, events: seq<(nat, Choice)>, p: nat): seq<Seen>
    decreases |events|
  {
    if events == [] then []
    else
      var before, last := events[..|events| - 1], events[|events| - 1];
      Account(s, before, p) + if last.0 == p then See(Run(s, before), p, last.1) else []
  }

  /** A first look without success, and then `n` times the lock taken and no key. */
  function Waits(n: nat): (r: seq<Seen>)
    ensures |r| == 2 * n + 1
  {
    seq(2 * n + 1, i => if i % 2 == 0 then Vain else Busy)
  }

  /** The way to an open of the lock file: fewer than fifty turns behind it, or all of them and one more look. */
  predicate Waited(seen: seq<Seen>) {
    (exists n: nat :: n < 50 && seen == Waits(n)) || seen == Waits(50) + [Vain]
  }

  predicate WaitedThen(seen: seq<Seen>, rest: seq<Seen>) {
    |rest| <= |seen| && seen[|seen| - |rest|..] == rest && Waited(seen[..|seen| - |rest|])
  }

  function Busies(n: nat): (r: seq<Seen>)
    ensures |r| == n
  {
    seq(n, _ => TargetBusy)
  }

  /**
   The only ways to end without a key: a call failed, the lock was taken fifty times and once more with no key to be
   read after any of them, or five renames met a busy target.
   */
  predicate GivesUp(seen: seq<Seen>) {
    || (seen != [] && seen[|seen| - 1] == Failed)
    || seen == Waits(50) + [Vain, Busy, Vain]
    || WaitedThen(seen, [Locked, Vain, Wrote] + Busies(5))
  }

  predicate EndsWithKey(seen: seq<Seen>, key: nat) {
    seen != [] && (seen[|seen| - 1] == Found(key) || seen[|seen| - 1] == Stored(key))
  }

  /** What a process in this phase has been told so far. */
  predicate Explains(phase: Phase, seen: seq<Seen>) {
    match phase
    case FirstRead => seen == []
    case TryLock(n) => n < 50 && seen == Waits(n)
    case BusyRead(n) => n < 50 && seen == Waits(n) + [Busy]
    case WinnerRead => seen == Waits(50)
    case LastTry => seen == Waits(50) + [Vain]
    case LateRead => seen == Waits(50) + [Vain, Busy]
    case HoldsLock => WaitedThen(seen, [Locked])
    case Minted(_) => WaitedThen(seen, [Locked, Vain])
    case TmpWritten(_, n) => n < 5 && WaitedThen(seen, [Locked, Vain, Wrote] + Busies(n))
    case Releasing(Some(key)) => EndsWithKey(seen, key)
    case Releasing(None) => GivesUp(seen)
    case Returned(key) => EndsWithKey(seen, key)
    case Threw => GivesUp(seen)
    case Crashed => true
  }

  lemma WaitsMore(n: nat)
    ensures Waits(n) + [Busy] + [Vain] == Waits(n + 1)
  {
    assert forall i :: 0 <= i < 2 * n + 1 ==> (Waits(n) + [Busy] + [Vain])[i] == Waits(n + 1)[i];
  }

  lemma LongerRest(seen: seq<Seen>, rest: seq<Seen>, next: Seen)
    requires WaitedThen(seen, rest)
    ensures WaitedThen(seen + [next], rest + [next])
  {
    var n := |seen| - |rest|;
    assert (seen + [next])[n..] == seen[n..] + [next];
    assert (seen + [next])[..n] == seen[..n];
  }

  lemma LockedAfterWaiting(seen: seq<Seen>)
    requires Waited(seen)
    ensures WaitedThen(seen + [Locked], [Locked])
  {
    assert (seen + [Locked])[..|seen|] == seen && (seen + [Locked])[|seen|..] == [Locked];
  }

  lemma OneBusyMore(n: nat)
    ensures [Locked, Vain, Wrote] + Busies(n) + [TargetBusy] == [Locked, Vain, Wrote] + Busies(n + 1)
  {
    assert Busies(n) + [TargetBusy] == Busies(n + 1);
  }

  lemma StepExplains(s: State, p: nat, c: Choice, seen: seq<Seen>)
    requires Explains(s.PhaseOf(p), seen)
    ensures Explains(Step(s, p, c).PhaseOf(p), seen + See(s, p, c))
  {
    if c.crash {
      assert seen + [] == seen;
    } else {
      match s.PhaseOf(p)
      case FirstRead | BusyRead(_) | WinnerRead | LateRead => LookExplains(s, p, c, seen);
      case TryLock(_) | LastTry => OpenExplains(s, p, c, seen);
      case HoldsLock => CheckExplains(s, p, c, seen);
      case Minted(_) => MintExplains(s, p, c, seen);
      case TmpWritten(_, _) => RenameExplains(s, p, c, seen);
      case _ => assert seen + [] == seen;
    }
  }

  function AfterRead(phase: Phase): Phase {
    match phase
    case FirstRead => TryLock(0)
    case BusyRead(n) => if n + 1 < LOCK_ATTEMPTS then TryLock(n + 1) else WinnerRead
    case WinnerRead => LastTry
    case _ => Threw
  }

  lemma KeyEnds(seen: seq<Seen>, key: nat)
    ensures EndsWithKey(seen + [Found(key)], key) && EndsWithKey(seen + [Stored(key)], key)
  {
  }

  lemma LookExplains(s: State, p: nat, c: Choice, seen: seq<Seen>)
    requires Explains(s.PhaseOf(p), seen) && !c.crash
    requires match s.PhaseOf(p) case FirstRead | BusyRead(_) | WinnerRead | LateRead => true case _ => false
    ensures Explains(Step(s, p, c).PhaseOf(p), seen + See(s, p, c))
  {
    if s.file.Valid? && !c.unreadable {
      KeyEnds(seen, s.file.key);
      assert Step(s, p, c).PhaseOf(p) == Returned(s.file.key);
    } else {
      VainExplains(s.PhaseOf(p), seen);
      assert Step(s, p, c).PhaseOf(p) == AfterRead(s.PhaseOf(p));
    }
  }

  lemma VainExplains(phase: Phase, seen: seq<Seen>)
    requires phase.FirstRead? || phase.BusyRead? || phase.WinnerRead? || phase.LateRead?
    requires Explains(phase, seen)
    ensures Explains(AfterRead(phase), seen + [Vain])
  {
    match phase
    case FirstRead => assert [] + [Vain] == Waits(0);
    case BusyRead(n) => WaitsMore(n);
    case WinnerRead =>
    case LateRead => assert Waits(50) + [Vain, Busy] + [Vain] == Waits(50) + [Vain, Busy, Vain];
  }

  lemma OpenExplains(s: State, p: nat, c: Choice, seen: seq<Seen>)
    requires Explains(s.PhaseOf(p), seen) && (s.PhaseOf(p).TryLock? || s.PhaseOf(p).LastTry?) && !c.crash
    ensures Explains(Step(s, p, c).PhaseOf(p), seen + See(s, p, c))
  {
    LockedAfterWaiting(seen);
    assert Waits(50) + [Vain] + [Busy] == Waits(50) + [Vain, Busy];
  }

  lemma CheckExplains(s: State, p: nat, c: Choice, seen: seq<Seen>)
    requires Explains(s.PhaseOf(p), seen) && s.PhaseOf(p).HoldsLock? && !c.crash
    ensures Explains(Step(s, p, c).PhaseOf(p), seen + See(s, p, c))
  {
    if s.file.Valid? && !c.unreadable {
      KeyEnds(seen, s.file.key);
      assert Step(s, p, c).PhaseOf(p) == Releasing(Some(s.file.key));
    } else {
      LongerRest(seen, [Locked], Vain);
      assert [Locked] + [Vain] == [Locked, Vain];
      assert Step(s, p, c).PhaseOf(p) == Minted(c.key);
    }
  }

  lemma MintExplains(s: State, p: nat, c: Choice, seen: seq<Seen>)
    requires Explains(s.PhaseOf(p), seen) && s.PhaseOf(p).Minted? && !c.crash
    ensures Explains(Step(s, p, c).PhaseOf(p), seen + See(s, p, c))
  {
    if c.fault {
      assert Step(s, p, c).PhaseOf(p) == Releasing(None);
    } else {
      LongerRest(seen, [Locked, Vain], Wrote);
      assert [Locked, Vain] + [Wrote] == [Locked, Vain, Wrote] + Busies(0);
      assert Step(s, p, c).PhaseOf(p) == TmpWritten(s.PhaseOf(p).key, 0);
    }
  }

  lemma RenameExplains(s: State, p: nat, c: Choice, seen: seq<Seen>)
    requires Explains(s.PhaseOf(p), seen) && s.PhaseOf(p).TmpWritten? && !c.crash
    ensures Explains(Step(s, p, c).PhaseOf(p), seen + See(s, p, c))
  {
    var n := s.PhaseOf(p).attempt;
    LongerRest(seen, [Locked, Vain, Wrote] + Busies(n), TargetBusy);
    OneBusyMore(n);
  }

  lemma AnyStepExplains(s: State, p: nat, q: nat, c: Choice, seen: seq<Seen>)
    requires Explains(s.PhaseOf(p), seen)
    ensures Explains(Step(s, q, c).PhaseOf(p), seen + if q == p then See(s, p, c) else [])
  {
    if q == p {
      StepExplains(s, p, c, seen);
    } else {
      assert Step(s, q, c).PhaseOf(p) == s.PhaseOf(p) && seen + [] == seen;
    }
  }

  lemma {:induction false} RunExplains(file: KeyFile, lock: bool, events: seq<(nat, Choice)>, p: nat)
    ensures Explains(Run(Init(file, lock), events).PhaseOf(p), Account(Init(file, lock), events, p))
    decreases |events|
  {
    if events != [] {
      var before, last := events[..|events| - 1], events[|events| - 1];
      RunExplains(file, lock, before, p);
      assert events == before + [last];
      RunAppend(Init(file, lock), before, last.0, last.1);
      AnyStepExplains(Run(Init(file, lock), before), p, last.0, last.1, Account(Init(file, lock), before, p));
    }
  }

  /**
   In every run, whatever the others do: a process that throws has had a call of its own fail, or has found the lock
   taken fifty-one times with an unsuccessful look before and after each, or five busy renames; one that returns has
   just read the key it returns, or stored it.
   */
  lemma ThrowsOnlyIf(file: KeyFile, lock: bool, events: seq<(nat, Choice)>, p: nat)
    ensures var phase, seen := Run(Init(file, lock), events).PhaseOf(p), Account(Init(file, lock), events, p);
            (phase.Threw? ==> GivesUp(seen)) && (phase.Returned? ==> EndsWithKey(seen, phase.key))
  {
    RunExplains(file, lock, events, p);
  }

  // ---------------------------------------------------------------- a key that is stored reaches those who wait

  predicate Unfailing(c: Choice) {
    !c.fault && !c.unreadable && !c.crash
  }

  /** How many calls a process needs at most to return a key that is stored, if none of them fails. */
  function CallsLeft(phase: Phase): Option<nat> {
    match phase
    case FirstRead | BusyRead(_) | WinnerRead | LateRead => Some(1)
    case TryLock(_) | LastTry => Some(3)
    case HoldsLock => Some(2)
    case Releasing(Some(_)) => Some(1)
    case Returned(_) => Some(0)
    case _ => None
  }

  function OwnCalls(events: seq<(nat, Choice)>, p: nat): nat
    decreases |events|
  {
    if events == [] then 0 else (if events[0].0 == p then 1 else 0) + OwnCalls(events[1..], p)
  }

  lemma StepBringsNearer(s: State, q: nat, c: Choice, p: nat)
    requires Inv(s) && s.file.Valid? && CallsLeft(s.PhaseOf(p)).Some? && (q == p ==> Unfailing(c))
    ensures var left := CallsLeft(Step(s, q, c).PhaseOf(p));
            left.Some? && left.value <= CallsLeft(s.PhaseOf(p)).value - (if q == p && left.value > 0 then 1 else 0)
  {
  }

  /**
   Once the key is stored, every process that still looks or waits returns it, within three calls of its own, none of
   which fails; whether the lock is held, released, or left behind.
   */
  lemma {:induction false} WaiterReturnsKey(s: State, events: seq<(nat, Choice)>, p: nat)
    requires Inv(s) && ProperRun(s, events) && s.file.Valid? && CallsLeft(s.PhaseOf(p)).Some?
    requires forall k :: 0 <= k < |events| && events[k].0 == p ==> Unfailing(events[k].1)
    requires OwnCalls(events, p) >= CallsLeft(s.PhaseOf(p)).value
    ensures Run(s, events).PhaseOf(p) == Returned(s.file.key)
    decreases |events|
  {
    if events == [] {
      assert p in s.procs && KnowsFile(s, s.procs[p]);
    } else {
      var q, c := events[0].0, events[0].1;
      StepKeepsInv(s, q, c);
      StepKeepsKey(s, q, c);
      assert q == p ==> Unfailing(c);
      StepBringsNearer(s, q, c, p);
      WaiterReturnsKey(Step(s, q, c), events[1..], p);
    }
  }

  // ---------------------------------------------------------------- who is left holding the lock

  /** The lock file stays behind: its holder crashes, or fails to remove it. */
  predicate LeavesLock(s: State, p: nat, c: Choice) {
    s.owner == Some(p) && (c.crash || (s.PhaseOf(p).Releasing? && c.fault))
  }

  predicate LeavesLockAt(s: State, events: seq<(nat, Choice)>, k: nat) {
    k < |events| && LeavesLock(Run(s, events[..k]), events[k].0, events[k].1)
  }

  lemma {:induction false} RunFreesLock(s: State, events: seq<(nat, Choice)>)
    requires LockKept(s)
    ensures LockKept(Run(s, events))
    ensures Run(s, events).lock && Run(s, events).owner.None? ==>
              (s.lock && s.owner.None?) || exists k: nat :: LeavesLockAt(s, events, k)
    decreases |events|
  {
    if events != [] {
      var s' := Step(s, events[0].0, events[0].1);
      StepFreesLock(s, events[0].0, events[0].1);
      RunFreesLock(s', events[1..]);
      if LeavesLock(s, events[0].0, events[0].1) {
        assert LeavesLockAt(s, events, 0);
      } else if k: nat :| LeavesLockAt(s', events[1..], k) {
        assert events[..k + 1][1..] == events[1..][..k];
        assert LeavesLockAt(s, events, k + 1);
      }
    }
  }

  lemma StepFreesLock(s: State, p: nat, c: Choice)
    requires LockKept(s)
    ensures LockKept(Step(s, p, c))
    ensures Step(s, p, c).lock && Step(s, p, c).owner.None? ==>
              (s.lock && s.owner.None?) || LeavesLock(s, p, c)
  {
  }

  /**
   In every run, garbled reads included: whoever returns or throws has given up the lock, and a lock file that nobody
   holds was there at the start, or its holder crashed, or failed to remove it.
   */
  lemma LockIsFreed(file: KeyFile, lock: bool, events: seq<(nat, Choice)>)
    ensures var s := Run(Init(file, lock), events);
            && (forall p: nat :: Final(s.PhaseOf(p)) ==> s.owner != Some(p))
            && (s.lock && s.owner.None? ==> lock || exists k: nat :: LeavesLockAt(Init(file, lock), events, k))
  {
    RunFreesLock(Init(file, lock), events);
  }

  // ---------------------------------------------------------------- one process

  /** Where a process goes on when readKeyPair finds no key. */
  /**
   One process running the code, with any number of steps of other processes before each system call.
   Of `shared` the code itself looks only at `file` and `lock`; the rest is the account of the run.
   */
  class MockServerProcess {
    const pid: nat
    /** No other process takes a step and none of this one's calls fails. */
    const smooth: bool
    var shared: State
    ghost const start: KeyFile
    ghost const startLock: bool
    ghost var events: seq<(nat, Choice)>

    ghost predicate At(phase: Phase)
      reads this
    {
      shared == Run(Init(start, startLock), events) && shared.PhaseOf(pid) == phase
    }

    constructor (pid: nat, file: KeyFile, lock: bool, smooth: bool)
      ensures At(FirstRead) && start == file && startLock == lock && this.pid == pid && this.smooth == smooth
      ensures shared == Init(file, lock)
    {
      this.pid, this.smooth, shared := pid, smooth, Init(file, lock);
      start, startLock, events := file, lock, [];
    }

    method Others(ghost phase: Phase)
      requires At(phase)
      modifies this
      ensures At(phase) && (smooth ==> shared == old(shared))
    {
      var count: nat := *;
      for i := 0 to (if count > 0 && !smooth then count else 0)
        invariant At(phase) && (smooth ==> shared == old(shared))
      {
        var q: nat := *;
        var c: Choice := *;
        if q != pid {
          RunAppend(Init(start, startLock), events, q, c);
          shared, events := Step(shared, q, c), events + [(q, c)];
        }
      }
    }

    method Own(ghost phase: Phase, c: Choice)
      requires At(phase)
      modifies this
      ensures shared == Step(old(shared), pid, c) && At(shared.PhaseOf(pid))
    {
      RunAppend(Init(start, startLock), events, pid, c);
      shared, events := Step(shared, pid, c), events + [(pid, c)];
    }

    method ReadKeyPair(ghost phase: Phase) returns (key: Option<nat>)
      requires At(phase)
      requires phase.FirstRead? || phase.BusyRead? || phase.WinnerRead? || phase.LateRead?
      modifies this
      ensures key.Some? ==> At(Returned(key.value))
      ensures key.None? ==> At(AfterRead(phase))
      ensures smooth ==> key == (if old(shared).file.Valid? then Some(old(shared).file.key) else None)
      ensures smooth ==> shared.lock == old(shared).lock
    {
      Others(phase);
      var unreadable: bool := *;
      unreadable := unreadable && !smooth;
      var c := Choice(false, false, unreadable, 0, false);
      key := if shared.file.Valid? && !unreadable then Some(shared.file.key) else None;
      Own(phase, c);
    }

    /** One exclusive open of the lock file: created, already there, or another error. */
    method OpenLockFile(ghost phase: Phase, ghost busy: Phase) returns (created: bool, present: bool)
      requires At(phase)
      requires (phase.TryLock? && busy == BusyRead(phase.attempt)) || (phase.LastTry? && busy == LateRead)
      modifies this
      ensures created ==> At(HoldsLock)
      ensures !created && present ==> At(busy)
      ensures !created && !present ==> At(Threw)
      ensures smooth ==> created == !old(shared).lock && present == old(shared).lock
      ensures smooth ==> shared.file == old(shared).file && (present ==> shared.lock)
    {
      Others(phase);
      var fault: bool := *;
      fault := fault && !smooth;
      present := shared.lock && !fault;
      created := !shared.lock && !fault;
      Own(phase, Choice(fault, false, false, 0, false));
    }

    /** Ends with the lock held, or with another process's key, or with an error. */
    method AcquireKeyLock() returns (locked: bool, key: Option<nat>)
      requires At(TryLock(0))
      modifies this
      ensures locked ==> At(HoldsLock) && key.None?
      ensures !locked && key.Some? ==> At(Returned(key.value))
      ensures !locked && key.None? ==> At(Threw) && GivesUp(Account(Init(start, startLock), events, pid))
      ensures smooth && !old(shared).lock ==> locked
      ensures smooth && old(shared).file.Valid? && old(shared).lock ==> !locked && key == Some(old(shared).file.key)
    {
      var present: bool;
      var attempt := 0;
      while attempt < LOCK_ATTEMPTS
        invariant attempt <= LOCK_ATTEMPTS
        invariant At(if attempt < LOCK_ATTEMPTS then TryLock(attempt) else WinnerRead)
        invariant smooth && !old(shared).lock ==> attempt == 0 && !shared.lock
        invariant smooth && old(shared).lock && old(shared).file.Valid? ==>
                    attempt == 0 && shared.lock && shared.file == old(shared).file
      {
        locked, present := OpenLockFile(TryLock(attempt), BusyRead(attempt));
        if locked || !present {
          ThrowsOnlyIf(start, startLock, events, pid);
          return locked, None;
        }
        key := ReadKeyPair(BusyRead(attempt));
        if key.Some? {
          return false, key;
        }
        attempt := attempt + 1;
      }
      key := ReadKeyPair(WinnerRead);
      if key.Some? {
        return false, key;
      }
      locked, present := OpenLockFile(LastTry, LateRead);
      if locked || !present {
        ThrowsOnlyIf(start, startLock, events, pid);
        return locked, None;
      }
      key := ReadKeyPair(LateRead);
      ThrowsOnlyIf(start, startLock, events, pid);
      locked := false;
    }

    /** Writes the key to a temporary file and renames it onto the key file, trying again when it is busy. */
    method PersistKeyPair(key: nat) returns (ok: bool)
      requires At(Minted(key))
      modifies this
      ensures At(Releasing(if ok then Some(key) else None))
      ensures smooth ==> ok
    {
      Others(Minted(key));
      var fault: bool := *;
      fault := fault && !smooth;
      Own(Minted(key), Choice(fault, false, false, 0, false));
      if fault {
        return false;
      }
      var attempt := 0;
      while true
        invariant attempt < RENAME_ATTEMPTS && At(TmpWritten(key, attempt))
        decreases RENAME_ATTEMPTS - attempt
      {
        var again;
        ok, again := RenameOnto(key, attempt);
        if !again {
          return;
        }
        attempt := attempt + 1;
      }
    }

    /** One attempt at the rename; a busy target is worth another but for the last time. */
    method RenameOnto(key: nat, attempt: nat) returns (ok: bool, again: bool)
      requires attempt < RENAME_ATTEMPTS && At(TmpWritten(key, attempt))
      modifies this
      ensures again ==> attempt + 1 < RENAME_ATTEMPTS && At(TmpWritten(key, attempt + 1))
      ensures !again ==> At(Releasing(if ok then Some(key) else None))
      ensures smooth ==> ok && !again
    {
      Others(TmpWritten(key, attempt));
      var fault: bool := *;
      fault := fault && !smooth;
      var busy: bool := *;
      Own(TmpWritten(key, attempt), Choice(fault, busy, false, 0, false));
      ok := !fault;
      again := fault && busy && attempt + 1 < RENAME_ATTEMPTS;
    }

    /** Returns a key, or None where the code throws. */
    method LoadOrCreate() returns (key: Option<nat>)
      requires At(FirstRead)
      modifies this
      ensures key.Some? ==> At(Returned(key.value))
      ensures key.None? ==> At(Threw) && GivesUp(Account(Init(start, startLock), events, pid))
      ensures key.Some? && ProperRun(Init(start, startLock), events) ==> shared.file == Valid(key.value)
      ensures smooth && !old(shared).lock ==> key.Some?
      ensures smooth && old(shared).file.Valid? ==> key == Some(old(shared).file.key)
    {
      key := ReadKeyPair(FirstRead);
      if key.None? {
        var locked;
        locked, key := AcquireKeyLock();
        if locked {
          key := LoadOrCreateLocked();
        }
      }
      ThrowsOnlyIf(start, startLock, events, pid);
      if key.Some? && ProperRun(Init(start, startLock), events) {
        AllReturnTheSameKey(start, startLock, events);
      }
    }

    method LoadOrCreateLocked() returns (selected: Option<nat>)
      requires At(HoldsLock)
      modifies this
      ensures selected.Some? ==> At(Returned(selected.value))
      ensures selected.None? ==> At(Threw)
      ensures smooth ==> selected.Some?
    {
      var minted;
      selected, minted := ReadUnderLock();
      if selected.None? {
        var ok := PersistKeyPair(minted);
        selected := if ok then Some(minted) else None;
      }
      ReleaseKeyLock(selected);
    }

    /** The second look at the key file, and a new key in case it shows none. */
    method ReadUnderLock() returns (selected: Option<nat>, minted: nat)
      requires At(HoldsLock)
      modifies this
      ensures selected.Some? ==> At(Releasing(selected))
      ensures selected.None? ==> At(Minted(minted))
    {
      Others(HoldsLock);
      var unreadable: bool := *;
      minted := *;
      selected := if shared.file.Valid? && !unreadable then Some(shared.file.key) else None;
      Own(HoldsLock, Choice(false, false, unreadable, minted, false));
    }

    method ReleaseKeyLock(selected: Option<nat>)
      requires At(Releasing(selected))
      modifies this
      ensures At(if selected.Some? then Returned(selected.value) else Threw)
    {
      Others(Releasing(selected));
      var unlinkFails: bool := *;
      Own(Releasing(selected), Choice(unlinkFails, false, false, 0, false));
    }
  }
}
