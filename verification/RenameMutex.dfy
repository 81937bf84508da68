/**
 Renames that take turns by destination parent, so that none overwrites an existing destination
 (src/main/destination-serialized-local-rename.ts, with the check of src/shared/filesystem-rename-collision.ts).
 */
module RenameMutex {
  import opened DirTree
  import opened Wrappers

  /**
   Where a call stands between its awaits.  `Comparing` holds what `lstat` found at the destination;
   `Renaming` holds the file that source and destination were both judged to be, if the check had to judge.
   */
  datatype Phase = Waiting | Looking | Comparing(found: Inode) | Renaming(agreed: Option<Inode>) | Finished

  datatype Call = Call(key: Path, source: Place, target: Place, previous: Option<nat>, phase: Phase)

  /** A call that has read its key and not yet registered. */
  datatype Arrival = Arrival(key: Path, source: Place, target: Place)

  /** Calls stand in the order in which they registered. */
  datatype State = State(tree: Tree, arrived: seq<Arrival>, pending: map<Path, nat>, calls: seq<Call>)

  /** The text of a path without its `..`. */
  function Normalized(path: Path): Path {
    if path == [] then []
    else
      var parent := Normalized(path[..|path| - 1]);
      if path[|path| - 1] != ".." then parent + [path[|path| - 1]]
      else if parent == [] then [] else parent[..|parent| - 1]
  }

  /** The real path of the destination's parent, or its text if there is no such parent; other failures throw. */
  function ParentKey(t: Tree, target: Place): Option<Path> {
    match RealPath(t, target.parent)
    case Resolved(at) => Some(Names(at))
    case Missing(_) => Some(Normalized(target.parent))
    case Broken => None
  }

  function Key(s: State, id: nat): Path
    requires id < |s.calls|
  {
    s.calls[id].key
  }

  function InPhase(s: State, id: nat, phase: Phase): State
    requires id < |s.calls|
  {
    s.(calls := s.calls[id := s.calls[id].(phase := phase)])
  }

  /** The `finally` block: waiters may go on, and the key is dropped unless a later call has taken it over. */
  function Release(s: State, id: nat): State
    requires id < |s.calls|
  {
    var k := Key(s, id);
    var s' := InPhase(s, id, Finished);
    if k in s.pending && s.pending[k] == id then s'.(pending := s.pending - {k}) else s'
  }

  /** In `Register`, `k` is the arrival whose await of its key ends next. */
  datatype Event =
    | Arrive(source: Place, target: Place, fails: bool)
    | Register(k: nat)
    | Resume(id: nat)
    | LookUp(id: nat, fails: bool)
    | Compare(id: nat, judgedSame: bool, fails: bool)
    | Rename(id: nat, fails: bool)
    | Outside(tree: Tree)

  predicate Ready(s: State, id: nat) {
    && id < |s.calls| && s.calls[id].phase.Waiting?
    && (s.calls[id].previous.Some? ==>
          s.calls[id].previous.value < |s.calls| && s.calls[s.calls[id].previous.value].phase.Finished?)
  }

  predicate Enabled(s: State, e: Event) {
    match e
    case Arrive(_, _, _) => true
    case Register(k) => k < |s.arrived|
    case Resume(id) => Ready(s, id)
    case LookUp(id, _) => id < |s.calls| && s.calls[id].phase.Looking?
    case Compare(id, _, _) => id < |s.calls| && s.calls[id].phase.Comparing?
    case Rename(id, _) => id < |s.calls| && s.calls[id].phase.Renaming?
    case Outside(_) => true
  }

  function AfterArrive(s: State, source: Place, target: Place, fails: bool): State {
    var key := ParentKey(s.tree, target);
    if fails || key.None? then s else s.(arrived := s.arrived + [Arrival(key.value, source, target)])
  }

  function AfterRegister(s: State, k: nat): State
    requires k < |s.arrived|
  {
    var Arrival(key, source, target) := s.arrived[k];
    var previous := if key in s.pending then Some(s.pending[key]) else None;
    s.(arrived := s.arrived[..k] + s.arrived[k + 1..],
       pending := s.pending[key := |s.calls|],
       calls := s.calls + [Call(key, source, target, previous, Waiting)])
  }

  function AfterLookUp(s: State, id: nat, fails: bool): State
    requires id < |s.calls|
  {
    var target := s.calls[id].target;
    if fails || Locate(s.tree, target).Unreachable? then Release(s, id)
    else if !Present(s.tree, target) then InPhase(s, id, Renaming(None))
    else InPhase(s, id, Comparing(InodeAt(s.tree, target)))
  }

  /** `judgedSame` is the verdict on the two full paths; it counts only for one file under one parent path. */
  function AfterCompare(s: State, id: nat, judgedSame: bool, fails: bool): State
    requires id < |s.calls| && s.calls[id].phase.Comparing?
  {
    var call := s.calls[id];
    if fails || !Present(s.tree, call.source) then Release(s, id)
    else if && InodeAt(s.tree, call.source) == call.phase.found
            && call.source.parent == call.target.parent
            && judgedSame
    then InPhase(s, id, Renaming(Some(call.phase.found)))
    else Release(s, id)
  }

  function AfterRename(s: State, id: nat, fails: bool): State
    requires id < |s.calls|
  {
    var tree := if fails then s.tree else Renamed(s.tree, s.calls[id].source, s.calls[id].target);
    Release(s.(tree := tree), id)
  }

  function Step(s: State, e: Event): State {
    if !Enabled(s, e) then s
    else
      match e
      case Arrive(source, target, fails) => AfterArrive(s, source, target, fails)
      case Register(k) => AfterRegister(s, k)
      case Resume(id) => InPhase(s, id, Looking)
      case LookUp(id, fails) => AfterLookUp(s, id, fails)
      case Compare(id, judgedSame, fails) => AfterCompare(s, id, judgedSame, fails)
      case Rename(id, fails) => AfterRename(s, id, fails)
      case Outside(tree) => s.(tree := tree)
  }

  function Run(s: State, events: seq<Event>): State
    decreases |events|
  {
    if events == [] then s else Run(Step(s, events[0]), events[1..])
  }

  function Initial(tree: Tree): State {
    State(tree, [], map[], [])
  }

  // ---------------------------------------------------------------- taking turns

  predicate Unfinished(s: State, id: nat) {
    id < |s.calls| && !s.calls[id].phase.Finished?
  }

  /** A call that is past its wait comes after none that is unfinished. */
  ghost predicate InTurn(s: State) {
    forall i: nat, j: nat :: j < i < |s.calls| && Key(s, j) == Key(s, i) && !s.calls[i].phase.Waiting? ==>
      s.calls[j].phase.Finished?
  }

  /** The map holds a key exactly while a registered call for it is unfinished, and names the last such call. */
  ghost predicate KeysHeld(s: State) {
    && (forall id: nat :: Unfinished(s, id) ==> Key(s, id) in s.pending)
    && (forall k :: k in s.pending ==> Unfinished(s, s.pending[k]) && Key(s, s.pending[k]) == k)
    && (forall k, id: nat :: k in s.pending && id < |s.calls| && Key(s, id) == k ==> id <= s.pending[k])
  }

  /** Each call awaits the last one registered before it for its key, or nothing if all those are done. */
  ghost predicate Chained(s: State) {
    && (forall i: nat, j: nat :: j < i < |s.calls| && Key(s, j) == Key(s, i) ==> Linked(s, i, j))
    && (forall i: nat :: i < |s.calls| && s.calls[i].previous.Some? ==>
          s.calls[i].previous.value < i && Key(s, s.calls[i].previous.value) == Key(s, i))
  }

  predicate Linked(s: State, i: nat, j: nat)
    requires j < i < |s.calls|
  {
    if s.calls[i].previous.None? then s.calls[j].phase.Finished? else j <= s.calls[i].previous.value
  }

  ghost predicate Inv(s: State) {
    InTurn(s) && KeysHeld(s) && Chained(s)
  }

  /** A call that moves on without finishing, once it is its turn. */
  lemma AdvanceKeeps(s: State, id: nat, phase: Phase)
    requires Inv(s) && Unfinished(s, id) && !phase.Waiting? && !phase.Finished?
    requires !s.calls[id].phase.Waiting? || Ready(s, id)
    ensures Inv(InPhase(s, id, phase))
  {
    TurnComes(s, id);
    AdvanceInTurn(s, id, phase);
    SameUnfinishedKeepsKeys(s, InPhase(s, id, phase));
    FinishedKeepsChains(s, InPhase(s, id, phase));
  }

  lemma TurnComes(s: State, id: nat)
    requires Inv(s) && Unfinished(s, id) && (!s.calls[id].phase.Waiting? || Ready(s, id))
    ensures forall j: nat :: j < id && Key(s, j) == Key(s, id) ==> s.calls[j].phase.Finished?
  {
    forall j: nat | j < id && Key(s, j) == Key(s, id)
      ensures s.calls[j].phase.Finished?
    {
    }
  }

  lemma AdvanceInTurn(s: State, id: nat, phase: Phase)
    requires InTurn(s) && Unfinished(s, id) && !phase.Finished?
    requires forall j: nat :: j < id && Key(s, j) == Key(s, id) ==> s.calls[j].phase.Finished?
    requires !s.calls[id].phase.Waiting? || Ready(s, id)
    ensures InTurn(InPhase(s, id, phase))
  {
    var s' := InPhase(s, id, phase);
    forall i: nat, j: nat | j < i < |s'.calls| && Key(s', j) == Key(s', i) && !s'.calls[i].phase.Waiting?
      ensures s'.calls[j].phase.Finished?
    {
      assert Key(s, j) == Key(s, i);
      if i != id {
        assert s.calls[j].phase.Finished?;
      }
    }
  }

  lemma SameUnfinishedKeepsKeys(s: State, s': State)
    requires KeysHeld(s) && s'.pending == s.pending && |s'.calls| == |s.calls|
    requires forall i: nat :: i < |s.calls| ==> Key(s', i) == Key(s, i) && (Unfinished(s', i) <==> Unfinished(s, i))
    ensures KeysHeld(s')
  {
  }

  /** Calls that finish do not upset what the others await. */
  lemma FinishedKeepsChains(s: State, s': State)
    requires Chained(s) && |s'.calls| == |s.calls|
    requires forall i: nat :: i < |s.calls| ==>
      Key(s', i) == Key(s, i) && s'.calls[i].previous == s.calls[i].previous
      && (s.calls[i].phase.Finished? ==> s'.calls[i].phase.Finished?)
    ensures Chained(s')
  {
    forall i: nat, j: nat | j < i < |s'.calls| && Key(s', j) == Key(s', i)
      ensures Linked(s', i, j)
    {
      assert Key(s, j) == Key(s, i) && Linked(s, i, j);
    }
  }

  lemma ReleaseKeeps(s: State, id: nat)
    requires Inv(s) && Unfinished(s, id) && !s.calls[id].phase.Waiting?
    ensures Inv(Release(s, id))
  {
    FinishedKeepsChains(s, Release(s, id));
    ReleaseKeepsKeys(s, id);
    ReleaseInTurn(s, id);
  }

  lemma ReleaseInTurn(s: State, id: nat)
    requires InTurn(s) && Unfinished(s, id) && !s.calls[id].phase.Waiting?
    ensures InTurn(Release(s, id))
  {
    var s' := Release(s, id);
    forall i: nat, j: nat | j < i < |s'.calls| && Key(s', j) == Key(s', i) && !s'.calls[i].phase.Waiting?
      ensures s'.calls[j].phase.Finished?
    {
      assert Key(s, j) == Key(s, i);
    }
  }

  lemma ReleaseKeepsKeys(s: State, id: nat)
    requires InTurn(s) && KeysHeld(s) && Unfinished(s, id) && !s.calls[id].phase.Waiting?
    ensures KeysHeld(Release(s, id))
  {
    OthersStillHold(s, id);
    HoldersGoOn(s, id);
    var s' := Release(s, id);
    assert forall i: nat :: i < |s.calls| ==> Key(s', i) == Key(s, i);
  }

  lemma OthersStillHold(s: State, id: nat)
    requires InTurn(s) && KeysHeld(s) && Unfinished(s, id) && !s.calls[id].phase.Waiting?
    ensures var s' := Release(s, id); forall i: nat :: Unfinished(s', i) ==> Key(s', i) in s'.pending
  {
    var s' := Release(s, id);
    forall i: nat | Unfinished(s', i)
      ensures Key(s', i) in s'.pending
    {
      assert s'.calls[i] == s.calls[i] && i != id && Unfinished(s, i);
      if Key(s, i) == Key(s, id) {
        assert id < i <= s.pending[Key(s, id)];
      }
    }
  }

  lemma HoldersGoOn(s: State, id: nat)
    requires KeysHeld(s) && Unfinished(s, id)
    ensures var s' := Release(s, id);
            forall k :: k in s'.pending ==> Unfinished(s', s'.pending[k]) && Key(s', s'.pending[k]) == k
  {
    var s' := Release(s, id);
    forall k | k in s'.pending
      ensures Unfinished(s', s'.pending[k]) && Key(s', s'.pending[k]) == k
    {
      assert Unfinished(s, s.pending[k]) && Key(s, s.pending[k]) == k;
      assert s'.calls[s.pending[k]] == s.calls[s.pending[k]];
    }
  }

  lemma OnlyCallsMatter(s: State, s': State)
    requires Inv(s) && s'.calls == s.calls && s'.pending == s.pending
    ensures Inv(s')
  {
    SameUnfinishedKeepsKeys(s, s');
    FinishedKeepsChains(s, s');
    assert InTurn(s') by {
      forall i: nat, j: nat | j < i < |s'.calls| && Key(s', j) == Key(s', i) && !s'.calls[i].phase.Waiting?
        ensures s'.calls[j].phase.Finished?
      {
        assert Key(s, j) == Key(s, i);
      }
    }
  }

  lemma RegisterKeeps(s: State, k: nat)
    requires Inv(s) && k < |s.arrived|
    ensures Inv(AfterRegister(s, k))
  {
    RegisterInTurn(s, k);
    RegisterKeepsKeys(s, k);
    RegisterKeepsChains(s, k);
  }

  lemma RegisterInTurn(s: State, k: nat)
    requires InTurn(s) && k < |s.arrived|
    ensures InTurn(AfterRegister(s, k))
  {
    var s' := AfterRegister(s, k);
    forall i: nat, j: nat | j < i < |s'.calls| && Key(s', j) == Key(s', i) && !s'.calls[i].phase.Waiting?
      ensures s'.calls[j].phase.Finished?
    {
      assert Key(s, j) == Key(s, i);
    }
  }

  lemma RegisterKeepsKeys(s: State, k: nat)
    requires KeysHeld(s) && k < |s.arrived|
    ensures KeysHeld(AfterRegister(s, k))
  {
    var s' := AfterRegister(s, k);
    assert forall i: nat :: i < |s.calls| ==> Key(s', i) == Key(s, i);
    assert forall i: nat :: Unfinished(s', i) <==> Unfinished(s, i) || i == |s.calls|;
  }

  lemma RegisterKeepsChains(s: State, k: nat)
    requires KeysHeld(s) && Chained(s) && k < |s.arrived|
    ensures Chained(AfterRegister(s, k))
  {
    var s' := AfterRegister(s, k);
    var key := s.arrived[k].key;
    forall i: nat, j: nat | j < i < |s'.calls| && Key(s', j) == Key(s', i)
      ensures Linked(s', i, j)
    {
      assert s'.calls[j] == s.calls[j] && Key(s, j) == Key(s', j);
      if i < |s.calls| {
        assert s'.calls[i] == s.calls[i] && Key(s, i) == Key(s', i);
        assert Linked(s, i, j);
      } else if key in s.pending {
        assert j <= s.pending[key];
      } else {
        assert !Unfinished(s, j);
      }
    }
  }

  lemma LookUpKeeps(s: State, id: nat, fails: bool)
    requires Inv(s) && id < |s.calls| && s.calls[id].phase.Looking?
    ensures Inv(AfterLookUp(s, id, fails))
  {
    var phase := AfterLookUp(s, id, fails).calls[id].phase;
    if phase.Finished? {
      ReleaseKeeps(s, id);
    } else {
      AdvanceKeeps(s, id, phase);
    }
  }

  lemma CompareKeeps(s: State, id: nat, judgedSame: bool, fails: bool)
    requires Inv(s) && id < |s.calls| && s.calls[id].phase.Comparing?
    ensures Inv(AfterCompare(s, id, judgedSame, fails))
  {
    var phase := AfterCompare(s, id, judgedSame, fails).calls[id].phase;
    if phase.Finished? {
      ReleaseKeeps(s, id);
    } else {
      AdvanceKeeps(s, id, phase);
    }
  }

  lemma StepKeeps(s: State, e: Event)
    requires Inv(s)
    ensures Inv(Step(s, e))
  {
    if Enabled(s, e) {
      match e
      case Arrive(_, _, _) => OnlyCallsMatter(s, Step(s, e));
      case Register(k) => RegisterKeeps(s, k);
      case Resume(id) => AdvanceKeeps(s, id, Looking);
      case LookUp(id, fails) => LookUpKeeps(s, id, fails);
      case Compare(id, judgedSame, fails) => CompareKeeps(s, id, judgedSame, fails);
      case Rename(id, fails) =>
        var tree := AfterRename(s, id, fails).tree;
        OnlyCallsMatter(s, s.(tree := tree));
        ReleaseKeeps(s.(tree := tree), id);
      case Outside(tree) => OnlyCallsMatter(s, s.(tree := tree));
    }
  }

  lemma {:induction false} RunKeeps(s: State, events: seq<Event>)
    requires Inv(s)
    ensures Inv(Run(s, events))
    decreases |events|
  {
    if events != [] {
      StepKeeps(s, events[0]);
      RunKeeps(Step(s, events[0]), events[1..]);
    }
  }

  /**
   In every run, whatever others do to the files: calls for one destination parent work one at a time, in the
   order in which they registered, and the map holds exactly the keys that still have work.
   */
  lemma RenamesTakeTurns(tree: Tree, events: seq<Event>)
    ensures var s := Run(Initial(tree), events);
            && InTurn(s)
            && (forall i: nat, j: nat :: Working(s, i) && Working(s, j) && Key(s, i) == Key(s, j) ==> i == j)
            && (forall k :: k in s.pending <==> exists id: nat :: Unfinished(s, id) && Key(s, id) == k)
  {
    RunKeeps(Initial(tree), events);
    var s := Run(Initial(tree), events);
    forall i: nat, j: nat | Working(s, i) && Working(s, j) && Key(s, i) == Key(s, j)
      ensures i == j
    {
    }
  }

  predicate Working(s: State, id: nat) {
    Unfinished(s, id) && !s.calls[id].phase.Waiting?
  }

  /** No call is stuck: the first unfinished one of its key can take a step of its own. */
  lemma {:induction false} SomeoneCanMove(s: State, id: nat) returns (first: nat)
    requires Inv(s) && Unfinished(s, id)
    ensures first <= id && Key(s, first) == Key(s, id) && Unfinished(s, first)
    ensures Ready(s, first) || Working(s, first)
    decreases id
  {
    var previous := s.calls[id].previous;
    if s.calls[id].phase.Waiting? && previous.Some? && !s.calls[previous.value].phase.Finished? {
      first := SomeoneCanMove(s, previous.value);
    } else {
      first := id;
    }
  }

  // ---------------------------------------------------------------- what a call on its own does

  /** All the steps of one call, none of which fails; those that do not come up for it change nothing. */
  function WholeCall(source: Place, target: Place, id: nat, judgedSame: bool): seq<Event> {
    [Arrive(source, target, false), Register(0), Resume(id), LookUp(id, false), Compare(id, judgedSame, false)]
  }

  /** Where a call stands when it is about to rename, or has thrown. */
  function Verdict(t: Tree, source: Place, target: Place, judgedSame: bool): Phase {
    match Locate(t, target)
    case Unreachable => Finished
    case Nowhere => Renaming(None)
    case At(entry) =>
      if entry !in t.names then Renaming(None)
      else if judgedSame && source.parent == target.parent && SameInode(t, source, target)
      then Renaming(Some(t.names[entry]))
      else Finished
  }

  /**
   A call that meets no other goes on to its rename if and only if nothing is at the destination, or what is there is
   the very file to be renamed, in the same folder and judged the same, such as under another case.
   */
  lemma LoneCallGoesThroughIff(s: State, source: Place, target: Place, key: Path, judgedSame: bool)
    requires s.arrived == [] && ParentKey(s.tree, target) == Some(key) && key !in s.pending
    ensures var id := |s.calls|;
            var s' := Run(s, WholeCall(source, target, id, judgedSame));
            && s'.tree == s.tree && s'.arrived == []
            && s'.calls == s.calls + [Call(key, source, target, None, Verdict(s.tree, source, target, judgedSame))]
            && s'.pending == (if s'.calls[id].phase.Finished? then s.pending else s.pending[key := id])
  {
    var id := |s.calls|;
    var s1 := Step(s, Arrive(source, target, false));
    assert s1 == s.(arrived := [Arrival(key, source, target)]);
    var s2 := Step(s1, Register(0));
    assert s2.arrived == [] && s2.calls == s.calls + [Call(key, source, target, None, Waiting)];
    var s3 := Step(s2, Resume(id));
    assert s3.calls == s.calls + [Call(key, source, target, None, Looking)];
    var s4 := Step(s3, LookUp(id, false));
    LoneLookUp(s, s3, source, target, key);
    var s5 := Step(s4, Compare(id, judgedSame, false));
    LoneCompare(s, s4, source, target, key, judgedSame);
    RunOfFive(s, Arrive(source, target, false), Register(0), Resume(id), LookUp(id, false),
              Compare(id, judgedSame, false));
  }

  predicate LoneState(s: State, now: State, source: Place, target: Place, key: Path, phase: Phase) {
    && now.tree == s.tree && now.arrived == []
    && now.calls == s.calls + [Call(key, source, target, None, phase)]
    && now.pending == (if phase.Finished? then s.pending else s.pending[key := |s.calls|])
  }

  lemma LoneLookUp(s: State, now: State, source: Place, target: Place, key: Path)
    requires key !in s.pending && LoneState(s, now, source, target, key, Looking)
    ensures LoneState(s, Step(now, LookUp(|s.calls|, false)), source, target, key,
                      if Locate(s.tree, target).Unreachable? then Finished
                      else if Present(s.tree, target) then Comparing(InodeAt(s.tree, target)) else Renaming(None))
  {
    assert s.pending[key := |s.calls|] - {key} == s.pending;
  }

  lemma LoneCompare(s: State, now: State, source: Place, target: Place, key: Path, judgedSame: bool)
    requires key !in s.pending
    requires LoneState(s, now, source, target, key,
                       if Locate(s.tree, target).Unreachable? then Finished
                       else if Present(s.tree, target) then Comparing(InodeAt(s.tree, target)) else Renaming(None))
    ensures LoneState(s, Step(now, Compare(|s.calls|, judgedSame, false)), source, target, key,
                      Verdict(s.tree, source, target, judgedSame))
  {
    assert s.pending[key := |s.calls|] - {key} == s.pending;
  }

  /** Then it renames, as rename(2) does, and is done; whatever fails before changes no file. */
  lemma LastStepOfCall(s: State, id: nat, fails: bool)
    requires id < |s.calls| && s.calls[id].phase.Renaming?
    ensures var s' := Step(s, Rename(id, fails));
            && s'.tree == (if fails then s.tree else Renamed(s.tree, s.calls[id].source, s.calls[id].target))
            && s'.calls[id].phase == Finished && !(Key(s, id) in s'.pending && s'.pending[Key(s, id)] == id)
            && forall other: nat :: other < |s.calls| && other != id ==> s'.calls[other] == s.calls[other]
  {
  }

  lemma FailedLooksChangeNothing(s: State, id: nat, judgedSame: bool)
    requires id < |s.calls|
    ensures s.calls[id].phase.Looking? ==> Step(s, LookUp(id, true)) == Release(s, id)
    ensures s.calls[id].phase.Comparing? ==> Step(s, Compare(id, judgedSame, true)) == Release(s, id)
    ensures Release(s, id).tree == s.tree && Release(s, id).calls[id].phase.Finished?
  {
  }

  lemma RunOfFive(s: State, a: Event, b: Event, c: Event, d: Event, e: Event)
    ensures Run(s, [a, b, c, d, e]) == Step(Step(Step(Step(Step(s, a), b), c), d), e)
  {
    assert [a, b, c, d, e][1..] == [b, c, d, e];
    RunOfFour(Step(s, a), b, c, d, e);
  }

  /** The text of a missing parent without its `..`, so that one such parent has one text. */
  lemma {:induction false} NormalizedText(path: Path)
    ensures ".." !in Normalized(path) && (".." !in path ==> Normalized(path) == path)
    ensures forall name :: name != ".." ==> Normalized(path + [name]) == Normalized(path) + [name]
    ensures forall name :: name != ".." ==> Normalized(path + [name] + [".."]) == Normalized(path)
    ensures Normalized([".."]) == []
    decreases |path|
  {
    if path != [] {
      NormalizedText(path[..|path| - 1]);
      assert path == path[..|path| - 1] + [path[|path| - 1]];
    }
    forall name | name != ".."
      ensures Normalized(path + [name]) == Normalized(path) + [name]
      ensures Normalized(path + [name] + [".."]) == Normalized(path)
    {
      var longer := path + [name] + [".."];
      assert (path + [name])[..|path|] == path && longer[..|longer| - 1] == path + [name];
      assert (Normalized(path) + [name])[..|Normalized(path)|] == Normalized(path);
    }
    assert [".."][..0] == [];
  }

  // ---------------------------------------------------------------- overwriting nothing

  /** Where the destination's parent is a directory, the key is its real path. */
  predicate KeyHolds(t: Tree, target: Place, key: Path) {
    DirOf(t, target.parent).Some? ==> Names(DirOf(t, target.parent).value) == key
  }

  /** What a call has found out about the tree still holds, unless somebody took something away. */
  predicate PhaseHolds(t: Tree, call: Call) {
    match call.phase
    case Comparing(found) => Present(t, call.target) ==> InodeAt(t, call.target) == found
    case Renaming(None) => !Present(t, call.target)
    case Renaming(Some(file)) =>
      && call.source.parent == call.target.parent
      && (Present(t, call.target) ==> InodeAt(t, call.target) == file)
      && (Present(t, call.source) ==> InodeAt(t, call.source) == file)
    case _ => true
  }

  predicate StillSo(t: Tree, call: Call) {
    call.phase.Finished? || (KeyHolds(t, call.target, call.key) && PhaseHolds(t, call))
  }

  ghost predicate AllStillSo(s: State) {
    && UniqueDirs(s.tree)
    && (forall k: nat :: k < |s.arrived| ==> KeyHolds(s.tree, s.arrived[k].target, s.arrived[k].key))
    && (forall id: nat :: id < |s.calls| ==> StillSo(s.tree, s.calls[id]))
  }

  predicate HasLooked(phase: Phase) {
    phase.Comparing? || phase.Renaming?
  }

  /** The destination's parent has come into being only now: under another key, or after the look-up. */
  predicate Misled(before: Tree, after: Tree, target: Place, key: Path, looked: bool) {
    Opens(before, after, target.parent) && (looked || !KeyHolds(after, target, key))
  }

  /** No writer from outside, and no rename that misleads another call. */
  ghost predicate CalmStep(s: State, e: Event) {
    && !e.Outside?
    && (e.Rename? && Enabled(s, e) ==>
          && (forall k: nat :: k < |s.arrived| ==>
                !Misled(s.tree, Step(s, e).tree, s.arrived[k].target, s.arrived[k].key, false))
          && (forall id: nat :: Unfinished(s, id) && id != e.id ==>
                !Misled(s.tree, Step(s, e).tree, s.calls[id].target, Key(s, id), HasLooked(s.calls[id].phase))))
  }

  ghost predicate CalmRun(s: State, events: seq<Event>)
    decreases |events|
  {
    events == [] || (CalmStep(s, events[0]) && CalmRun(Step(s, events[0]), events[1..]))
  }

  /** A call that knows the tree overwrites nothing: there is nothing at its destination, or the file it moves. */
  lemma RenameOverwritesNothing(s: State, id: nat)
    requires AllStillSo(s) && id < |s.calls| && s.calls[id].phase.Renaming?
    ensures !Overwrites(s.tree, s.calls[id].source, s.calls[id].target)
    ensures Renamed(s.tree, s.calls[id].source, s.calls[id].target).names.Values == s.tree.names.Values
    ensures UniqueDirs(Renamed(s.tree, s.calls[id].source, s.calls[id].target))
  {
    assert StillSo(s.tree, s.calls[id]);
    var source, target := s.calls[id].source, s.calls[id].target;
    if Moves(s.tree, source, target) {
      MoveKeepsInodes(s.tree, Locate(s.tree, source).entry, Locate(s.tree, target).entry);
      MoveKeepsUniqueDirs(s.tree, Locate(s.tree, source).entry, Locate(s.tree, target).entry);
    }
  }

  /** A move spares what a call knows, unless it misleads the call or lands in the directory the call works in. */
  lemma MoveSpares(t: Tree, from: Entry, to: Entry, call: Call)
    requires from in t.names && to !in t.names && !call.phase.Finished? && StillSo(t, call)
    requires !Misled(t, Moved(t, from, to), call.target, call.key, HasLooked(call.phase))
    requires HasLooked(call.phase) && DirOf(t, call.target.parent).Some? ==>
      End(DirOf(t, call.target.parent).value) != to.dir
    ensures StillSo(Moved(t, from, to), call)
  {
    DirAfterMove(t, from, to, call.target.parent);
  }

  /** Different keys, different directories. */
  lemma ElsewhereByKey(t: Tree, call: Call, other: Call)
    requires UniqueDirs(t) && call.key != other.key
    requires KeyHolds(t, call.target, call.key) && KeyHolds(t, other.target, other.key)
    requires DirOf(t, call.target.parent).Some? && DirOf(t, other.target.parent).Some?
    ensures End(DirOf(t, call.target.parent).value) != End(DirOf(t, other.target.parent).value)
  {
    if End(DirOf(t, call.target.parent).value) == End(DirOf(t, other.target.parent).value) {
      DirsByRealPath(t, call.target.parent, other.target.parent);
    }
  }

  /** One call's rename spares what another knows, if it does not mislead it and both do not work under one key. */
  lemma RenameSpares(t: Tree, mover: Call, call: Call)
    requires UniqueDirs(t) && StillSo(t, mover) && mover.phase.Renaming?
    requires StillSo(t, call) && !call.phase.Finished? && (HasLooked(call.phase) ==> call.key != mover.key)
    requires !Misled(t, Renamed(t, mover.source, mover.target), call.target, call.key, HasLooked(call.phase))
    ensures StillSo(Renamed(t, mover.source, mover.target), call)
  {
    if Moves(t, mover.source, mover.target) {
      if HasLooked(call.phase) && DirOf(t, call.target.parent).Some? {
        ElsewhereByKey(t, mover, call);
      }
      MoveSpares(t, Locate(t, mover.source).entry, Locate(t, mover.target).entry, call);
    }
  }

  lemma RenameSparesOthers(s: State, id: nat, other: nat)
    requires Inv(s) && AllStillSo(s) && id < |s.calls| && s.calls[id].phase.Renaming?
    requires other < |s.calls| && other != id && CalmStep(s, Rename(id, false))
    ensures StillSo(AfterRename(s, id, false).tree, s.calls[other])
  {
    assert StillSo(s.tree, s.calls[id]) && StillSo(s.tree, s.calls[other]);
    if Unfinished(s, other) {
      assert HasLooked(s.calls[other].phase) ==> Key(s, other) != Key(s, id);
      assert Step(s, Rename(id, false)) == AfterRename(s, id, false);
      RenameSpares(s.tree, s.calls[id], s.calls[other]);
    }
  }

  lemma RenameSparesArrivals(s: State, id: nat, k: nat)
    requires AllStillSo(s) && id < |s.calls| && s.calls[id].phase.Renaming?
    requires k < |s.arrived| && CalmStep(s, Rename(id, false))
    ensures KeyHolds(AfterRename(s, id, false).tree, s.arrived[k].target, s.arrived[k].key)
  {
    assert KeyHolds(s.tree, s.arrived[k].target, s.arrived[k].key);
    var source, target := s.calls[id].source, s.calls[id].target;
    if Moves(s.tree, source, target) {
      RenameOverwritesNothing(s, id);
      DirAfterMove(s.tree, Locate(s.tree, source).entry, Locate(s.tree, target).entry, s.arrived[k].target.parent);
    }
  }

  lemma RenameStillSo(s: State, id: nat)
    requires Inv(s) && AllStillSo(s) && id < |s.calls| && s.calls[id].phase.Renaming?
    requires CalmStep(s, Rename(id, false))
    ensures AllStillSo(AfterRename(s, id, false))
  {
    var s' := AfterRename(s, id, false);
    RenameOverwritesNothing(s, id);
    forall other: nat | other < |s.calls|
      ensures StillSo(s'.tree, s'.calls[other])
    {
      if other != id {
        RenameSparesOthers(s, id, other);
      }
    }
    forall k: nat | k < |s.arrived|
      ensures KeyHolds(s'.tree, s.arrived[k].target, s.arrived[k].key)
    {
      RenameSparesArrivals(s, id, k);
    }
  }

  /** A call that moves on with what it has just found, or finishes. */
  lemma CallStepStillSo(s: State, s': State, id: nat)
    requires AllStillSo(s) && id < |s.calls| == |s'.calls|
    requires s'.tree == s.tree && s'.arrived == s.arrived && StillSo(s.tree, s'.calls[id])
    requires forall other: nat :: other < |s.calls| && other != id ==> s'.calls[other] == s.calls[other]
    ensures AllStillSo(s')
  {
    forall other: nat | other < |s'.calls|
      ensures StillSo(s'.tree, s'.calls[other])
    {
      assert StillSo(s.tree, s.calls[other]);
    }
  }

  lemma ArrivalStillSo(s: State, source: Place, target: Place, fails: bool)
    requires AllStillSo(s)
    ensures AllStillSo(AfterArrive(s, source, target, fails))
  {
  }

  lemma RegisterStillSo(s: State, k: nat)
    requires AllStillSo(s) && k < |s.arrived|
    ensures AllStillSo(AfterRegister(s, k))
  {
    var s' := AfterRegister(s, k);
    forall other: nat | other < |s'.calls|
      ensures StillSo(s'.tree, s'.calls[other])
    {
      if other < |s.calls| {
        assert StillSo(s.tree, s.calls[other]);
      } else {
        assert KeyHolds(s.tree, s.arrived[k].target, s.arrived[k].key);
      }
    }
    forall j: nat | j < |s'.arrived|
      ensures KeyHolds(s'.tree, s'.arrived[j].target, s'.arrived[j].key)
    {
      assert s'.arrived[j] == s.arrived[if j < k then j else j + 1];
    }
  }

  lemma StepStillSo(s: State, e: Event)
    requires Inv(s) && AllStillSo(s) && Enabled(s, e) && CalmStep(s, e)
    ensures AllStillSo(Step(s, e)) && Step(s, e).tree.names.Values == s.tree.names.Values
  {
    match e
    case Arrive(source, target, fails) => ArrivalStillSo(s, source, target, fails);
    case Register(k) => RegisterStillSo(s, k);
    case Resume(id) => ResumeStillSo(s, id);
    case LookUp(id, fails) => LookUpStillSo(s, id, fails);
    case Compare(id, judgedSame, fails) => CompareStillSo(s, id, judgedSame, fails);
    case Rename(id, fails) => RenameEndsStillSo(s, id, fails);
  }

  lemma RenameEndsStillSo(s: State, id: nat, fails: bool)
    requires Inv(s) && AllStillSo(s) && id < |s.calls| && s.calls[id].phase.Renaming?
    requires CalmStep(s, Rename(id, fails))
    ensures AllStillSo(AfterRename(s, id, fails))
    ensures AfterRename(s, id, fails).tree.names.Values == s.tree.names.Values
  {
    if fails {
      CallStepStillSo(s, Release(s, id), id);
    } else {
      RenameOverwritesNothing(s, id);
      RenameStillSo(s, id);
    }
  }

  lemma ResumeStillSo(s: State, id: nat)
    requires AllStillSo(s) && Ready(s, id)
    ensures AllStillSo(InPhase(s, id, Looking))
  {
    assert StillSo(s.tree, s.calls[id]);
    CallStepStillSo(s, InPhase(s, id, Looking), id);
  }

  lemma LookUpStillSo(s: State, id: nat, fails: bool)
    requires AllStillSo(s) && id < |s.calls| && s.calls[id].phase.Looking?
    ensures AllStillSo(AfterLookUp(s, id, fails))
  {
    assert StillSo(s.tree, s.calls[id]);
    CallStepStillSo(s, AfterLookUp(s, id, fails), id);
  }

  lemma CompareStillSo(s: State, id: nat, judgedSame: bool, fails: bool)
    requires AllStillSo(s) && id < |s.calls| && s.calls[id].phase.Comparing?
    ensures AllStillSo(AfterCompare(s, id, judgedSame, fails))
  {
    assert StillSo(s.tree, s.calls[id]);
    CallStepStillSo(s, AfterCompare(s, id, judgedSame, fails), id);
  }

  lemma {:induction false} RunStillSo(s: State, events: seq<Event>)
    requires Inv(s) && AllStillSo(s) && CalmRun(s, events)
    ensures AllStillSo(Run(s, events)) && Run(s, events).tree.names.Values == s.tree.names.Values
    decreases |events|
  {
    if events != [] {
      StepKeeps(s, events[0]);
      if Enabled(s, events[0]) {
        StepStillSo(s, events[0]);
      }
      RunStillSo(Step(s, events[0]), events[1..]);
    }
  }

  /**
   Whatever is renamed, directories and links included: in a calm run no rename overwrites anything, so no file or
   directory is lost.
   */
  lemma NoFileIsLost(tree: Tree, events: seq<Event>)
    requires UniqueDirs(tree) && CalmRun(Initial(tree), events)
    ensures var s := Run(Initial(tree), events);
            && s.tree.names.Values == tree.names.Values
            && (forall id: nat :: id < |s.calls| && s.calls[id].phase.Renaming? ==>
                  !Overwrites(s.tree, s.calls[id].source, s.calls[id].target))
  {
    RunKeeps(Initial(tree), events);
    RunStillSo(Initial(tree), events);
    var s := Run(Initial(tree), events);
    forall id: nat | id < |s.calls| && s.calls[id].phase.Renaming?
      ensures !Overwrites(s.tree, s.calls[id].source, s.calls[id].target)
    {
      RenameOverwritesNothing(s, id);
    }
  }

  // ---------------------------------------------------------------- which runs are calm

  /** A rename is calm if no other call's destination parent was found missing at the very place it renames to. */
  lemma ElsewhereIsCalm(s: State, id: nat)
    requires AllStillSo(s) && id < |s.calls| && s.calls[id].phase.Renaming?
    requires Locate(s.tree, s.calls[id].target).At? ==>
      var to := Missing(Locate(s.tree, s.calls[id].target).entry);
      && (forall k: nat :: k < |s.arrived| ==> RealPath(s.tree, s.arrived[k].target.parent) != to)
      && (forall other: nat :: Unfinished(s, other) && other != id ==>
            RealPath(s.tree, s.calls[other].target.parent) != to)
    ensures CalmStep(s, Rename(id, false))
  {
    RenameOpens(s, id);
  }

  /** A rename opens a way only where the path ended at its destination, and only by a directory or a link. */
  lemma RenameOpens(s: State, id: nat)
    requires AllStillSo(s) && id < |s.calls| && s.calls[id].phase.Renaming?
    ensures forall path :: Opens(s.tree, AfterRename(s, id, false).tree, path) ==>
              && Moves(s.tree, s.calls[id].source, s.calls[id].target)
              && RealPath(s.tree, path) == Missing(Locate(s.tree, s.calls[id].target).entry)
              && !KindOf(s.tree, InodeAt(s.tree, s.calls[id].source)).File?
  {
    var source, target := s.calls[id].source, s.calls[id].target;
    RenameOverwritesNothing(s, id);
    forall path | Opens(s.tree, AfterRename(s, id, false).tree, path)
      ensures Moves(s.tree, source, target)
      ensures RealPath(s.tree, path) == Missing(Locate(s.tree, target).entry)
      ensures !KindOf(s.tree, InodeAt(s.tree, source)).File?
    {
      DirAfterMove(s.tree, Locate(s.tree, source).entry, Locate(s.tree, target).entry, path);
    }
  }

  /** Every rename that takes place moves a plain file. */
  ghost predicate PlainRun(s: State, events: seq<Event>)
    decreases |events|
  {
    events == [] ||
    (&& !events[0].Outside?
     && (events[0].Rename? && Enabled(s, events[0]) && Present(s.tree, s.calls[events[0].id].source) ==>
           KindOf(s.tree, InodeAt(s.tree, s.calls[events[0].id].source)).File?)
     && PlainRun(Step(s, events[0]), events[1..]))
  }

  lemma {:induction false} PlainRunIsCalm(s: State, events: seq<Event>)
    requires Inv(s) && AllStillSo(s) && PlainRun(s, events)
    ensures CalmRun(s, events)
    decreases |events|
  {
    if events != [] {
      var e := events[0];
      if e.Rename? && Enabled(s, e) {
        RenameOpens(s, e.id);
      }
      assert CalmStep(s, e);
      StepKeeps(s, e);
      if Enabled(s, e) {
        StepStillSo(s, e);
      }
      PlainRunIsCalm(Step(s, e), events[1..]);
    }
  }

  /** Calls that rename plain files only lose none, wherever the files go. */
  lemma NoPlainFileIsLost(tree: Tree, events: seq<Event>)
    requires UniqueDirs(tree) && PlainRun(Initial(tree), events)
    ensures Run(Initial(tree), events).tree.names.Values == tree.names.Values
  {
    PlainRunIsCalm(Initial(tree), events);
    RunStillSo(Initial(tree), events);
  }

  // ---------------------------------------------------------------- what the rest can lose

  /** An overwriting rename loses exactly what stood at its destination, unless that has another name. */
  lemma OverwritingLosesIff(t: Tree, source: Place, target: Place, i: Inode)
    requires Overwrites(t, source, target) && i in t.names.Values
    ensures i !in Renamed(t, source, target).names.Values <==>
              && i == InodeAt(t, target)
              && (forall e :: e in t.names && t.names[e] == i ==> e == Locate(t, target).entry)
  {
    var from, to := Locate(t, source).entry, Locate(t, target).entry;
    var names := Renamed(t, source, target).names;
    if e :| e in t.names && t.names[e] == i && e != to {
      assert names[if e == from then to else e] == i;
    } else {
      var e :| e in t.names && t.names[e] == i;
      assert e == to;
    }
  }

  /** No turn is taken with other programs: what one of them puts at the destination after the last look is lost. */
  lemma OutsideFileIsLost(s: State, id: nat, i: Inode)
    requires id < |s.calls| && s.calls[id].phase.Renaming?
    requires Moves(s.tree, s.calls[id].source, s.calls[id].target) && !Present(s.tree, s.calls[id].target)
    requires KindOf(s.tree, InodeAt(s.tree, s.calls[id].source)) != Directory
    requires i != ROOT && i !in s.tree.kinds && i !in s.tree.names.Values
    ensures var to := Locate(s.tree, s.calls[id].target).entry;
            var put := s.tree.(names := s.tree.names[to := i]);
            i in Run(s, [Outside(put)]).tree.names.Values &&
            i !in Run(s, [Outside(put), Rename(id, false)]).tree.names.Values
  {
    var source, target := s.calls[id].source, s.calls[id].target;
    var to := Locate(s.tree, target).entry;
    var put := s.tree.(names := s.tree.names[to := i]);
    WalkAfterAdd(s.tree, to, i, [], source.parent, MAX_LINKS);
    WalkAfterAdd(s.tree, to, i, [], target.parent, MAX_LINKS);
    assert put.names[to] == i && InodeAt(put, source) == InodeAt(s.tree, source);
    OverwritingLosesIff(put, source, target, i);
    assert Run(s, [Outside(put)]) == Step(s, Outside(put)) == s.(tree := put);
    RunOfTwo(s, Outside(put), Rename(id, false));
  }

  /** A rename over the only name of something else. */
  ghost predicate Loses(s: State, e: Event) {
    && e.Rename? && Enabled(s, e) && !e.fails
    && Overwrites(s.tree, s.calls[e.id].source, s.calls[e.id].target)
    && OnlyName(s.tree, Locate(s.tree, s.calls[e.id].target).entry)
  }

  predicate OnlyName(t: Tree, only: Entry) {
    only in t.names && forall e :: e in t.names && t.names[e] == t.names[only] ==> e == only
  }

  ghost predicate LosesNothing(s: State, events: seq<Event>)
    decreases |events|
  {
    events == [] || (!Loses(s, events[0]) && LosesNothing(Step(s, events[0]), events[1..]))
  }

  lemma RenamedLosesIff(t: Tree, source: Place, target: Place)
    ensures Renamed(t, source, target).names.Values <= t.names.Values
    ensures Renamed(t, source, target).names.Values == t.names.Values <==>
              !(Overwrites(t, source, target) && OnlyName(t, Locate(t, target).entry))
  {
    if Overwrites(t, source, target) {
      forall i | i in t.names.Values
        ensures i !in Renamed(t, source, target).names.Values <==>
                  i == InodeAt(t, target) && OnlyName(t, Locate(t, target).entry)
      {
        OverwritingLosesIff(t, source, target, i);
      }
      assert InodeAt(t, target) in t.names.Values;
    } else if Moves(t, source, target) {
      MoveKeepsInodes(t, Locate(t, source).entry, Locate(t, target).entry);
    }
  }

  lemma StepLosesIff(s: State, e: Event)
    requires !e.Outside?
    ensures Step(s, e).tree.names.Values <= s.tree.names.Values
    ensures Step(s, e).tree.names.Values == s.tree.names.Values <==> !Loses(s, e)
  {
    if e.Rename? && Enabled(s, e) && !e.fails {
      RenamedLosesIff(s.tree, s.calls[e.id].source, s.calls[e.id].target);
    }
  }

  /** Without outside writers a run keeps everything if and only if it makes no such rename. */
  lemma {:induction false} RunLosesIff(s: State, events: seq<Event>)
    requires forall k :: 0 <= k < |events| ==> !events[k].Outside?
    ensures Run(s, events).tree.names.Values <= s.tree.names.Values
    ensures Run(s, events).tree.names.Values == s.tree.names.Values <==> LosesNothing(s, events)
    decreases |events|
  {
    if events != [] {
      StepLosesIff(s, events[0]);
      RunLosesIff(Step(s, events[0]), events[1..]);
    }
  }

  /** Right after another call's rename, a call overwrites only if that rename opened the way to its destination. */
  lemma OverwritesOnlyIfOpened(s: State, id: nat, other: nat)
    requires Inv(s) && AllStillSo(s) && id < |s.calls| && other < |s.calls| && id != other
    requires s.calls[id].phase.Renaming? && s.calls[other].phase.Renaming?
    ensures var t := AfterRename(s, id, false).tree;
            Overwrites(t, s.calls[other].source, s.calls[other].target) ==>
            Opens(s.tree, t, s.calls[other].target.parent)
  {
    var t := AfterRename(s, id, false).tree;
    var call := s.calls[other];
    assert StillSo(s.tree, s.calls[id]) && StillSo(s.tree, call);
    if Overwrites(t, call.source, call.target) && !Opens(s.tree, t, call.target.parent) {
      assert Key(s, other) != Key(s, id);
      RenameSpares(s.tree, s.calls[id], call);
    }
  }

  /** What one name stands for can be overwritten by a file other than itself. */
  predicate FileHeld(t: Tree, e: Entry, file: Inode) {
    e in t.names && t.names[e] != file && KindOf(t, t.names[e]) != Directory
  }

  /** The call is about to rename a file, or a link, that the move of `from` leaves in its place. */
  predicate SourceStays(t: Tree, from: Entry, source: Place) {
    && Present(t, source) && KindOf(t, InodeAt(t, source)) != Directory && Locate(t, source).entry != from
    && !Visits(t, from, [], source.parent, MAX_LINKS)
  }

  /** What the move leaves in its place overwrites exactly where its destination then leads to something else. */
  lemma OverwritesAfterMove(t: Tree, from: Entry, to: Entry, source: Place, target: Place)
    requires from in t.names && to !in t.names && SourceStays(t, from, source)
    ensures var t' := Moved(t, from, to);
            Overwrites(t', source, target) <==>
            Locate(t', target).At? &&
            var e := Locate(t', target).entry;
            e != from && FileHeld(t, if e == to then from else e, InodeAt(t, source))
  {
    LocateAfterMove(t, from, to, source);
  }

  /**
   Right after the rename of anything, a call overwrites with a file if and only if that rename opened the way to a
   directory that held the call's destination name already, or got it by that rename, for something else that is no
   directory.
   */
  lemma OverwritesIffHeld(s: State, id: nat, other: nat)
    requires Inv(s) && AllStillSo(s) && id < |s.calls| && other < |s.calls| && id != other
    requires s.calls[id].phase.Renaming? && s.calls[other].phase.Renaming?
    requires Moves(s.tree, s.calls[id].source, s.calls[id].target)
    requires SourceStays(s.tree, Locate(s.tree, s.calls[id].source).entry, s.calls[other].source)
    ensures var t, t' := s.tree, AfterRename(s, id, false).tree;
            var from, to := Locate(t, s.calls[id].source).entry, Locate(t, s.calls[id].target).entry;
            var Call(_, source, target, _, _) := s.calls[other];
            Overwrites(t', source, target) <==>
            Opens(t, t', target.parent) &&
            var e := Entry(End(DirOf(t', target.parent).value), target.name);
            e != from && FileHeld(t, if e == to then from else e, InodeAt(t, source))
  {
    var t, mover, call := s.tree, s.calls[id], s.calls[other];
    RenameOverwritesNothing(s, id);
    OverwritesAfterMove(t, Locate(t, mover.source).entry, Locate(t, mover.target).entry, call.source, call.target);
    OverwritesOnlyIfOpened(s, id, other);
  }

  /**
   So when one call moves a folder to where another's destination parent is to be, the other then overwrites if and
   only if the folder holds its destination name for something else that is no directory.
   */
  lemma OverwritesIffFolderHolds(s: State, id: nat, other: nat)
    requires Inv(s) && AllStillSo(s) && id < |s.calls| && other < |s.calls| && id != other
    requires s.calls[id].phase.Renaming? && s.calls[other].phase.Renaming?
    requires Moves(s.tree, s.calls[id].source, s.calls[id].target) && s.calls[id].target.name != ".."
    requires KindOf(s.tree, InodeAt(s.tree, s.calls[id].source)) == Directory
    requires SourceStays(s.tree, Locate(s.tree, s.calls[id].source).entry, s.calls[other].source)
    requires s.calls[other].target.parent == s.calls[id].target.parent + [s.calls[id].target.name]
    ensures var t, mover, call := s.tree, s.calls[id], s.calls[other];
            Overwrites(AfterRename(s, id, false).tree, call.source, call.target) <==>
            && !Visits(t, Locate(t, mover.source).entry, [], mover.target.parent, MAX_LINKS)
            && FileHeld(t, Entry(InodeAt(t, mover.source), call.target.name), InodeAt(t, call.source))
  {
    var t, mover, call := s.tree, s.calls[id], s.calls[other];
    RenameOverwritesNothing(s, id);
    OverwritesIffHeld(s, id, other);
    FolderAfterMove(t, mover.source, mover.target);
    FolderHoldsNeither(t, mover.source, mover.target, call.target.name);
    WalkOn(t, [], mover.target.parent, mover.target.name, MAX_LINKS);
  }

  /** In the root: a file x, a directory c that holds the only name of a file f, and nothing named z. */
  predicate Exposed(t: Tree, c: string, f: string, x: string, z: string) {
    && z != ".."
    && Entry(ROOT, z) !in t.names
    && Entry(ROOT, x) in t.names && KindOf(t, t.names[Entry(ROOT, x)]).File?
    && Entry(ROOT, c) in t.names && KindOf(t, t.names[Entry(ROOT, c)]).Directory?
    && OnlyName(t, Entry(t.names[Entry(ROOT, c)], f))
    && KindOf(t, t.names[Entry(t.names[Entry(ROOT, c)], f)]).File?
    && Entry(t.names[Entry(ROOT, c)], f) != Entry(ROOT, x)
  }

  lemma ExampleIsExposed()
    ensures exists t :: UniqueDirs(t) && Exposed(t, "c", "f", "x", "z")
  {
    var t := Tree(map[Entry(ROOT, "x") := 3, Entry(ROOT, "c") := 1, Entry(1, "f") := 2], map[1 := Directory]);
    assert UniqueDirs(t) && Exposed(t, "c", "f", "x", "z");
  }

  lemma WalkDown(t: Tree, name: string)
    requires name != ".."
    ensures RealPath(t, []) == Resolved([])
    ensures Entry(ROOT, name) !in t.names ==> RealPath(t, [name]) == Missing(Entry(ROOT, name))
    ensures Entry(ROOT, name) in t.names && KindOf(t, t.names[Entry(ROOT, name)]) == Directory ==>
              RealPath(t, [name]) == Resolved([Hop(name, t.names[Entry(ROOT, name)])])
  {
    assert [name][1..] == [];
    if Entry(ROOT, name) in t.names && KindOf(t, t.names[Entry(ROOT, name)]) == Directory {
      var at := [Hop(name, t.names[Entry(ROOT, name)])];
      assert [] + at == at;
      assert Walk(t, at, [], MAX_LINKS) == Resolved(at);
    }
  }

  function FindNothing(source: Place, target: Place, id: nat): seq<Event> {
    [Arrive(source, target, false), Register(0), Resume(id), LookUp(id, false)]
  }

  /** A call that registers alone for its key and finds nothing at its destination. */
  lemma CallFindsNothing(s: State, source: Place, target: Place, key: Path)
    requires s.arrived == [] && ParentKey(s.tree, target) == Some(key) && key !in s.pending
    requires !Locate(s.tree, target).Unreachable? && !Present(s.tree, target)
    ensures var id := |s.calls|;
            Run(s, FindNothing(source, target, id)) ==
            s.(pending := s.pending[key := id],
               calls := s.calls + [Call(key, source, target, None, Renaming(None))])
  {
    var id := |s.calls|;
    var s1 := Step(s, Arrive(source, target, false));
    assert s1 == s.(arrived := [Arrival(key, source, target)]);
    var s2 := Step(s1, Register(0));
    assert s2.arrived == [];
    var s3 := Step(s2, Resume(id));
    var s4 := Step(s3, LookUp(id, false));
    assert s4.calls == s.calls + [Call(key, source, target, None, Renaming(None))];
    RunOfFour(s, Arrive(source, target, false), Register(0), Resume(id), LookUp(id, false));
  }

  lemma RunOfTwo(s: State, a: Event, b: Event)
    ensures Run(s, [a, b]) == Step(Step(s, a), b)
  {
    assert [a, b][1..] == [b];
    assert Run(Step(s, a), [b]) == Run(Step(Step(s, a), b), []);
  }

  lemma RunOfFour(s: State, a: Event, b: Event, c: Event, d: Event)
    ensures Run(s, [a, b, c, d]) == Step(Step(Step(Step(s, a), b), c), d)
  {
    assert [a, b, c, d][1..] == [b, c, d] && [b, c, d][1..] == [c, d] && [c, d][1..] == [d];
    var s2 := Step(Step(s, a), b);
    assert Run(Step(s, a), [b, c, d]) == Run(s2, [c, d]);
    assert Run(s2, [c, d]) == Run(Step(s2, c), [d]);
    assert Run(Step(s2, c), [d]) == Run(Step(Step(s2, c), d), []);
  }

  lemma {:induction false} RunJoins(s: State, first: seq<Event>, second: seq<Event>)
    ensures Run(s, first + second) == Run(Run(s, first), second)
    decreases |first|
  {
    if first == [] {
      assert first + second == second;
    } else {
      assert (first + second)[1..] == first[1..] + second;
      RunJoins(Step(s, first[0]), first[1..], second);
    }
  }

  /** Two calls, x to z/f and c to z, and no other writer: both find nothing at their destinations, c goes first. */
  function ExampleRun(c: string, f: string, x: string, z: string): seq<Event> {
    FindNothing(Place([], x), Place([z], f), 0) +
    (FindNothing(Place([], c), Place([], z), 1) + [Rename(1, false), Rename(0, false)])
  }

  /** In every such tree these two calls lose the file c/f. */
  lemma TwoCallsLoseFile(t: Tree, c: string, f: string, x: string, z: string)
    requires UniqueDirs(t) && Exposed(t, c, f, x, z)
    ensures forall k :: 0 <= k < |ExampleRun(c, f, x, z)| ==> !ExampleRun(c, f, x, z)[k].Outside?
    ensures t.names[Entry(t.names[Entry(ROOT, c)], f)] !in Run(Initial(t), ExampleRun(c, f, x, z)).tree.names.Values
  {
    var s := Initial(t);
    var s1 := AfterFirst(t, f, x, z);
    var s2 := AfterSecond(t, c, f, x, z);
    BothFindNothing(t, c, f, x, z);
    RunJoins(s, FindNothing(Place([], x), Place([z], f), 0),
             FindNothing(Place([], c), Place([], z), 1) + [Rename(1, false), Rename(0, false)]);
    RunJoins(s1, FindNothing(Place([], c), Place([], z), 1), [Rename(1, false), Rename(0, false)]);
    RunOfTwo(s2, Rename(1, false), Rename(0, false));
    FirstTheDirectory(t, c, f, x, z);
    ThenTheFile(t, c, f, x, z);
  }

  function AfterFirst(t: Tree, f: string, x: string, z: string): State {
    State(t, [], map[[z] := 0], [Call([z], Place([], x), Place([z], f), None, Renaming(None))])
  }

  function AfterSecond(t: Tree, c: string, f: string, x: string, z: string): State {
    State(t, [], AfterFirst(t, f, x, z).pending[[] := 1],
          AfterFirst(t, f, x, z).calls + [Call([], Place([], c), Place([], z), None, Renaming(None))])
  }

  lemma BothFindNothing(t: Tree, c: string, f: string, x: string, z: string)
    requires Exposed(t, c, f, x, z)
    ensures Run(Initial(t), FindNothing(Place([], x), Place([z], f), 0)) == AfterFirst(t, f, x, z)
    ensures Run(AfterFirst(t, f, x, z), FindNothing(Place([], c), Place([], z), 1)) == AfterSecond(t, c, f, x, z)
  {
    WalkDown(t, z);
    assert Normalized([z]) == [z];
    CallFindsNothing(Initial(t), Place([], x), Place([z], f), [z]);
    assert [z] != [] && Names([]) == [];
    CallFindsNothing(AfterFirst(t, f, x, z), Place([], c), Place([], z), []);
  }

  /** The tree once c has become z. */
  function TreeBetween(t: Tree, c: string, z: string): Tree
    requires Entry(ROOT, c) in t.names
  {
    Moved(t, Entry(ROOT, c), Entry(ROOT, z))
  }

  lemma FirstTheDirectory(t: Tree, c: string, f: string, x: string, z: string)
    requires UniqueDirs(t) && Exposed(t, c, f, x, z)
    ensures Step(AfterSecond(t, c, f, x, z), Rename(1, false)).tree == TreeBetween(t, c, z)
  {
    WalkDown(t, z);
    assert Locate(t, Place([], c)) == At(Entry(ROOT, c)) && Locate(t, Place([], z)) == At(Entry(ROOT, z));
  }

  lemma ThenTheFile(t: Tree, c: string, f: string, x: string, z: string)
    requires UniqueDirs(t) && Exposed(t, c, f, x, z)
    ensures t.names[Entry(t.names[Entry(ROOT, c)], f)] !in
            Renamed(TreeBetween(t, c, z), Place([], x), Place([z], f)).names.Values
  {
    var between := TreeBetween(t, c, z);
    var d := t.names[Entry(ROOT, c)];
    var lost := Entry(d, f);
    WalkDown(between, z);
    assert Locate(between, Place([z], f)) == At(lost);
    assert Locate(between, Place([], x)) == At(Entry(ROOT, x));
    assert between.names[lost] == t.names[lost] != between.names[Entry(ROOT, x)];
    assert Overwrites(between, Place([], x), Place([z], f));
    assert OnlyName(between, lost);
    OverwritingLosesIff(between, Place([], x), Place([z], f), between.names[lost]);
  }

  // ---------------------------------------------------------------- the module's own state

  /** The map of tails with the calls in flight; each method is the stretch of a call between two awaits. */
  class DestinationRenames {
    var tree: Tree
    var arrived: seq<Arrival>
    var pendingRenamesByParent: map<Path, nat>
    var calls: seq<Call>

    ghost function Abstract(): State
      reads this
    {
      State(tree, arrived, pendingRenamesByParent, calls)
    }

    constructor (tree: Tree)
      ensures Abstract() == Initial(tree)
    {
      this.tree, arrived, pendingRenamesByParent, calls := tree, [], map[], [];
    }

    method DestinationParentKey(source: Place, target: Place, fails: bool) returns (thrown: bool)
      modifies `arrived
      ensures Abstract() == Step(old(Abstract()), Arrive(source, target, fails))
      ensures thrown <==> fails || ParentKey(tree, target).None?
    {
      if fails {
        return true;
      }
      thrown := false;
      match RealPath(tree, target.parent)
      case Resolved(at) => arrived := arrived + [Arrival(Names(at), source, target)];
      case Missing(_) => arrived := arrived + [Arrival(Normalized(target.parent), source, target)];
      case Broken => thrown := true;
    }

    method Begin(k: nat) returns (current: nat)
      requires k < |arrived|
      modifies `arrived, `pendingRenamesByParent, `calls
      ensures current == |old(calls)| && Abstract() == Step(old(Abstract()), Register(k))
    {
      var Arrival(key, source, target) := arrived[k];
      arrived := arrived[..k] + arrived[k + 1..];
      var previous: Option<nat> := None;
      if key in pendingRenamesByParent {
        previous := Some(pendingRenamesByParent[key]);
      }
      current := |calls|;
      calls := calls + [Call(key, source, target, previous, Waiting)];
      pendingRenamesByParent := pendingRenamesByParent[key := current];
    }

    method PreviousReleased(current: nat)
      requires Ready(Abstract(), current)
      modifies `calls
      ensures Abstract() == Step(old(Abstract()), Resume(current))
    {
      calls := calls[current := calls[current].(phase := Looking)];
    }

    method ReleaseKey(current: nat)
      requires current < |calls|
      modifies `pendingRenamesByParent, `calls
      ensures Abstract() == Release(old(Abstract()), current)
    {
      var key := calls[current].key;
      calls := calls[current := calls[current].(phase := Finished)];
      if key in pendingRenamesByParent && pendingRenamesByParent[key] == current {
        pendingRenamesByParent := pendingRenamesByParent - {key};
      }
    }

    method LookUpDestination(current: nat, fails: bool) returns (thrown: bool)
      requires current < |calls| && calls[current].phase.Looking?
      modifies `pendingRenamesByParent, `calls
      ensures Abstract() == Step(old(Abstract()), LookUp(current, fails))
      ensures thrown <==> fails || Locate(tree, old(calls[current]).target).Unreachable?
    {
      var target := calls[current].target;
      if fails || Locate(tree, target).Unreachable? {
        ReleaseKey(current);
        return true;
      }
      if !Present(tree, target) {
        calls := calls[current := calls[current].(phase := Renaming(None))];
      } else {
        calls := calls[current := calls[current].(phase := Comparing(InodeAt(tree, target)))];
      }
      return false;
    }

    method CompareEntries(current: nat, judgedSame: bool, fails: bool) returns (thrown: bool)
      requires current < |calls| && calls[current].phase.Comparing?
      modifies `pendingRenamesByParent, `calls
      ensures Abstract() == Step(old(Abstract()), Compare(current, judgedSame, fails))
      ensures thrown <==> calls[current].phase.Finished?
    {
      var call := calls[current];
      if fails || !Present(tree, call.source) {
        ReleaseKey(current);
        return true;
      }
      if InodeAt(tree, call.source) != call.phase.found || call.source.parent != call.target.parent || !judgedSame {
        ReleaseKey(current);
        return true;
      }
      calls := calls[current := call.(phase := Renaming(Some(call.phase.found)))];
      return false;
    }

    method RenameAndRelease(current: nat, fails: bool) returns (thrown: bool)
      requires current < |calls| && calls[current].phase.Renaming?
      modifies this
      ensures Abstract() == Step(old(Abstract()), Rename(current, fails))
      ensures thrown <==> fails || RenameThrows(old(tree), old(calls[current]).source, old(calls[current]).target)
    {
      var call := calls[current];
      thrown := fails || RenameThrows(tree, call.source, call.target);
      if !thrown {
        tree := Renamed(tree, call.source, call.target);
      }
      ReleaseKey(current);
    }
  }
}
