/**
 The persistence protocol of `ActiveViewPreference`: debounced asynchronous writers chained on one
 promise, a generation guard, and a synchronous flush that deletes the temporary file of a writer
 parked on its rename.  `Step` gives the effect of one event; one event is one stretch of code that
 JavaScript runs without yielding, or one action of the operating system.
 */
module ActiveView {
  import opened Wrappers

  datatype TopLevelView =
    | Terminal | Settings | Tasks | Activity | Automations
    | Company | Space | Skills | Artifacts | Mobile

  /** Where the asynchronous writer at the front of the promise chain stands. */
  datatype Phase =
    | Chained                       // its predecessor has not settled, or it has not started
    | TmpWritten                    // past writeFile, before the generation guard
    | Parked                        // past the guard, awaiting rename
    | Landed                        // the rename took effect, its continuation has not run
    | RenameFailed                  // the rename failed, its continuation has not run
    | CleaningUp                    // about to remove its temporary file
    | Settled                       // done; the callback that clears pendingWrite has not run

  datatype Writer = Writer(view: TopLevelView, generation: nat)

  /** One version of the preference file, with the generation it was written under. */
  datatype Landing = Landing(generation: nat, view: TopLevelView)

  datatype Event =
    | SetView(view: TopLevelView)
    | TimerFires
    | WriterWrites(ok: bool)
    | WriterChecksGeneration
    | RenameReturns(fails: bool)
    | WriterContinues
    | WriterCleansUp(removed: bool)
    | WriterSettles
    | Flush(unlinkFails: bool, writeOk: bool, renameOk: bool)
    | DrainPass
    | QuitFlush

  /**
   `writers` is the promise chain; `phase` is that of its first element, all others are Chained.
   Temporary files are named after the generation, so `tmps` and `inFlightTmp` use it as the name.
   */
  datatype State = State(
    activeView: TopLevelView,
    persisted: Option<TopLevelView>,
    timerArmed: bool,
    pendingWrite: Option<nat>,
    writers: seq<Writer>,
    phase: Phase,
    generation: nat,
    inFlightTmp: Option<nat>,
    quitFlushStarted: bool,
    tmps: map<nat, TopLevelView>,
    stored: Option<TopLevelView>,
    landings: seq<Landing>
  ) {
    /** What a reader of the preference file sees. */
    function File(): Option<TopLevelView> {
      if landings == [] then stored else Some(landings[|landings| - 1].view)
    }
  }

  function Init(stored: Option<TopLevelView>, fallback: TopLevelView): State {
    State(if stored.Some? then stored.value else fallback, stored, false, None, [], Chained, 0, None, false,
          map[], stored, [])
  }

  // ---------------------------------------------------------------- effect of each event

  function StepSchedule(s: State): State {
    if s.quitFlushStarted then s else s.(generation := s.generation + 1, timerArmed := true)
  }

  function Enqueue(s: State, view: TopLevelView, generation: nat): State {
    s.(writers := s.writers + [Writer(view, generation)], pendingWrite := Some(generation))
  }

  function StepSet(s: State, view: TopLevelView): State {
    var s1 := s.(activeView := view);
    if Some(view) != s.persisted || s.timerArmed || s.pendingWrite.Some? then StepSchedule(s1) else s1
  }

  function StepTimer(s: State): State {
    if s.timerArmed then Enqueue(s.(timerArmed := false), s.activeView, s.generation) else s
  }

  predicate HeadIn(s: State, phase: Phase) {
    s.writers != [] && s.phase == phase
  }

  function StepWrites(s: State, ok: bool): State {
    if !HeadIn(s, Chained) then s
    else if ok then
      var w := s.writers[0];
      s.(phase := TmpWritten, tmps := s.tmps[w.generation := w.view])
    else s.(phase := CleaningUp)
  }

  function StepChecks(s: State): State {
    if !HeadIn(s, TmpWritten) then s
    else if s.writers[0].generation != s.generation then s.(phase := CleaningUp)
    else s.(phase := Parked, inFlightTmp := Some(s.writers[0].generation))
  }

  function StepRename(s: State, fails: bool): State {
    if !HeadIn(s, Parked) then s
    else
      var g := s.writers[0].generation;
      if fails || g !in s.tmps then s.(phase := RenameFailed)
      else s.(phase := Landed, tmps := s.tmps - {g}, landings := s.landings + [Landing(g, s.tmps[g])])
  }

  function StepContinues(s: State): State {
    if s.writers == [] then s
    else
      var w := s.writers[0];
      var inFlight := if s.inFlightTmp == Some(w.generation) then None else s.inFlightTmp;
      match s.phase
      case Landed =>
        var persisted := if w.generation == s.generation then Some(w.view) else s.persisted;
        s.(phase := Settled, persisted := persisted, inFlightTmp := inFlight)
      case RenameFailed => s.(phase := CleaningUp, inFlightTmp := inFlight)
      case _ => s
  }

  function StepCleansUp(s: State, removed: bool): State {
    if !HeadIn(s, CleaningUp) then s
    else s.(phase := Settled, tmps := if removed then s.tmps - {s.writers[0].generation} else s.tmps)
  }

  function StepSettles(s: State): State {
    if !HeadIn(s, Settled) then s
    else s.(writers := s.writers[1..], phase := Chained,
            pendingWrite := if s.pendingWrite == Some(s.writers[0].generation) then None else s.pendingWrite)
  }

  /** The guard under which a flush returns without writing. */
  predicate TrustsMarker(s: State) {
    s.pendingWrite.None? && Some(s.activeView) == s.persisted
  }

  function StepFlush(s: State, unlinkFails: bool, writeOk: bool, renameOk: bool): State {
    if s.quitFlushStarted then s
    else
      var s1 := s.(timerArmed := false, generation := s.generation + 1);
      if TrustsMarker(s) then s1
      else if s1.inFlightTmp.Some? && unlinkFails then Enqueue(s1, s1.activeView, s1.generation)
      else
        var s2 :=
          if s1.inFlightTmp.Some? && s1.inFlightTmp.value in s1.tmps
          then s1.(tmps := s1.tmps - {s1.inFlightTmp.value}, inFlightTmp := None)
          else s1;
        WriteNow(s2, writeOk, renameOk)
  }

  /** The synchronous write and rename of a flush. */
  function WriteNow(s: State, writeOk: bool, renameOk: bool): State {
    if !writeOk then s
    else if !renameOk then s.(tmps := s.tmps[s.generation := s.activeView])
    else s.(landings := s.landings + [Landing(s.generation, s.activeView)], persisted := Some(s.activeView))
  }

  function StepDrain(s: State): State {
    var s1 := s.(timerArmed := false);
    if TrustsMarker(s) then s1
    else Enqueue(s1.(generation := s1.generation + 1), s1.activeView, s1.generation + 1)
  }

  /** An event that cannot happen in `s` leaves `s` as it is. */
  function Step(s: State, e: Event): State {
    match e
    case SetView(view) => StepSet(s, view)
    case TimerFires => StepTimer(s)
    case WriterWrites(ok) => StepWrites(s, ok)
    case WriterChecksGeneration => StepChecks(s)
    case RenameReturns(fails) => StepRename(s, fails)
    case WriterContinues => StepContinues(s)
    case WriterCleansUp(removed) => StepCleansUp(s, removed)
    case WriterSettles => StepSettles(s)
    case Flush(unlinkFails, writeOk, renameOk) => StepFlush(s, unlinkFails, writeOk, renameOk)
    case DrainPass => StepDrain(s)
    case QuitFlush => s.(quitFlushStarted := true)
  }

  function Run(s: State, events: seq<Event>): State
    decreases |events|
  {
    if events == [] then s else Run(Step(s, events[0]), events[1..])
  }

  // ---------------------------------------------------------------- safety of every run

  predicate Increasing(landings: seq<Landing>) {
    forall i, j :: 0 <= i < j < |landings| ==> landings[i].generation < landings[j].generation
  }

  function LastLanded(landings: seq<Landing>): int {
    if landings == [] then -1 else landings[|landings| - 1].generation
  }

  function LastQueued(writers: seq<Writer>): int {
    if writers == [] then -1 else writers[|writers| - 1].generation
  }

  predicate ChainOk(writers: seq<Writer>) {
    forall i, j :: 0 <= i < j < |writers| ==> writers[i].generation < writers[j].generation
  }

  /** The first writer of the chain has not landed and its temporary file has not been vetoed. */
  predicate HeadCanLand(s: State) {
    && s.writers != []
    && (s.phase.Chained? || s.phase.TmpWritten? || (s.phase.Parked? && s.writers[0].generation in s.tmps))
  }

  predicate TmpsOk(s: State) {
    && (s.inFlightTmp.Some? ==>
          s.writers != [] && s.writers[0].generation == s.inFlightTmp.value
          && (s.phase.Parked? || s.phase.Landed? || s.phase.RenameFailed?))
    && (HeadIn(s, Parked) && s.writers[0].generation in s.tmps ==>
          s.inFlightTmp == Some(s.writers[0].generation) && s.tmps[s.writers[0].generation] == s.writers[0].view)
    && (HeadIn(s, TmpWritten) ==>
          s.writers[0].generation in s.tmps && s.tmps[s.writers[0].generation] == s.writers[0].view)
  }

  predicate Inv(s: State) {
    && ChainOk(s.writers)
    && Increasing(s.landings)
    && TmpsOk(s)
    && (s.writers == [] ==> s.phase == Chained)
    && s.pendingWrite == (if s.writers == [] then None else Some(s.writers[|s.writers| - 1].generation))
    && LastQueued(s.writers) <= s.generation
    && LastLanded(s.landings) <= s.generation
    && (s.timerArmed ==> LastQueued(s.writers) < s.generation && LastLanded(s.landings) < s.generation)
    // a generation that is current and still queued has not landed
    && (LastQueued(s.writers) == s.generation && (|s.writers| > 1 || HeadCanLand(s)) ==>
          LastLanded(s.landings) < s.generation)
    && (HeadIn(s, Landed) && s.writers[0].generation == LastLanded(s.landings) ==> s.File() == Some(s.writers[0].view))
    // a writer past the guard with its temporary file in place is newer than everything that landed
    && (HeadIn(s, Parked) && HeadCanLand(s) ==> LastLanded(s.landings) < s.writers[0].generation)
  }

  lemma InitInv(stored: Option<TopLevelView>, fallback: TopLevelView)
    ensures Inv(Init(stored, fallback))
  {
  }

  lemma SetKeepsInv(s: State, view: TopLevelView)
    requires Inv(s)
    ensures Inv(StepSet(s, view))
  {
  }

  lemma TimerKeepsInv(s: State)
    requires Inv(s)
    ensures Inv(StepTimer(s))
  {
  }

  lemma WritesKeepsInv(s: State, ok: bool)
    requires Inv(s)
    ensures Inv(StepWrites(s, ok))
  {
  }

  lemma ChecksKeepsInv(s: State)
    requires Inv(s)
    ensures Inv(StepChecks(s))
  {
  }

  lemma RenameKeepsInv(s: State, fails: bool)
    requires Inv(s)
    ensures Inv(StepRename(s, fails))
  {
  }

  lemma ContinuesKeepsInv(s: State)
    requires Inv(s)
    ensures Inv(StepContinues(s))
  {
  }

  lemma CleansUpKeepsInv(s: State, removed: bool)
    requires Inv(s)
    ensures Inv(StepCleansUp(s, removed))
  {
  }

  lemma SettlesKeepsInv(s: State)
    requires Inv(s)
    ensures Inv(StepSettles(s))
  {
  }

  /** A flush writes nothing when it trusts the marker, and puts the view back in the queue when its veto fails. */
  predicate FlushGivesUp(s: State, unlinkFails: bool) {
    s.quitFlushStarted || TrustsMarker(s) || (s.inFlightTmp.Some? && unlinkFails)
  }

  lemma IdleFlushKeepsInv(s: State, unlinkFails: bool, writeOk: bool, renameOk: bool)
    requires Inv(s) && FlushGivesUp(s, unlinkFails)
    ensures Inv(StepFlush(s, unlinkFails, writeOk, renameOk))
  {
  }

  lemma WritingFlushKeepsInv(s: State, unlinkFails: bool, writeOk: bool, renameOk: bool)
    requires Inv(s) && !FlushGivesUp(s, unlinkFails)
    ensures Inv(StepFlush(s, unlinkFails, writeOk, renameOk))
  {
  }

  lemma FlushKeepsInv(s: State, unlinkFails: bool, writeOk: bool, renameOk: bool)
    requires Inv(s)
    ensures Inv(StepFlush(s, unlinkFails, writeOk, renameOk))
  {
    if FlushGivesUp(s, unlinkFails) {
      IdleFlushKeepsInv(s, unlinkFails, writeOk, renameOk);
    } else {
      WritingFlushKeepsInv(s, unlinkFails, writeOk, renameOk);
    }
  }

  lemma DrainKeepsInv(s: State)
    requires Inv(s)
    ensures Inv(StepDrain(s))
  {
  }

  lemma StepKeepsInv(s: State, e: Event)
    requires Inv(s)
    ensures Inv(Step(s, e))
  {
    match e
    case SetView(view) => SetKeepsInv(s, view);
    case TimerFires => TimerKeepsInv(s);
    case WriterWrites(ok) => WritesKeepsInv(s, ok);
    case WriterChecksGeneration => ChecksKeepsInv(s);
    case RenameReturns(fails) => RenameKeepsInv(s, fails);
    case WriterContinues => ContinuesKeepsInv(s);
    case WriterCleansUp(removed) => CleansUpKeepsInv(s, removed);
    case WriterSettles => SettlesKeepsInv(s);
    case Flush(unlinkFails, writeOk, renameOk) => FlushKeepsInv(s, unlinkFails, writeOk, renameOk);
    case DrainPass => DrainKeepsInv(s);
    case QuitFlush =>
  }

  lemma StepExtendsLandings(s: State, e: Event)
    ensures s.landings <= Step(s, e).landings
  {
  }

  lemma {:induction false} RunKeepsInv(s: State, events: seq<Event>)
    requires Inv(s)
    ensures Inv(Run(s, events))
    ensures s.landings <= Run(s, events).landings
    decreases |events|
  {
    if events != [] {
      StepKeepsInv(s, events[0]);
      StepExtendsLandings(s, events[0]);
      RunKeepsInv(Step(s, events[0]), events[1..]);
    }
  }

  /** In every run, with I/O failures anywhere, each version that lands is newer than the one it replaces. */
  lemma LandingsIncrease(stored: Option<TopLevelView>, fallback: TopLevelView, events: seq<Event>)
    ensures Increasing(Run(Init(stored, fallback), events).landings)
  {
    InitInv(stored, fallback);
    RunKeepsInv(Init(stored, fallback), events);
  }

  /** A sync flush that goes through its write path. */
  predicate FlushWrites(s: State) {
    !s.quitFlushStarted && !TrustsMarker(s)
  }

  /** Nothing that lands after such a flush, in any continuation, was requested before it. */
  lemma NothingStaleLandsAfterFlush(s: State, events: seq<Event>)
    requires Inv(s) && FlushWrites(s)
    ensures var s' := StepFlush(s, false, true, true);
            && s'.File() == Some(s.activeView)
            && s'.landings <= Run(s', events).landings
            && forall k :: |s'.landings| <= k < |Run(s', events).landings| ==>
                 Run(s', events).landings[k].generation > s'.generation > s.generation
  {
    var s' := StepFlush(s, false, true, true);
    FlushKeepsInv(s, false, true, true);
    RunKeepsInv(s', events);
    assert s'.landings[|s'.landings| - 1].generation == s'.generation;
  }

  // ---------------------------------------------------------------- convergence

  /** A flush that would cancel an armed debounce and write nothing, trusting the marker instead. */
  predicate CancelsSave(s: State) {
    TrustsMarker(s) && s.timerArmed
  }

  /** `e` meets no I/O failure, does not cancel a save, and is not a `set` after the quit flush began. */
  predicate Clean(s: State, e: Event) {
    match e
    case SetView(_) => !s.quitFlushStarted
    case WriterWrites(ok) => ok
    case RenameReturns(fails) => !fails
    case WriterCleansUp(removed) => removed
    case Flush(unlinkFails, writeOk, renameOk) => !unlinkFails && writeOk && renameOk && !CancelsSave(s)
    case DrainPass => !CancelsSave(s)
    case _ => true
  }

  predicate CleanRun(s: State, events: seq<Event>)
    decreases |events|
  {
    events == [] || (Clean(s, events[0]) && CleanRun(Step(s, events[0]), events[1..]))
  }

  /** The file and the marker hold the active view, and no queued writer can change that. */
  predicate Written(s: State) {
    && s.File() == Some(s.activeView) == s.persisted
    && (s.writers != [] ==> LastLanded(s.landings) == s.generation)
  }

  /** The last queued writer carries the active view under the current generation. */
  predicate Underway(s: State) {
    && s.writers != []
    && s.writers[|s.writers| - 1] == Writer(s.activeView, s.generation)
    && (|s.writers| > 1 || HeadCanLand(s)
        || (s.phase.Landed? && LastLanded(s.landings) == s.generation && s.File() == Some(s.activeView)))
  }

  predicate Converging(s: State, touched: bool) {
    || s.timerArmed
    || Written(s)
    || Underway(s)
    || (!touched && s.writers == [] && s.persisted == s.File())
  }

  /** Only the running writer owns a temporary file. */
  predicate NoLitter(s: State) {
    s.tmps.Keys <= (if s.writers != [] && !s.phase.Chained? && !s.phase.Landed? && !s.phase.Settled?
                    then {s.writers[0].generation} else {})
  }

  lemma CleanWriterStep(s: State, e: Event, touched: bool)
    requires Inv(s) && Converging(s, touched) && Clean(s, e)
    requires !e.SetView? && !e.Flush? && !e.DrainPass? && !e.TimerFires?
    ensures Converging(Step(s, e), touched)
  {
  }

  lemma CleanCall(s: State, e: Event, touched: bool)
    requires Inv(s) && Converging(s, touched) && Clean(s, e)
    requires e.SetView? || e.Flush? || e.DrainPass? || e.TimerFires?
    ensures Converging(Step(s, e), touched || e.SetView?)
  {
  }

  lemma CleanStepKeepsNoLitter(s: State, e: Event)
    requires Inv(s) && NoLitter(s) && Clean(s, e)
    ensures NoLitter(Step(s, e))
  {
  }

  predicate AnySet(events: seq<Event>) {
    exists i :: 0 <= i < |events| && events[i].SetView?
  }

  lemma {:induction false} CleanRunConverges(s: State, events: seq<Event>, touched: bool)
    requires Inv(s) && Converging(s, touched) && NoLitter(s) && CleanRun(s, events)
    ensures Converging(Run(s, events), touched || AnySet(events)) && NoLitter(Run(s, events))
    ensures Inv(Run(s, events))
    decreases |events|
  {
    if events != [] {
      var e, rest := events[0], events[1..];
      StepKeepsInv(s, e);
      CleanStepKeepsNoLitter(s, e);
      if e.SetView? || e.Flush? || e.DrainPass? || e.TimerFires? {
        CleanCall(s, e, touched);
      } else {
        CleanWriterStep(s, e, touched);
      }
      CleanRunConverges(Step(s, e), rest, touched || e.SetView?);
      assert AnySet(events) == (e.SetView? || AnySet(rest)) by {
        assert forall i :: 0 <= i < |rest| ==> events[i + 1] == rest[i];
      }
    }
  }

  /** With at least one accepted `set`, an idle preference has its active view on disk and no temporary file. */
  lemma CleanRunsSettleOnActiveView(stored: Option<TopLevelView>, fallback: TopLevelView, events: seq<Event>)
    requires CleanRun(Init(stored, fallback), events) && AnySet(events)
    ensures var s := Run(Init(stored, fallback), events);
            !s.timerArmed && s.pendingWrite.None? ==>
              s.File() == Some(s.activeView) == s.persisted && s.tmps == map[]
  {
    CleanRunConverges(Init(stored, fallback), events, false);
    var s := Run(Init(stored, fallback), events);
    if !s.timerArmed && s.pendingWrite.None? {
      assert s.tmps.Keys == {};
    }
  }

  /** An event of a run without flushes and without I/O failures. */
  predicate FlushFree(e: Event) {
    match e
    case WriterWrites(ok) => ok
    case RenameReturns(fails) => !fails
    case WriterCleansUp(removed) => removed
    case Flush(_, _, _) => false
    case DrainPass => false
    case QuitFlush => false
    case _ => true
  }

  lemma {:induction false} FlushFreeIsClean(s: State, events: seq<Event>)
    requires !s.quitFlushStarted && forall i :: 0 <= i < |events| ==> FlushFree(events[i])
    ensures CleanRun(s, events)
    decreases |events|
  {
    if events != [] {
      assert FlushFree(events[0]);
      assert !Step(s, events[0]).quitFlushStarted;
      FlushFreeIsClean(Step(s, events[0]), events[1..]);
    }
  }

  lemma FlushFreeRunsSettleOnActiveView(stored: Option<TopLevelView>, fallback: TopLevelView, events: seq<Event>)
    requires AnySet(events) && forall i :: 0 <= i < |events| ==> FlushFree(events[i])
    ensures var s := Run(Init(stored, fallback), events);
            !s.timerArmed && s.pendingWrite.None? ==> s.File() == Some(s.activeView)
  {
    FlushFreeIsClean(Init(stored, fallback), events);
    CleanRunsSettleOnActiveView(stored, fallback, events);
  }

  /** Opened again on what such a run has left, the preference starts on the view the run ended with. */
  lemma RestartResumes(stored: Option<TopLevelView>, fallback: TopLevelView, events: seq<Event>, later: TopLevelView)
    requires CleanRun(Init(stored, fallback), events) && AnySet(events)
    requires !Run(Init(stored, fallback), events).timerArmed && Run(Init(stored, fallback), events).pendingWrite.None?
    ensures var s := Run(Init(stored, fallback), events);
            var s' := Init(s.File(), later);
            s'.activeView == s.activeView && s'.File() == s.File() && s'.persisted == Some(s.activeView)
  {
    CleanRunsSettleOnActiveView(stored, fallback, events);
  }

  /** Whatever happens, the active view is the one set last, or the one the run began with. */
  lemma {:induction false} ViewsOnlyFromSets(s: State, events: seq<Event>)
    ensures !AnySet(events) ==> Run(s, events).activeView == s.activeView
    ensures forall view :: LastSet(events) == Some(view) ==> Run(s, events).activeView == view
    decreases |events|
  {
    if events != [] {
      ViewsOnlyFromSets(Step(s, events[0]), events[1..]);
      assert forall i :: 0 <= i < |events[1..]| ==> events[i + 1] == events[1..][i];
      LastSetLater(events);
    }
  }

  function LastSet(events: seq<Event>): Option<TopLevelView> {
    if events == [] then None
    else if events[|events| - 1].SetView? then Some(events[|events| - 1].view)
    else LastSet(events[..|events| - 1])
  }

  lemma {:induction false} LastSetLater(events: seq<Event>)
    requires events != []
    ensures LastSet(events) == if LastSet(events[1..]).Some? then LastSet(events[1..])
                               else if events[0].SetView? then Some(events[0].view) else None
    ensures LastSet(events[1..]).None? <==> !AnySet(events[1..])
    decreases |events|
  {
    var n := |events| - 1;
    if n > 0 {
      assert events[..n][1..] == events[1..][..n - 1] && events[1..][n - 1] == events[n];
      LastSetLater(events[..n]);
      if i :| 0 <= i < |events[1..]| && events[1..][i].SetView? && i < n - 1 {
        assert events[..n][1..][i] == events[1..][i];
      }
    }
  }

  /**
   A flush that cannot remove a parked writer's file throws, and has queued the active view behind that writer: if
   nothing fails any more, that view is in the file in the end.
   */
  lemma FailedVetoStillWrites(s: State, writeOk: bool, renameOk: bool, events: seq<Event>)
    requires Inv(s) && NoLitter(s) && s.inFlightTmp.Some? && !TrustsMarker(s) && !s.quitFlushStarted
    requires CleanRun(StepFlush(s, true, writeOk, renameOk), events)
    ensures var s' := StepFlush(s, true, writeOk, renameOk);
            var end := Run(s', events);
            && s'.writers == s.writers + [Writer(s.activeView, s.generation + 1)] && s'.landings == s.landings
            && (!end.timerArmed && end.pendingWrite.None? ==> end.File() == Some(end.activeView) == end.persisted)
  {
    var s' := StepFlush(s, true, writeOk, renameOk);
    FlushKeepsInv(s, true, writeOk, renameOk);
    assert Underway(s');
    CleanRunConverges(s', events, true);
  }

  // ---------------------------------------------------------------- when a flush may trust the marker

  /** The run that makes the marker disagree with the file: B lands while A has already been set again. */
  function OvertakenRename(): seq<Event> {
    [SetView(Tasks), TimerFires, WriterWrites(true), WriterChecksGeneration, SetView(Terminal),
     RenameReturns(false), WriterContinues, WriterSettles]
  }

  /** After it a flush cancels the pending save, writes nothing and leaves the wrong view on disk for good. */
  lemma FlushCanLeaveStaleFile()
    ensures var s := Run(Init(Some(Terminal), Terminal), OvertakenRename());
            var s' := StepFlush(s, false, true, true);
            && CleanRun(Init(Some(Terminal), Terminal), OvertakenRename())
            && CancelsSave(s)
            && s'.activeView == Terminal && s'.File() == Some(Tasks)
            && !s'.timerArmed && s'.pendingWrite.None?
            && StepSet(s', Terminal) == s' && StepDrain(s') == s'
  {
    var s0, e := Init(Some(Terminal), Terminal), OvertakenRename();
    var s1 := Step(s0, e[0]);
    var s2 := Step(s1, e[1]);
    var s3 := Step(s2, e[2]);
    var s4 := Step(s3, e[3]);
    var s5 := Step(s4, e[4]);
    var s6 := Step(s5, e[5]);
    var s7 := Step(s6, e[6]);
    RunFour(s0, e);
    RunFour(s4, e[4..]);
    assert s4 == s0.(activeView := Tasks, generation := 1, writers := [Writer(Tasks, 1)], pendingWrite := Some(1),
                     phase := Parked, tmps := map[1 := Tasks], inFlightTmp := Some(1));
    assert s5 == s4.(activeView := Terminal, generation := 2, timerArmed := true);
    assert s7 == s5.(phase := Settled, tmps := map[], inFlightTmp := None, landings := [Landing(1, Tasks)]);
  }

  lemma RunFour(s: State, e: seq<Event>)
    requires |e| >= 4
    ensures Run(s, e) == Run(Step(Step(Step(Step(s, e[0]), e[1]), e[2]), e[3]), e[4..])
    ensures Clean(s, e[0]) && Clean(Step(s, e[0]), e[1]) && Clean(Step(Step(s, e[0]), e[1]), e[2])
            && Clean(Step(Step(Step(s, e[0]), e[1]), e[2]), e[3])
            && CleanRun(Step(Step(Step(Step(s, e[0]), e[1]), e[2]), e[3]), e[4..])
            ==> CleanRun(s, e)
  {
    assert e[1..][1..] == e[2..] && e[2..][1..] == e[3..] && e[3..][1..] == e[4..];
    var s1 := Step(s, e[0]);
    var s2 := Step(s1, e[1]);
    var s3 := Step(s2, e[2]);
    assert Run(s, e) == Run(s1, e[1..]) == Run(s2, e[2..]) == Run(s3, e[3..]);
    assert Clean(s2, e[2]) && CleanRun(s3, e[3..]) ==> CleanRun(s2, e[2..]);
    assert Clean(s1, e[1]) && CleanRun(s2, e[2..]) ==> CleanRun(s1, e[1..]);
  }

  /** After a clean run, with no save armed, a fault-free flush leaves the file current. */
  lemma FlushIsCurrentWhenNoSaveIsArmed(stored: Option<TopLevelView>, fallback: TopLevelView, events: seq<Event>)
    requires CleanRun(Init(stored, fallback), events)
    requires !Run(Init(stored, fallback), events).quitFlushStarted && !Run(Init(stored, fallback), events).timerArmed
    ensures var s := Run(Init(stored, fallback), events);
            StepFlush(s, false, true, true).File() == Some(s.activeView)
  {
    CleanRunConverges(Init(stored, fallback), events, false);
  }

  /** A writer continues from a rename that put its view in the file, and finds a newer generation. */
  predicate Overtakes(s: State, e: Event) {
    && e.WriterContinues? && HeadIn(s, Landed) && s.writers[0].generation == LastLanded(s.landings)
    && s.writers[0].generation != s.generation
  }

  /** A writer continues from such a rename under its own generation, or a flush writes the file. */
  predicate Confirms(s: State, e: Event) {
    || (e.WriterContinues? && HeadIn(s, Landed) && s.writers[0].generation == LastLanded(s.landings)
        && s.writers[0].generation == s.generation)
    || (e.Flush? && FlushWrites(s) && !(s.inFlightTmp.Some? && e.unlinkFails) && e.writeOk && e.renameOk)
  }

  /** The view that an overtaken writer left in the file, unless something has been confirmed since. */
  function Overtaken(s: State, events: seq<Event>): Option<TopLevelView>
    decreases |events|
  {
    if events == [] then None
    else
      var before, last := events[..|events| - 1], events[|events| - 1];
      if Overtakes(Run(s, before), last) then Some(Run(s, before).writers[0].view)
      else if Confirms(Run(s, before), last) then None
      else Overtaken(s, before)
  }

  lemma {:induction false} RunAppend(s: State, events: seq<Event>, e: Event)
    ensures Run(s, events + [e]) == Step(Run(s, events), e)
    decreases |events|
  {
    if events == [] {
      assert [e][1..] == [];
    } else {
      assert (events + [e])[1..] == events[1..] + [e];
      RunAppend(Step(s, events[0]), events[1..], e);
    }
  }

  /** The file is what the marker says, unless an overtaken writer's view stands in it. */
  predicate Tracks(s: State, overtaken: Option<TopLevelView>) {
    && (HeadIn(s, Landed) ==> s.writers[0].generation <= LastLanded(s.landings))
    && (!(HeadIn(s, Landed) && s.writers[0].generation == LastLanded(s.landings)) ==>
          s.File() == if overtaken.Some? then overtaken else s.persisted)
  }

  lemma StepTracks(s: State, e: Event, overtaken: Option<TopLevelView>)
    requires Inv(s) && Tracks(s, overtaken)
    ensures Tracks(Step(s, e), if Overtakes(s, e) then Some(s.writers[0].view)
                               else if Confirms(s, e) then None else overtaken)
  {
    match e
    case WriterContinues => ContinuationTracks(s, overtaken);
    case Flush(unlinkFails, writeOk, renameOk) => FlushTracks(s, e, overtaken);
    case _ => QuietStepTracks(s, e, overtaken);
  }

  lemma ContinuationTracks(s: State, overtaken: Option<TopLevelView>)
    requires Inv(s) && Tracks(s, overtaken)
    ensures Tracks(StepContinues(s), if Overtakes(s, WriterContinues) then Some(s.writers[0].view)
                                     else if Confirms(s, WriterContinues) then None else overtaken)
  {
  }

  lemma FlushTracks(s: State, e: Event, overtaken: Option<TopLevelView>)
    requires Inv(s) && Tracks(s, overtaken) && e.Flush?
    ensures Tracks(Step(s, e), if Confirms(s, e) then None else overtaken)
  {
  }

  lemma QuietStepTracks(s: State, e: Event, overtaken: Option<TopLevelView>)
    requires Inv(s) && Tracks(s, overtaken) && !e.Flush? && !e.WriterContinues?
    ensures Tracks(Step(s, e), overtaken)
  {
    match e
    case RenameReturns(fails) => RenameTracks(s, fails, overtaken);
    case WriterSettles => SettlesTracks(s, overtaken);
    case SetView(_) | TimerFires | DrainPass | QuitFlush => CallTracks(s, e, overtaken);
    case _ => WriterStepTracks(s, e, overtaken);
  }

  lemma CallTracks(s: State, e: Event, overtaken: Option<TopLevelView>)
    requires Inv(s) && Tracks(s, overtaken) && (e.SetView? || e.TimerFires? || e.DrainPass? || e.QuitFlush?)
    ensures Tracks(Step(s, e), overtaken)
  {
  }

  lemma WriterStepTracks(s: State, e: Event, overtaken: Option<TopLevelView>)
    requires Inv(s) && Tracks(s, overtaken)
    requires e.WriterWrites? || e.WriterChecksGeneration? || e.WriterCleansUp?
    ensures Tracks(Step(s, e), overtaken)
  {
  }

  lemma SettlesTracks(s: State, overtaken: Option<TopLevelView>)
    requires Inv(s) && Tracks(s, overtaken)
    ensures Tracks(StepSettles(s), overtaken)
  {
  }

  lemma RenameTracks(s: State, fails: bool, overtaken: Option<TopLevelView>)
    requires Inv(s) && Tracks(s, overtaken)
    ensures Tracks(StepRename(s, fails), overtaken)
  {
  }

  lemma {:induction false} RunTracks(s: State, events: seq<Event>)
    requires Inv(s) && Tracks(s, None)
    ensures Inv(Run(s, events)) && Tracks(Run(s, events), Overtaken(s, events))
    decreases |events|
  {
    if events != [] {
      var before, last := events[..|events| - 1], events[|events| - 1];
      RunTracks(s, before);
      RunAppend(s, before, last);
      assert events == before + [last];
      StepKeepsInv(Run(s, before), last);
      StepTracks(Run(s, before), last, Overtaken(s, before));
    }
  }

  /** In every run, failures included: with no writer left the file holds what was overtaken, else the marker. */
  lemma FileIsMarkerUnlessOvertaken(stored: Option<TopLevelView>, fallback: TopLevelView, events: seq<Event>)
    ensures var s := Run(Init(stored, fallback), events);
            var overtaken := Overtaken(Init(stored, fallback), events);
            s.writers == [] ==> s.File() == if overtaken.Some? then overtaken else s.persisted
  {
    InitInv(stored, fallback);
    RunTracks(Init(stored, fallback), events);
  }

  /**
   In every run, failures included, a fault-free flush leaves the file outdated if and only if it trusts the marker
   while another view stands in the file that an overtaken writer put there.
   */
  lemma FlushIsStaleIff(stored: Option<TopLevelView>, fallback: TopLevelView, events: seq<Event>)
    requires !Run(Init(stored, fallback), events).quitFlushStarted
    ensures var s := Run(Init(stored, fallback), events);
            var overtaken := Overtaken(Init(stored, fallback), events);
            StepFlush(s, false, true, true).File() != Some(s.activeView) <==>
            TrustsMarker(s) && overtaken.Some? && overtaken != Some(s.activeView)
  {
    InitInv(stored, fallback);
    RunTracks(Init(stored, fallback), events);
  }

  lemma {:induction false} LastOvertaking(s: State, events: seq<Event>) returns (i: int)
    requires Overtaken(s, events).Some?
    ensures 0 <= i < |events| && OvertakenAt(s, events, Overtaken(s, events).value, i)
    decreases |events|
  {
    var n := |events| - 1;
    if Overtakes(Run(s, events[..n]), events[n]) {
      i := n;
    } else {
      i := LastOvertaking(s, events[..n]);
      PrefixSees(s, events, n);
    }
  }

  lemma {:induction false} OvertakingStands(s: State, events: seq<Event>, view: TopLevelView, i: int)
    requires 0 <= i < |events| && OvertakenAt(s, events, view, i)
    ensures Overtaken(s, events) == Some(view)
    decreases |events|
  {
    var n := |events| - 1;
    if i < n {
      PrefixSees(s, events, n);
      OvertakingStands(s, events[..n], view, i);
    }
  }

  lemma PrefixSees(s: State, events: seq<Event>, n: nat)
    requires n <= |events|
    ensures forall j :: 0 <= j < n ==> events[..n][j] == events[j] && events[..n][..j] == events[..j]
  {
  }

  /** What `Overtaken` says of a run: the last overtaking that nothing has confirmed since. */
  lemma OvertakenIff(s: State, events: seq<Event>, view: TopLevelView)
    ensures Overtaken(s, events) == Some(view) <==> exists i :: 0 <= i < |events| && OvertakenAt(s, events, view, i)
  {
    if Overtaken(s, events) == Some(view) {
      var i := LastOvertaking(s, events);
    }
    if i :| 0 <= i < |events| && OvertakenAt(s, events, view, i) {
      OvertakingStands(s, events, view, i);
    }
  }

  predicate OvertakenAt(s: State, events: seq<Event>, view: TopLevelView, i: int)
    requires 0 <= i < |events|
  {
    && Overtakes(Run(s, events[..i]), events[i]) && Run(s, events[..i]).writers[0].view == view
    && forall j :: i < j < |events| ==>
         !Overtakes(Run(s, events[..j]), events[j]) && !Confirms(Run(s, events[..j]), events[j])
  }

  /**
   Once the quit flush has begun, only its own passes raise the generation and no debounce is armed
   again, so the generation its first pass queued is still current when that write settles.
   */
  lemma {:induction false} QuitDrainNeedsOnePass(s: State, events: seq<Event>)
    requires s.quitFlushStarted && !s.timerArmed && DrainPass !in events
    ensures var s' := Run(s, events); s'.generation == s.generation && !s'.timerArmed && s'.quitFlushStarted
    decreases |events|
  {
    if events != [] {
      assert events[0] in events;
      assert forall e :: e in events[1..] ==> e in events;
      QuitDrainNeedsOnePass(Step(s, events[0]), events[1..]);
    }
  }

  lemma StepAndGeneration(s: State, e: Event)
    ensures Step(s, e).generation >= s.generation
    ensures Step(s, e).generation == s.generation && !s.timerArmed ==> !Step(s, e).timerArmed
  {
  }

  lemma {:induction false} RunAndGeneration(s: State, events: seq<Event>)
    ensures Run(s, events).generation >= s.generation
    ensures Run(s, events).generation == s.generation && !s.timerArmed ==> !Run(s, events).timerArmed
    decreases |events|
  {
    if events != [] {
      StepAndGeneration(s, events[0]);
      RunAndGeneration(Step(s, events[0]), events[1..]);
    }
  }

  /** The quit flush latches: from then on no view is scheduled and every further synchronous flush is refused. */
  lemma {:induction false} QuitIsFinal(s: State, events: seq<Event>)
    ensures Run(s, events).quitFlushStarted <==> s.quitFlushStarted || QuitFlush in events
    ensures s.quitFlushStarted && (forall e :: e in events ==> e.SetView? || e.Flush? || e.QuitFlush?) ==>
              Run(s, events) == s.(activeView := Run(s, events).activeView)
    decreases |events|
  {
    if events != [] {
      QuitIsFinal(Step(s, events[0]), events[1..]);
      assert events == [events[0]] + events[1..];
    }
  }

  // ---------------------------------------------------------------- every writer comes to its end

  /** What one writer does from the front of the chain on, and the operating system with it. */
  function OneWriter(ok: bool, fails: bool, removed: bool): seq<Event> {
    [WriterWrites(ok), WriterChecksGeneration, RenameReturns(fails), WriterContinues, WriterCleansUp(removed),
     WriterSettles]
  }

  lemma ComesToItsEnd(s: State, ok: bool, fails: bool)
    requires s.writers != []
    ensures var s' := StepContinues(StepRename(StepChecks(StepWrites(s, ok)), fails));
            && (s'.phase.Settled? || s'.phase.CleaningUp?)
            && s'.writers == s.writers && s'.pendingWrite == s.pendingWrite
            && s'.generation == s.generation && s'.activeView == s.activeView
  {
    var s1 := StepWrites(s, ok);
    assert s1.phase != Chained && s1.writers == s.writers;
    var s2 := StepChecks(s1);
    assert s2.phase != Chained && s2.phase != TmpWritten && s2.writers == s.writers;
    var s3 := StepRename(s2, fails);
    assert s3.phase != Chained && s3.phase != TmpWritten && s3.phase != Parked && s3.writers == s.writers;
  }

  /** Whatever fails and wherever it stands, the writer at the front makes way for the next one. */
  lemma {:induction false} WriterAlwaysSettles(s: State, ok: bool, fails: bool, removed: bool)
    requires Inv(s) && s.writers != []
    ensures var s' := Run(s, OneWriter(ok, fails, removed));
            && s'.writers == s.writers[1..] && s'.phase == Chained && s'.generation == s.generation
            && s'.activeView == s.activeView
            && s'.pendingWrite == (if |s.writers| == 1 then None else s.pendingWrite)
  {
    ComesToItsEnd(s, ok, fails);
    RunOneWriter(s, ok, fails, removed);
    assert |s.writers| > 1 ==> s.writers[0].generation < s.writers[|s.writers| - 1].generation;
  }

  lemma RunOneWriter(s: State, ok: bool, fails: bool, removed: bool)
    ensures Run(s, OneWriter(ok, fails, removed)) ==
            StepSettles(StepCleansUp(StepContinues(StepRename(StepChecks(StepWrites(s, ok)), fails)), removed))
  {
    var e := OneWriter(ok, fails, removed);
    var half := [WriterContinues, WriterCleansUp(removed), WriterSettles];
    assert e == [WriterWrites(ok), WriterChecksGeneration, RenameReturns(fails)] + half;
    RunThree(s, WriterWrites(ok), WriterChecksGeneration, RenameReturns(fails), half);
    assert half == [WriterContinues, WriterCleansUp(removed), WriterSettles] + [];
    RunThree(Step(Step(Step(s, e[0]), e[1]), e[2]), WriterContinues, WriterCleansUp(removed), WriterSettles, []);
  }

  lemma RunThree(s: State, a: Event, b: Event, c: Event, rest: seq<Event>)
    ensures Run(s, [a, b, c] + rest) == Run(Step(Step(Step(s, a), b), c), rest)
  {
    var e := [a, b, c] + rest;
    assert e[1..] == [b, c] + rest && e[1..][1..] == [c] + rest && e[1..][1..][1..] == rest;
    assert Run(s, e) == Run(Step(s, a), e[1..]) == Run(Step(Step(s, a), b), e[1..][1..]);
  }

  /** A parked writer whose file a flush has removed needs no second veto. */
  lemma VetoOnce(s: State, writeOk: bool, renameOk: bool)
    requires Inv(s) && !s.quitFlushStarted && !TrustsMarker(s)
    requires s.inFlightTmp.Some? && s.inFlightTmp.value in s.tmps
    ensures var s' := StepFlush(s, false, writeOk, renameOk);
            && s'.inFlightTmp.None? && s.inFlightTmp.value !in s'.tmps
            && StepFlush(s', true, writeOk, renameOk) == StepFlush(s', false, writeOk, renameOk)
  {
  }

  // ---------------------------------------------------------------- the drain loop

  /**
   The drain loop ends after a write it awaited when that write has settled and no newer generation has come up
   meanwhile.  In a clean run the file is then current.
   */
  lemma DrainedWriteIsCurrent(s: State, events: seq<Event>, touched: bool)
    requires Inv(s) && Converging(s, touched) && NoLitter(s) && !TrustsMarker(s) && CleanRun(StepDrain(s), events)
    requires Run(StepDrain(s), events).generation == StepDrain(s).generation
    requires forall w :: w in Run(StepDrain(s), events).writers ==> w.generation != StepDrain(s).generation
    ensures Run(StepDrain(s), events).File() == Some(Run(StepDrain(s), events).activeView)
  {
    var s1, s2 := StepDrain(s), Run(StepDrain(s), events);
    DrainKeepsInv(s);
    CleanStepKeepsNoLitter(s, DrainPass);
    assert Underway(s1);
    CleanRunConverges(s1, events, true);
    RunAndGeneration(s1, events);
    if s2.writers != [] {
      assert s2.writers[|s2.writers| - 1] in s2.writers;
    }
  }

  /** What happens during one await of the loop, and whether all who wait for the drain have aborted by its end. */
  datatype Turn = Turn(meanwhile: seq<Event>, aborted: bool)

  datatype DrainOutcome = Drained | Aborted | StillWaiting

  /** How a drain ends, and everything that has happened to the preference by then. */
  datatype Drain = Drain(outcome: DrainOutcome, events: seq<Event>)

  predicate Queued(s: State, generation: nat) {
    exists w :: w in s.writers && w.generation == generation
  }

  /** The loop from turn `i` on: it awaits its own write, and goes round again if a newer one has come up. */
  function DrainFrom(s: State, turns: seq<Turn>, i: nat, events: seq<Event>): Drain
    decreases |turns| - i
  {
    if TrustsMarker(s) then Drain(Drained, events + [DrainPass])
    else if i >= |turns| then Drain(StillWaiting, events + [DrainPass])
    else
      var s' := Run(StepDrain(s), turns[i].meanwhile);
      var events' := events + [DrainPass] + turns[i].meanwhile;
      if Queued(s', s.generation + 1) then Drain(StillWaiting, events')
      else if turns[i].aborted then Drain(Aborted, events')
      else if s'.generation == s.generation + 1 then Drain(Drained, events')
      else DrainFrom(s', turns, i + 1, events')
  }

  lemma {:induction false} RunJoins(s: State, first: seq<Event>, second: seq<Event>)
    ensures Run(s, first + second) == Run(Run(s, first), second)
    ensures CleanRun(s, first + second) <==> CleanRun(s, first) && CleanRun(Run(s, first), second)
    decreases |first|
  {
    if first == [] {
      assert first + second == second;
    } else {
      assert (first + second)[1..] == first[1..] + second;
      RunJoins(Step(s, first[0]), first[1..], second);
    }
  }

  lemma TurnJoins(s: State, events: seq<Event>, meanwhile: seq<Event>)
    ensures Run(s, events + [DrainPass]) == StepDrain(Run(s, events))
    ensures Run(s, events + [DrainPass] + meanwhile) == Run(StepDrain(Run(s, events)), meanwhile)
    ensures CleanRun(s, events + [DrainPass]) ==> CleanRun(s, events) && Clean(Run(s, events), DrainPass)
    ensures CleanRun(s, events + [DrainPass] + meanwhile) ==>
              CleanRun(s, events + [DrainPass]) && CleanRun(StepDrain(Run(s, events)), meanwhile)
  {
    RunAppend(s, events, DrainPass);
    RunJoins(s, events, [DrainPass]);
    RunJoins(s, events + [DrainPass], meanwhile);
  }

  lemma {:induction false} DrainExtends(s: State, turns: seq<Turn>, i: nat, events: seq<Event>)
    ensures events <= DrainFrom(s, turns, i, events).events
    decreases |turns| - i
  {
    if i < |turns| {
      var s' := Run(StepDrain(s), turns[i].meanwhile);
      DrainExtends(s', turns, i + 1, events + [DrainPass] + turns[i].meanwhile);
    }
  }

  /** A drain that ends in a clean run leaves the active view in the file, however often it had to go round. */
  lemma {:induction false} DrainedFileIsCurrent(stored: Option<TopLevelView>, fallback: TopLevelView,
        events: seq<Event>, turns: seq<Turn>, i: nat)
    requires var drain := DrainFrom(Run(Init(stored, fallback), events), turns, i, events);
             drain.outcome.Drained? && CleanRun(Init(stored, fallback), drain.events)
    ensures var drain := DrainFrom(Run(Init(stored, fallback), events), turns, i, events);
            var s := Run(Init(stored, fallback), drain.events);
            s.File() == Some(s.activeView)
    decreases |turns| - i
  {
    var start := Init(stored, fallback);
    var s := Run(start, events);
    if TrustsMarker(s) {
      TurnJoins(start, events, []);
      CleanRunConverges(start, events, false);
    } else {
      var meanwhile := turns[i].meanwhile;
      TurnJoins(start, events, meanwhile);
      var s' := Run(StepDrain(s), meanwhile);
      if s'.generation == s.generation + 1 {
        CleanRunConverges(start, events, false);
        DrainedWriteIsCurrent(s, meanwhile, AnySet(events));
      } else {
        DrainedFileIsCurrent(stored, fallback, events + [DrainPass] + meanwhile, turns, i + 1);
      }
    }
  }

  /** A drain of the quit flush is over, one way or the other, when the write of its first turn has settled. */
  lemma {:induction false} QuitDrainTakesOneTurn(s: State, turns: seq<Turn>, events: seq<Event>)
    requires s.quitFlushStarted && turns != [] && DrainPass !in turns[0].meanwhile
    requires !TrustsMarker(s) && !Queued(Run(StepDrain(s), turns[0].meanwhile), s.generation + 1)
    ensures DrainFrom(s, turns, 0, events) ==
            Drain(if turns[0].aborted then Aborted else Drained, events + [DrainPass] + turns[0].meanwhile)
  {
    QuitDrainNeedsOnePass(StepDrain(s), turns[0].meanwhile);
  }

  // ---------------------------------------------------------------- the class

  /** The fields of the preference, its promise chain, and the two kinds of file it writes. */
  class ActiveViewPreference {
    var activeView: TopLevelView
    var persistedActiveView: Option<TopLevelView>
    var writeTimer: bool
    var pendingWrite: Option<nat>
    var chain: seq<Writer>
    var phase: Phase
    var writeGeneration: nat
    var inFlightTmpFile: Option<nat>
    var quitFlushStarted: bool
    var tmpFiles: map<nat, TopLevelView>
    const stored: Option<TopLevelView>
    var landings: seq<Landing>
    ghost const fallback: TopLevelView
    /** Everything that has happened to this preference. */
    ghost var events: seq<Event>

    ghost function Abstract(): State
      reads this
    {
      State(activeView, persistedActiveView, writeTimer, pendingWrite, chain, phase, writeGeneration,
            inFlightTmpFile, quitFlushStarted, tmpFiles, stored, landings)
    }

    ghost predicate Valid()
      reads this
    {
      Abstract() == Run(Init(stored, fallback), events)
    }

    /** Whatever has happened, and whatever has failed: the invariant holds, and what landed is in order. */
    lemma ValidIsSafe()
      requires Valid()
      ensures Inv(Abstract()) && Increasing(landings)
    {
      InitInv(stored, fallback);
      RunKeepsInv(Init(stored, fallback), events);
    }

    ghost method Record(e: Event)
      requires Valid()
      modifies this`events
      ensures events == old(events) + [e] && Run(Init(stored, fallback), events) == Step(Abstract(), e)
    {
      RunAppend(Init(stored, fallback), events, e);
      events := events + [e];
    }

    /** `legacy` is None when the legacy setting is not a top-level view. */
    constructor (stored: Option<TopLevelView>, legacy: Option<TopLevelView>)
      ensures Abstract() == Init(stored, if legacy.Some? then legacy.value else Terminal)
      ensures stored.Some? ==> activeView == stored.value
      ensures stored.None? ==> activeView == if legacy.Some? then legacy.value else Terminal
      ensures persistedActiveView == stored == Abstract().File()
      ensures Valid() && events == []
    {
      var fallbackView := if legacy.Some? then legacy.value else Terminal;
      fallback, events := fallbackView, [];
      activeView := if stored.Some? then stored.value else fallbackView;
      persistedActiveView := stored;
      writeTimer, pendingWrite, chain, phase := false, None, [], Chained;
      writeGeneration, inFlightTmpFile, quitFlushStarted := 0, None, false;
      tmpFiles, landings := map[], [];
      this.stored := stored;
    }

    /** `value` is None when the argument is not a top-level view. */
    method Set(value: Option<TopLevelView>) returns (changed: bool)
      requires Valid()
      modifies this
      ensures Valid() && events == old(events) + (if value.None? then [] else [SetView(value.value)])
      ensures Abstract() == (if value.None? then old(Abstract()) else StepSet(old(Abstract()), value.value))
      ensures changed <==> value.Some? && value.value != old(activeView)
    {
      if value.Some? {
        Record(SetView(value.value));
      }
      if value.None? {
        return false;
      }
      changed := value.value != activeView;
      activeView := value.value;
      if value != persistedActiveView || writeTimer || pendingWrite.Some? {
        ScheduleSave();
      }
    }

    method ScheduleSave()
      modifies this`writeGeneration, this`writeTimer
      ensures Abstract() == StepSchedule(old(Abstract()))
    {
      if quitFlushStarted {
        return;
      }
      writeGeneration := writeGeneration + 1;
      writeTimer := true;
    }

    method OnTimer()
      requires Valid()
      modifies this
      ensures Valid() && events == old(events) + [TimerFires]
      ensures Abstract() == StepTimer(old(Abstract()))
    {
      Record(TimerFires);
      if writeTimer {
        writeTimer := false;
        EnqueueWrite(activeView, writeGeneration);
      }
    }

    method EnqueueWrite(view: TopLevelView, generation: nat)
      modifies this`chain, this`pendingWrite
      ensures Abstract() == Enqueue(old(Abstract()), view, generation)
    {
      chain := chain + [Writer(view, generation)];
      pendingWrite := Some(generation);
    }

    /** writeAsync up to the end of writeFile; `ok` says whether mkdir and writeFile succeed. */
    method WriteTmp(ok: bool)
      requires Valid()
      modifies this
      ensures Valid() && events == old(events) + [WriterWrites(ok)]
      ensures Abstract() == StepWrites(old(Abstract()), ok)
    {
      Record(WriterWrites(ok));
      if chain != [] && phase.Chained? {
        if ok {
          tmpFiles := tmpFiles[chain[0].generation := chain[0].view];
          phase := TmpWritten;
        } else {
          phase := CleaningUp;
        }
      }
    }

    method CheckGeneration()
      requires Valid()
      modifies this
      ensures Valid() && events == old(events) + [WriterChecksGeneration]
      ensures Abstract() == StepChecks(old(Abstract()))
    {
      Record(WriterChecksGeneration);
      if chain != [] && phase.TmpWritten? {
        if chain[0].generation != writeGeneration {
          phase := CleaningUp;
          return;
        }
        inFlightTmpFile := Some(chain[0].generation);
        phase := Parked;
      }
    }

    /** The operating system carries out the parked rename. */
    method OsRename(fails: bool)
      requires Valid()
      modifies this
      ensures Valid() && events == old(events) + [RenameReturns(fails)]
      ensures Abstract() == StepRename(old(Abstract()), fails)
    {
      Record(RenameReturns(fails));
      if chain != [] && phase.Parked? {
        var tmp := chain[0].generation;
        if fails || tmp !in tmpFiles {
          phase := RenameFailed;
        } else {
          landings := landings + [Landing(tmp, tmpFiles[tmp])];
          tmpFiles := tmpFiles - {tmp};
          phase := Landed;
        }
      }
    }

    method ContinueAfterRename()
      requires Valid()
      modifies this
      ensures Valid() && events == old(events) + [WriterContinues]
      ensures Abstract() == StepContinues(old(Abstract()))
    {
      Record(WriterContinues);
      if chain != [] && (phase.Landed? || phase.RenameFailed?) {
        var w := chain[0];
        if phase.Landed? && w.generation == writeGeneration {
          persistedActiveView := Some(w.view);
        }
        if inFlightTmpFile == Some(w.generation) {
          inFlightTmpFile := None;
        }
        phase := if phase.Landed? then Settled else CleaningUp;
      }
    }

    method RemoveTmp(removed: bool)
      requires Valid()
      modifies this
      ensures Valid() && events == old(events) + [WriterCleansUp(removed)]
      ensures Abstract() == StepCleansUp(old(Abstract()), removed)
    {
      Record(WriterCleansUp(removed));
      if chain != [] && phase.CleaningUp? {
        if removed {
          tmpFiles := tmpFiles - {chain[0].generation};
        }
        phase := Settled;
      }
    }

    method SettleWrite()
      requires Valid()
      modifies this
      ensures Valid() && events == old(events) + [WriterSettles]
      ensures Abstract() == StepSettles(old(Abstract()))
    {
      Record(WriterSettles);
      if chain != [] && phase.Settled? {
        if pendingWrite == Some(chain[0].generation) {
          pendingWrite := None;
        }
        chain := chain[1..];
        phase := Chained;
      }
    }

    method FlushOrThrow(unlinkFails: bool, writeOk: bool, renameOk: bool) returns (threw: bool)
      requires Valid()
      modifies this
      ensures Valid() && events == old(events) + [Flush(unlinkFails, writeOk, renameOk)]
      ensures Abstract() == StepFlush(old(Abstract()), unlinkFails, writeOk, renameOk)
      ensures threw <==> old(quitFlushStarted)
                         || (FlushWrites(old(Abstract()))
                             && ((old(inFlightTmpFile).Some? && unlinkFails) || !writeOk || !renameOk))
    {
      Record(Flush(unlinkFails, writeOk, renameOk));
      if quitFlushStarted {
        return true;
      }
      threw := FlushUnlessQuitting(unlinkFails, writeOk, renameOk);
    }

    method FlushUnlessQuitting(unlinkFails: bool, writeOk: bool, renameOk: bool) returns (threw: bool)
      requires !quitFlushStarted
      modifies `writeTimer, `writeGeneration, `inFlightTmpFile, `tmpFiles, `chain, `pendingWrite, `landings,
               `persistedActiveView
      ensures Abstract() == StepFlush(old(Abstract()), unlinkFails, writeOk, renameOk)
      ensures threw <==> FlushWrites(old(Abstract()))
                         && ((old(inFlightTmpFile).Some? && unlinkFails) || !writeOk || !renameOk)
    {
      writeTimer := false;
      var asyncWriteWasInFlight := pendingWrite.Some?;
      writeGeneration := writeGeneration + 1;
      if !asyncWriteWasInFlight && Some(activeView) == persistedActiveView {
        return false;
      }
      if inFlightTmpFile.Some? {
        if unlinkFails {
          EnqueueWrite(activeView, writeGeneration);
          return true;
        }
        if inFlightTmpFile.value in tmpFiles {
          tmpFiles := tmpFiles - {inFlightTmpFile.value};
          inFlightTmpFile := None;
        }
      }
      threw := WriteAndRename(writeOk, renameOk);
    }

    method WriteAndRename(writeOk: bool, renameOk: bool) returns (threw: bool)
      modifies this`tmpFiles, this`landings, this`persistedActiveView
      ensures Abstract() == WriteNow(old(Abstract()), writeOk, renameOk)
      ensures threw <==> !writeOk || !renameOk
    {
      if !writeOk {
        return true;
      }
      if !renameOk {
        tmpFiles := tmpFiles[writeGeneration := activeView];
        return true;
      }
      landings := landings + [Landing(writeGeneration, activeView)];
      persistedActiveView := Some(activeView);
      return false;
    }

    /** The first call of flushAsync; its drain is `DrainPendingWrites` below. */
    method BeginQuitFlush()
      requires Valid()
      modifies this
      ensures Valid() && events == old(events) + [QuitFlush]
      ensures Abstract() == Step(old(Abstract()), QuitFlush)
    {
      Record(QuitFlush);
      quitFlushStarted := true;
    }

    /** One turn of the drain loop up to its await; `waitFor` is the generation it awaits, if any. */
    method BeginDrainTurn() returns (waitFor: Option<nat>)
      requires Valid()
      modifies this
      ensures Valid() && events == old(events) + [DrainPass]
      ensures Abstract() == StepDrain(old(Abstract()))
      ensures waitFor == (if TrustsMarker(old(Abstract())) then None else Some(old(writeGeneration) + 1))
    {
      Record(DrainPass);
      writeTimer := false;
      if pendingWrite.None? && Some(activeView) == persistedActiveView {
        return None;
      }
      writeGeneration := writeGeneration + 1;
      EnqueueWrite(activeView, writeGeneration);
      return Some(writeGeneration);
    }

    /** One event, brought about by the method that stands for it. */
    method Happens(e: Event)
      requires Valid()
      modifies this
      ensures Valid() && events == old(events) + [e] && Abstract() == Step(old(Abstract()), e)
    {
      match e
      case SetView(view) => var changed := Set(Some(view));
      case TimerFires => OnTimer();
      case WriterWrites(ok) => WriteTmp(ok);
      case WriterChecksGeneration => CheckGeneration();
      case RenameReturns(fails) => OsRename(fails);
      case WriterContinues => ContinueAfterRename();
      case WriterCleansUp(removed) => RemoveTmp(removed);
      case WriterSettles => SettleWrite();
      case Flush(unlinkFails, writeOk, renameOk) => var threw := FlushOrThrow(unlinkFails, writeOk, renameOk);
      case DrainPass => var waitFor := BeginDrainTurn();
      case QuitFlush => BeginQuitFlush();
    }

    /** An await, while all of `meanwhile` happens. */
    method Await(meanwhile: seq<Event>)
      requires Valid()
      modifies this
      ensures Valid() && events == old(events) + meanwhile && Abstract() == Run(old(Abstract()), meanwhile)
    {
      var i := 0;
      assert meanwhile[..0] == [];
      while i < |meanwhile|
        invariant i <= |meanwhile|
        invariant Valid() && events == old(events) + meanwhile[..i]
        invariant Abstract() == Run(old(Abstract()), meanwhile[..i])
      {
        RunAppend(old(Abstract()), meanwhile[..i], meanwhile[i]);
        assert meanwhile[..i] + [meanwhile[i]] == meanwhile[..i + 1];
        Happens(meanwhile[i]);
        i := i + 1;
      }
      assert meanwhile[..i] == meanwhile;
    }

    /**
     The drain loop, for what happens during its awaits and for the answers of allFlushConsumersAborted, at the start
     and after each await; it is left waiting when `turns` ends before it does.
     */
    method DrainPendingWrites(aborted: bool, turns: seq<Turn>) returns (outcome: DrainOutcome)
      requires Valid()
      modifies this
      ensures Valid()
      ensures Drain(outcome, events) == if aborted then Drain(Aborted, old(events))
                                        else DrainFrom(old(Abstract()), turns, 0, old(events))
    {
      if aborted {
        return Aborted;
      }
      ghost var drain := DrainFrom(Abstract(), turns, 0, events);
      var i := 0;
      while true
        invariant i <= |turns| && Valid()
        invariant drain == DrainFrom(Abstract(), turns, i, events)
        decreases |turns| - i
      {
        var over := DrainTurn(turns, i);
        if over.Some? {
          return over.value;
        }
        i := i + 1;
      }
    }

    /** One turn of the loop; it goes round again if the result is None. */
    method DrainTurn(turns: seq<Turn>, i: nat) returns (over: Option<DrainOutcome>)
      requires Valid() && i <= |turns|
      modifies this
      ensures Valid()
      ensures var drain := DrainFrom(old(Abstract()), turns, i, old(events));
              if over.Some? then Drain(over.value, events) == drain
              else i < |turns| && DrainFrom(Abstract(), turns, i + 1, events) == drain
    {
      var waitFor := BeginDrainTurn();
      if waitFor.None? {
        return Some(Drained);
      }
      if i == |turns| {
        return Some(StillWaiting);
      }
      Await(turns[i].meanwhile);
      if exists w :: w in chain && w.generation == waitFor.value {
        return Some(StillWaiting);
      }
      if turns[i].aborted {
        return Some(Aborted);
      }
      return if waitFor.value == writeGeneration then Some(Drained) else None;
    }
  }
}
