/**
 The helper process that keeps the machine awake (src/main/linux-lid-sleep-assertion.ts and
 src/main/macos-system-sleep-assertion.ts), with the service that starts and stops it and that it calls
 back, re-entrantly, when it fails (src/main/agent-awake-service.ts).
 */
module SleepAssertion {
  import opened Wrappers

  const RETRY_MS := 30_000
  const STALE_AFTER_MS := 2 * 60 * 60 * 1000

  datatype Mode = On | Off | Auto
  /** `receivedAt` is None when it is not a finite number. */
  datatype AgentStatus = AgentStatus(working: bool, receivedAt: Option<int>, observed: bool)
  datatype SpawnResult = Spawned | Throws | ThrowsMissing

  /**
   What one synchronous stretch of code meets: successive readings of the clock, and the outcome should it
   try to spawn the helper.
   */
  datatype Moment = Moment(clock: nat -> int, spawn: SpawnResult)

  /** The clock does not run backwards and advances by less than the retry delay within the stretch. */
  ghost predicate Brief(m: Moment) {
    forall i, j :: 0 <= i <= j ==> m.clock(i) <= m.clock(j) < m.clock(0) + RETRY_MS
  }

  /**
   `live` are the helpers spawned and neither killed nor reported as failed; `attempts` are the times of the
   spawn attempts since the last stop; `readings` counts the clock readings of the present stretch.
   */
  datatype State = State(
    latches: bool,                  // a missing binary is remembered (Linux)
    child: Option<nat>,
    retryNotBefore: Option<int>,
    retryTimer: Option<int>,
    unavailable: bool,
    mode: Mode,
    statuses: seq<AgentStatus>,
    staleTimer: Option<int>,
    live: set<nat>,
    nextChild: nat,
    attempts: seq<int>,
    tries: nat,
    readings: nat
  )

  function Initial(latches: bool): State {
    State(latches, None, None, None, false, Off, [], None, {}, 0, [], 0, 0)
  }

  function Tick(s: State): State {
    s.(readings := s.readings + 1)
  }

  // ---------------------------------------------------------------- the assertion

  function ResetRetry(s: State): State {
    s.(retryNotBefore := None, retryTimer := None)
  }

  function ScheduleRetry(s: State, m: Moment): State {
    if s.retryNotBefore.None? || s.retryTimer.Some? then s
    else
      var now := m.clock(s.readings);
      Tick(s).(retryTimer := Some(if s.retryNotBefore.value > now then s.retryNotBefore.value else now))
  }

  function Stop(s: State): State {
    var s1 := ResetRetry(s).(attempts := []);
    if s1.child.None? then s1 else s1.(child := None, live := s1.live - {s1.child.value})
  }

  /** The retry delay is far enough ahead that nothing in this stretch can spawn any more. */
  predicate Deferred(s: State, m: Moment) {
    s.retryNotBefore.Some? && s.retryNotBefore.value >= m.clock(0) + RETRY_MS
  }

  function Start(s: State, m: Moment): State
    requires Brief(m)
    decreases if Deferred(s, m) then 0 else 1, 1
  {
    if s.child.Some? || s.unavailable then s
    else if s.retryNotBefore.None? then Attempt(s, m)
    else if m.clock(s.readings) < s.retryNotBefore.value then ScheduleRetry(Tick(s), m)
    else Attempt(Tick(s), m)
  }

  function Adopt(s: State): State {
    ResetRetry(s.(child := Some(s.nextChild), live := s.live + {s.nextChild}, nextChild := s.nextChild + 1))
  }

  /** The moment of the attempt is read off the clock for the record; the code itself does not look. */
  function Attempt(s: State, m: Moment): State
    requires Brief(m)
    decreases 1, 0
  {
    var s1 := Tick(s).(attempts := s.attempts + [m.clock(s.readings)], tries := s.tries + 1);
    match m.spawn
    case Spawned => Adopt(s1)
    case Throws => HandleFailure(s1, m, false)
    case ThrowsMissing => HandleFailure(s1, m, true)
  }

  function PostponeRetry(s: State, m: Moment): State {
    ScheduleRetry(Tick(s).(retryNotBefore := Some(m.clock(s.readings) + RETRY_MS)), m)
  }

  function HandleFailure(s: State, m: Moment, missing: bool): State
    requires Brief(m)
    decreases 0, 3
  {
    if missing && s.latches then ResetRetry(s.(unavailable := true))
    else Refresh(PostponeRetry(s, m), m)
  }

  // ---------------------------------------------------------------- the service

  predicate Timed(st: AgentStatus) {
    st.observed && st.working && st.receivedAt.Some?
  }

  function Expiry(st: AgentStatus): int
    requires Timed(st)
  {
    st.receivedAt.value + STALE_AFTER_MS
  }

  predicate WakeEligible(st: AgentStatus, now: int) {
    Timed(st) && now - st.receivedAt.value <= STALE_AFTER_MS
  }

  predicate ShouldBlock(s: State, now: int) {
    s.mode.On? || (s.mode.Auto? && exists k :: 0 <= k < |s.statuses| && WakeEligible(s.statuses[k], now))
  }

  function Earlier(a: Option<int>, b: Option<int>): Option<int> {
    if a.None? || (b.Some? && b.value < a.value) then b else a
  }

  function EarliestExpiry(statuses: seq<AgentStatus>, now: int): Option<int> {
    if statuses == [] then None
    else
      var rest := EarliestExpiry(statuses[1..], now);
      if Timed(statuses[0]) && Expiry(statuses[0]) > now then Earlier(Some(Expiry(statuses[0])), rest) else rest
  }

  function Refresh(s: State, m: Moment): State
    requires Brief(m)
    decreases if Deferred(s, m) then 0 else 1, 2
  {
    var s1 := Tick(s).(staleTimer := EarliestExpiry(s.statuses, m.clock(s.readings)));
    var s2 := Tick(s1);
    if ShouldBlock(s2, m.clock(s1.readings)) then Start(s2, m) else Stop(s2)
  }

  // ---------------------------------------------------------------- runs

  datatype Event =
    | SetMode(newMode: Mode)
    | SetStatuses(newStatuses: seq<AgentStatus>)
    | PowerResume
    | StaleTimerFires
    | RetryTimerFires
    | ChildFails(missing: bool)
    | Dispose

  /** The events that lead to a refresh.  Timers may fire at any time they are armed. */
  predicate Refreshes(s: State, e: Event) {
    match e
    case SetMode(newMode) => newMode != s.mode
    case SetStatuses(_) => true
    case PowerResume => true
    case StaleTimerFires => s.staleTimer.Some?
    case RetryTimerFires => s.retryTimer.Some?
    case ChildFails(_) => false
    case Dispose => false
  }

  function Prepared(s: State, e: Event): State {
    match e
    case SetMode(newMode) => s.(mode := newMode)
    case SetStatuses(newStatuses) => s.(statuses := newStatuses)
    case StaleTimerFires => s.(staleTimer := None)
    case RetryTimerFires => s.(retryTimer := None)
    case _ => s
  }

  /** One synchronous stretch.  Only a live helper can fail. */
  function Step(s: State, e: Event, m: Moment): State
    requires Brief(m)
  {
    var s0 := s.(readings := 0);
    if Refreshes(s, e) then Refresh(Prepared(s0, e), m)
    else if e.ChildFails? && s.child.Some?
    then HandleFailure(s0.(child := None, live := s.live - {s.child.value}), m, e.missing)
    else if e.Dispose? then Stop(s0.(staleTimer := None))
    else s0
  }

  /** Stretches follow one another: none begins before the one before it has ended. */
  ghost predicate Ordered(moments: seq<Moment>) {
    && (forall k :: 0 <= k < |moments| ==> Brief(moments[k]))
    && (forall j, k, i: nat :: 0 <= j < k < |moments| ==> moments[j].clock(i) <= moments[k].clock(0))
  }

  function Run(s: State, events: seq<Event>, moments: seq<Moment>): State
    requires |events| == |moments| && forall k :: 0 <= k < |moments| ==> Brief(moments[k])
    decreases |events|
  {
    if events == [] then s else Run(Step(s, events[0], moments[0]), events[1..], moments[1..])
  }

  predicate SpacedOut(attempts: seq<int>) {
    forall i, j :: 0 <= i < j < |attempts| ==> attempts[i] + RETRY_MS <= attempts[j]
  }

  function LastAttempt(s: State): int
    requires s.attempts != []
  {
    s.attempts[|s.attempts| - 1]
  }

  /** Holds between statements, `now` being a time not before the last attempt. */
  predicate Inv(s: State, now: int) {
    && s.live == (if s.child.Some? then {s.child.value} else {})
    && (s.child.Some? ==> s.retryNotBefore.None? && s.retryTimer.None? && !s.unavailable)
    && (s.retryTimer.Some? ==> s.retryNotBefore.Some?)
    && SpacedOut(s.attempts)
    && (s.attempts != [] ==>
          LastAttempt(s) <= now
          && (s.child.Some? || s.unavailable
              || (s.retryNotBefore.Some? && LastAttempt(s) + RETRY_MS <= s.retryNotBefore.value)))
  }

  lemma StopKeeps(s: State, now: int)
    requires Inv(s, now)
    ensures Inv(Stop(s), now) && Stop(s).tries == s.tries
  {
  }

  lemma ScheduleRetryKeeps(s: State, m: Moment)
    requires Brief(m) && Inv(s, m.clock(s.readings)) && s.child.None?
    ensures var s' := ScheduleRetry(s, m);
            && Inv(s', m.clock(s'.readings))
            && s' == s.(retryTimer := s'.retryTimer, readings := s'.readings)
  {
  }

  /** An attempt that may be made now is far enough from the one before. */
  lemma AttemptSpaced(s: State, now: int)
    requires Inv(s, now) && s.child.None? && !s.unavailable
    requires s.retryNotBefore.Some? ==> s.retryNotBefore.value <= now
    ensures SpacedOut(s.attempts + [now])
  {
  }

  lemma {:induction false} StartKeeps(s: State, m: Moment)
    requires Brief(m) && Inv(s, m.clock(s.readings))
    ensures var s' := Start(s, m);
            && Inv(s', m.clock(s'.readings)) && s'.tries <= s.tries + 1
            && (Deferred(s, m) ==> s'.tries == s.tries)
    decreases if Deferred(s, m) then 0 else 1, 1
  {
    if s.child.Some? || s.unavailable {
    } else if s.retryNotBefore.None? {
      AttemptKeeps(s, m);
    } else if m.clock(s.readings) < s.retryNotBefore.value {
      ScheduleRetryKeeps(Tick(s), m);
    } else {
      AttemptKeeps(Tick(s), m);
    }
  }

  lemma {:induction false} AttemptKeeps(s: State, m: Moment)
    requires Brief(m) && Inv(s, m.clock(s.readings)) && s.child.None? && !s.unavailable
    requires s.retryNotBefore.Some? ==> s.retryNotBefore.value <= m.clock(s.readings)
    ensures var s' := Attempt(s, m);
            Inv(s', m.clock(s'.readings)) && s'.tries == s.tries + 1
    decreases 1, 0
  {
    var s1 := Tick(s).(attempts := s.attempts + [m.clock(s.readings)], tries := s.tries + 1);
    AttemptSpaced(s, m.clock(s.readings));
    if !m.spawn.Spawned? {
      HandleFailureKeeps(s1, m, m.spawn.ThrowsMissing?);
    }
  }

  /** A failure puts every further attempt out of reach of the present stretch, or rules it out for good. */
  lemma {:induction false} HandleFailureKeeps(s: State, m: Moment, missing: bool)
    requires Brief(m) && s.child.None? && s.live == {} && !s.unavailable && SpacedOut(s.attempts)
    requires s.attempts != [] ==> LastAttempt(s) <= m.clock(s.readings)
    requires s.retryTimer.Some? ==> s.retryNotBefore.Some?
    ensures var s' := HandleFailure(s, m, missing);
            Inv(s', m.clock(s'.readings)) && s'.tries == s.tries
    decreases 0, 3
  {
    if !(missing && s.latches) {
      var s1 := Tick(s).(retryNotBefore := Some(m.clock(s.readings) + RETRY_MS));
      ScheduleRetryKeeps(s1, m);
      RefreshKeeps(PostponeRetry(s, m), m);
    }
  }

  lemma {:induction false} RefreshKeeps(s: State, m: Moment)
    requires Brief(m) && Inv(s, m.clock(s.readings))
    ensures var s' := Refresh(s, m);
            && Inv(s', m.clock(s'.readings)) && s'.tries <= s.tries + 1
            && (Deferred(s, m) ==> s'.tries == s.tries)
    decreases if Deferred(s, m) then 0 else 1, 2
  {
    var s1 := Tick(s).(staleTimer := EarliestExpiry(s.statuses, m.clock(s.readings)));
    var s2 := Tick(s1);
    assert m.clock(s.readings) <= m.clock(s2.readings);
    if ShouldBlock(s2, m.clock(s1.readings)) {
      StartKeeps(s2, m);
    } else {
      StopKeeps(s2, m.clock(s2.readings));
    }
  }

  lemma ChildFailsKeeps(s: State, m: Moment, missing: bool, now: int)
    requires Brief(m) && Inv(s, now) && now <= m.clock(0)
    ensures var s' := Step(s, ChildFails(missing), m); Inv(s', m.clock(s'.readings)) && s'.tries == s.tries
  {
    if s.child.Some? {
      HandleFailureKeeps(s.(readings := 0, child := None, live := s.live - {s.child.value}), m, missing);
    }
  }

  lemma PreparedKeeps(s: State, e: Event, now: int)
    requires Inv(s, now)
    ensures Inv(Prepared(s, e), now) && Prepared(s, e).tries == s.tries && Prepared(s, e).readings == s.readings
  {
  }

  /** One stretch tries at most one spawn, however deep the failure callback recurses into the service. */
  lemma StepKeeps(s: State, e: Event, m: Moment, now: int)
    requires Brief(m) && Inv(s, now) && now <= m.clock(0)
    ensures var s' := Step(s, e, m); Inv(s', m.clock(s'.readings)) && s'.tries <= s.tries + 1
  {
    var s0 := s.(readings := 0);
    if Refreshes(s, e) {
      PreparedKeeps(s0, e, m.clock(0));
      RefreshKeeps(Prepared(s0, e), m);
    } else if e.ChildFails? {
      ChildFailsKeeps(s, m, e.missing, now);
    } else if e.Dispose? {
      StopKeeps(s0.(staleTimer := None), m.clock(0));
    }
  }

  lemma {:induction false} RunKeeps(s: State, events: seq<Event>, moments: seq<Moment>, now: int)
    requires |events| == |moments| && Ordered(moments) && Inv(s, now)
    requires moments != [] ==> now <= moments[0].clock(0)
    ensures exists later :: Inv(Run(s, events, moments), later)
    ensures Run(s, events, moments).tries <= s.tries + |events|
    decreases |events|
  {
    if events == [] {
      assert Inv(Run(s, events, moments), now);
    } else {
      StepKeeps(s, events[0], moments[0], now);
      var s' := Step(s, events[0], moments[0]);
      assert forall k :: 0 <= k < |moments| - 1 ==> moments[1..][k] == moments[k + 1];
      RunKeeps(s', events[1..], moments[1..], moments[0].clock(s'.readings));
      var later :| Inv(Run(s', events[1..], moments[1..]), later);
      assert Inv(Run(s, events, moments), later);
    }
  }

  /**
   In every run: at most one helper is live and it is the one on record, a live helper excludes a pending
   retry, and attempts with no stop between them are at least thirty seconds apart.
   */
  lemma OneHelperSpacedAttempts(latches: bool, events: seq<Event>, moments: seq<Moment>)
    requires |events| == |moments| && Ordered(moments)
    ensures var s := Run(Initial(latches), events, moments);
            && s.live == (if s.child.Some? then {s.child.value} else {})
            && (s.live != {} ==> s.retryTimer.None? && s.retryNotBefore.None?)
            && SpacedOut(s.attempts) && s.tries <= |events|
  {
    RunKeeps(Initial(latches), events, moments, if moments == [] then 0 else moments[0].clock(0));
  }

  // ---------------------------------------------------------------- what a refresh is for

  /** A helper is live after a refresh only if some reading of the clock in it called for one. */
  lemma {:induction false} HelperHasReason(s: State, m: Moment)
    requires Brief(m) && Inv(s, m.clock(s.readings))
    requires forall k: nat :: !ShouldBlock(s, m.clock(k))
    ensures Refresh(s, m).live == {} && Refresh(s, m).child.None?
    ensures Refresh(s, m).retryTimer.None? && Refresh(s, m).retryNotBefore.None?
  {
    var s1 := Tick(s).(staleTimer := EarliestExpiry(s.statuses, m.clock(s.readings)));
    assert ShouldBlock(Tick(s1), m.clock(s1.readings)) == ShouldBlock(s, m.clock(s1.readings));
  }

  lemma AttemptSpawns(s: State, m: Moment)
    requires Brief(m) && m.spawn.Spawned?
    ensures Attempt(s, m).live == s.live + {s.nextChild}
  {
  }

  lemma StartSpawns(s: State, m: Moment)
    requires Brief(m) && m.spawn.Spawned? && !s.unavailable
    requires s.child.Some? ==> s.live != {}
    requires s.retryNotBefore.Some? ==> s.retryNotBefore.value <= m.clock(s.readings)
    ensures Start(s, m).live != {}
  {
    AttemptSpawns(s, m);
    AttemptSpawns(Tick(s), m);
  }

  /** While work goes on, a refresh outside the retry delay leaves a live helper if it can be spawned at all. */
  lemma WorkGetsHelper(s: State, m: Moment)
    requires Brief(m) && Inv(s, m.clock(s.readings)) && !s.unavailable && m.spawn.Spawned?
    requires forall k: nat :: ShouldBlock(s, m.clock(k))
    requires s.retryNotBefore.Some? ==> s.retryNotBefore.value <= m.clock(0)
    ensures Refresh(s, m).live != {}
  {
    var s1 := Tick(s).(staleTimer := EarliestExpiry(s.statuses, m.clock(s.readings)));
    var s2 := Tick(s1);
    assert ShouldBlock(s2, m.clock(s1.readings)) == ShouldBlock(s, m.clock(s1.readings));
    StartSpawns(s2, m);
  }

  lemma {:induction false} EarliestExpiryIsEarliest(statuses: seq<AgentStatus>, now: int)
    ensures var t := EarliestExpiry(statuses, now);
            && (t.Some? ==> now < t.value)
            && (t.Some? ==> exists k :: 0 <= k < |statuses| && Timed(statuses[k]) && Expiry(statuses[k]) == t.value)
            && (forall k :: 0 <= k < |statuses| && Timed(statuses[k]) && now < Expiry(statuses[k]) ==>
                  t.Some? && t.value <= Expiry(statuses[k]))
    decreases |statuses|
  {
    if statuses != [] {
      EarliestExpiryIsEarliest(statuses[1..], now);
      var rest := EarliestExpiry(statuses[1..], now);
      assert forall k :: 1 <= k < |statuses| ==> statuses[k] == statuses[1..][k - 1];
      if rest.Some? {
        var k :| 0 <= k < |statuses[1..]| && Timed(statuses[1..][k]) && Expiry(statuses[1..][k]) == rest.value;
        assert statuses[k + 1] == statuses[1..][k];
      }
    }
  }

  /**
   A status that keeps the machine awake at `now` has its lapse timed, by a timer no later than it lapses, if and only
   if it does not lapse at this very moment; at that moment it still counts and no timer is set for it.
   */
  lemma LapseIsTimedIff(statuses: seq<AgentStatus>, k: nat, now: int)
    requires k < |statuses| && WakeEligible(statuses[k], now)
    ensures var t := EarliestExpiry(statuses, now);
            t.Some? && t.value <= Expiry(statuses[k]) <==> Expiry(statuses[k]) != now
  {
    EarliestExpiryIsEarliest(statuses, now);
  }

  /** The stale timer was set for the earliest expiry as seen at reading `i` of the clock. */
  predicate TimedAt(s: State, m: Moment, i: nat) {
    s.staleTimer == EarliestExpiry(s.statuses, m.clock(i))
  }

  lemma {:induction false} StartTimes(s: State, m: Moment, i: nat) returns (j: nat)
    requires Brief(m) && TimedAt(s, m, i) && i <= s.readings
    ensures TimedAt(Start(s, m), m, j) && i <= j && Start(s, m).statuses == s.statuses
    decreases if Deferred(s, m) then 0 else 1, 1
  {
    j := i;
    if !(s.child.Some? || s.unavailable) {
      if s.retryNotBefore.None? {
        j := AttemptTimes(s, m, i);
      } else if m.clock(s.readings) >= s.retryNotBefore.value {
        j := AttemptTimes(Tick(s), m, i);
      }
    }
  }

  lemma {:induction false} AttemptTimes(s: State, m: Moment, i: nat) returns (j: nat)
    requires Brief(m) && TimedAt(s, m, i) && i <= s.readings
    ensures TimedAt(Attempt(s, m), m, j) && i <= j && Attempt(s, m).statuses == s.statuses
    decreases 1, 0
  {
    j := i;
    if !m.spawn.Spawned? {
      var s1 := Tick(s).(attempts := s.attempts + [m.clock(s.readings)], tries := s.tries + 1);
      j := HandleFailureTimes(s1, m, m.spawn.ThrowsMissing?, i);
    }
  }

  lemma {:induction false} HandleFailureTimes(s: State, m: Moment, missing: bool, i: nat) returns (j: nat)
    requires Brief(m) && TimedAt(s, m, i) && i <= s.readings
    ensures TimedAt(HandleFailure(s, m, missing), m, j) && i <= j && HandleFailure(s, m, missing).statuses == s.statuses
    decreases 0, 3
  {
    j := i;
    if !(missing && s.latches) {
      j := RefreshTimes(PostponeRetry(s, m), m);
    }
  }

  lemma {:induction false} RefreshTimes(s: State, m: Moment) returns (j: nat)
    requires Brief(m)
    ensures TimedAt(Refresh(s, m), m, j) && s.readings <= j && Refresh(s, m).statuses == s.statuses
    decreases if Deferred(s, m) then 0 else 1, 2
  {
    j := s.readings;
    var s1 := Tick(s).(staleTimer := EarliestExpiry(s.statuses, m.clock(s.readings)));
    var s2 := Tick(s1);
    if ShouldBlock(s2, m.clock(s1.readings)) {
      assert m.clock(s.readings) <= m.clock(s2.readings);
      j := StartTimes(s2, m, j);
    }
  }

  /** The same of the one timer a refresh leaves for all statuses, as seen at some reading of the clock in it. */
  lemma RefreshTimesLapsesIff(s: State, m: Moment) returns (j: nat)
    requires Brief(m)
    ensures s.readings <= j
    ensures forall k: nat :: k < |s.statuses| && WakeEligible(s.statuses[k], m.clock(j)) ==>
      var t := Refresh(s, m).staleTimer;
      (t.Some? && t.value <= Expiry(s.statuses[k]) <==> Expiry(s.statuses[k]) != m.clock(j))
  {
    j := RefreshTimes(s, m);
    forall k: nat | k < |s.statuses| && WakeEligible(s.statuses[k], m.clock(j))
      ensures var t := Refresh(s, m).staleTimer;
              t.Some? && t.value <= Expiry(s.statuses[k]) <==> Expiry(s.statuses[k]) != m.clock(j)
    {
      LapseIsTimedIff(s.statuses, k, m.clock(j));
    }
  }

  // ---------------------------------------------------------------- neither idle nor forgotten

  /** Whatever the clock says, nothing is to be kept awake. */
  predicate NoReason(s: State) {
    !s.mode.On? && (s.mode.Auto? ==> forall k :: 0 <= k < |s.statuses| ==> !Timed(s.statuses[k]))
  }

  predicate Quiet(s: State) {
    s.child.None? && s.retryTimer.None?
  }

  /** A helper is live, or an attempt is due, or there is no helper to be had. */
  predicate Covered(s: State) {
    s.child.Some? || s.retryTimer.Some? || s.unavailable
  }

  predicate AsItShould(s: State) {
    (NoReason(s) ==> Quiet(s)) && (s.mode.On? ==> Covered(s))
  }

  /** The statuses and the mode are the caller's, and with the mode on every way out is covered. */
  lemma {:induction false} StartCovers(s: State, m: Moment)
    requires Brief(m)
    ensures var s' := Start(s, m); s'.mode == s.mode && s'.statuses == s.statuses && (s.mode.On? ==> Covered(s'))
    decreases if Deferred(s, m) then 0 else 1, 1
  {
    if !(s.child.Some? || s.unavailable) {
      if s.retryNotBefore.None? {
        AttemptCovers(s, m);
      } else if m.clock(s.readings) >= s.retryNotBefore.value {
        AttemptCovers(Tick(s), m);
      }
    }
  }

  lemma {:induction false} AttemptCovers(s: State, m: Moment)
    requires Brief(m)
    ensures var s' := Attempt(s, m); s'.mode == s.mode && s'.statuses == s.statuses && (s.mode.On? ==> Covered(s'))
    decreases 1, 0
  {
    if !m.spawn.Spawned? {
      var s1 := Tick(s).(attempts := s.attempts + [m.clock(s.readings)], tries := s.tries + 1);
      HandleFailureCovers(s1, m, m.spawn.ThrowsMissing?);
    }
  }

  lemma {:induction false} HandleFailureCovers(s: State, m: Moment, missing: bool)
    requires Brief(m)
    ensures var s' := HandleFailure(s, m, missing);
            s'.mode == s.mode && s'.statuses == s.statuses && (s.mode.On? ==> Covered(s'))
    decreases 0, 3
  {
    if !(missing && s.latches) {
      RefreshCovers(PostponeRetry(s, m), m);
    }
  }

  lemma {:induction false} RefreshCovers(s: State, m: Moment)
    requires Brief(m)
    ensures var s' := Refresh(s, m); s'.mode == s.mode && s'.statuses == s.statuses && (s.mode.On? ==> Covered(s'))
    decreases if Deferred(s, m) then 0 else 1, 2
  {
    var s1 := Tick(s).(staleTimer := EarliestExpiry(s.statuses, m.clock(s.readings)));
    var s2 := Tick(s1);
    if ShouldBlock(s2, m.clock(s1.readings)) {
      assert m.clock(s.readings) <= m.clock(s2.readings);
      StartCovers(s2, m);
    }
  }

  lemma RefreshDoesAsItShould(s: State, m: Moment)
    requires Brief(m)
    ensures AsItShould(Refresh(s, m))
  {
    RefreshCovers(s, m);
    var s1 := Tick(s).(staleTimer := EarliestExpiry(s.statuses, m.clock(s.readings)));
    if NoReason(s) {
      assert !ShouldBlock(Tick(s1), m.clock(s1.readings));
    }
  }

  lemma StepDoesAsItShould(s: State, e: Event, m: Moment)
    requires Brief(m) && AsItShould(s) && !e.Dispose?
    ensures AsItShould(Step(s, e, m))
  {
    var s0 := s.(readings := 0);
    if Refreshes(s, e) {
      RefreshDoesAsItShould(Prepared(s0, e), m);
    } else if e.ChildFails? && s.child.Some? {
      HandleFailureCovers(s0.(child := None, live := s.live - {s.child.value}), m, e.missing);
    }
  }

  lemma {:induction false} RunDoesAsItShould(s: State, events: seq<Event>, moments: seq<Moment>)
    requires |events| == |moments| && forall k :: 0 <= k < |moments| ==> Brief(moments[k])
    requires AsItShould(s) && forall k :: 0 <= k < |events| ==> !events[k].Dispose?
    ensures AsItShould(Run(s, events, moments))
    decreases |events|
  {
    if events != [] {
      StepDoesAsItShould(s, events[0], moments[0]);
      RunDoesAsItShould(Step(s, events[0], moments[0]), events[1..], moments[1..]);
    }
  }

  /**
   In every run up to its disposal: with the mode off, or automatic and no working agent observed, there is no
   helper and no retry; with the mode on there is a helper, or a retry, or none to be had.
   */
  lemma NeitherIdleNorForgotten(latches: bool, events: seq<Event>, moments: seq<Moment>)
    requires |events| == |moments| && forall k :: 0 <= k < |moments| ==> Brief(moments[k])
    requires forall k :: 0 <= k < |events| ==> !events[k].Dispose?
    ensures var s := Run(Initial(latches), events, moments);
            (NoReason(s) ==> Quiet(s)) && (s.mode.On? ==> Covered(s))
  {
    RunDoesAsItShould(Initial(latches), events, moments);
  }

  // ---------------------------------------------------------------- when the helper is given up for good

  /** A failure in this stretch says that the binary is missing: the helper's own, or that of the attempt it makes. */
  predicate MissingReported(s: State, e: Event, m: Moment)
    requires Brief(m)
  {
    (e.ChildFails? && e.missing && s.child.Some?) || (m.spawn.ThrowsMissing? && Step(s, e, m).tries > s.tries)
  }

  predicate Latched(s: State, s': State, missing: bool, m: Moment) {
    && s'.latches == s.latches && s'.tries >= s.tries
    && (s'.unavailable <==>
          s.unavailable || (s.latches && (missing || (m.spawn.ThrowsMissing? && s'.tries > s.tries))))
  }

  lemma {:induction false} StartLatches(s: State, m: Moment)
    requires Brief(m)
    ensures Latched(s, Start(s, m), false, m)
    decreases if Deferred(s, m) then 0 else 1, 1
  {
    if !(s.child.Some? || s.unavailable) {
      if s.retryNotBefore.None? {
        AttemptLatches(s, m);
      } else if m.clock(s.readings) >= s.retryNotBefore.value {
        AttemptLatches(Tick(s), m);
      }
    }
  }

  lemma {:induction false} AttemptLatches(s: State, m: Moment)
    requires Brief(m)
    ensures Latched(s, Attempt(s, m), false, m)
    decreases 1, 0
  {
    if !m.spawn.Spawned? {
      var s1 := Tick(s).(attempts := s.attempts + [m.clock(s.readings)], tries := s.tries + 1);
      HandleFailureLatches(s1, m, m.spawn.ThrowsMissing?);
    }
  }

  lemma {:induction false} HandleFailureLatches(s: State, m: Moment, missing: bool)
    requires Brief(m)
    ensures Latched(s, HandleFailure(s, m, missing), missing, m)
    decreases 0, 3
  {
    if !(missing && s.latches) {
      RefreshLatches(PostponeRetry(s, m), m);
    }
  }

  lemma {:induction false} RefreshLatches(s: State, m: Moment)
    requires Brief(m)
    ensures Latched(s, Refresh(s, m), false, m)
    decreases if Deferred(s, m) then 0 else 1, 2
  {
    var s1 := Tick(s).(staleTimer := EarliestExpiry(s.statuses, m.clock(s.readings)));
    var s2 := Tick(s1);
    if ShouldBlock(s2, m.clock(s1.readings)) {
      assert m.clock(s.readings) <= m.clock(s2.readings);
      StartLatches(s2, m);
    }
  }

  lemma StepLatches(s: State, e: Event, m: Moment)
    requires Brief(m)
    ensures Step(s, e, m).latches == s.latches
    ensures Step(s, e, m).unavailable <==> s.unavailable || (s.latches && MissingReported(s, e, m))
  {
    var s0 := s.(readings := 0);
    if Refreshes(s, e) {
      RefreshLatches(Prepared(s0, e), m);
    } else if e.ChildFails? && s.child.Some? {
      HandleFailureLatches(s0.(child := None, live := s.live - {s.child.value}), m, e.missing);
    }
  }

  lemma {:induction false} RunLatches(s: State, events: seq<Event>, moments: seq<Moment>)
    requires |events| == |moments| && forall k :: 0 <= k < |moments| ==> Brief(moments[k])
    ensures Run(s, events, moments).unavailable <==>
              s.unavailable || (s.latches && exists k: nat :: ReportedAt(s, events, moments, k))
    decreases |events|
  {
    if events != [] {
      var s' := Step(s, events[0], moments[0]);
      StepLatches(s, events[0], moments[0]);
      RunLatches(s', events[1..], moments[1..]);
      assert ReportedAt(s, events, moments, 0) <==> MissingReported(s, events[0], moments[0]);
      forall k: nat | k < |events| - 1
        ensures ReportedAt(s, events, moments, k + 1) <==> ReportedAt(s', events[1..], moments[1..], k)
      {
        assert events[..k + 1][1..] == events[1..][..k] && moments[..k + 1][1..] == moments[1..][..k];
      }
      assert forall k: nat :: ReportedAt(s, events, moments, k) && k > 0 ==>
          ReportedAt(s', events[1..], moments[1..], k - 1);
    } else {
      assert forall k: nat :: !ReportedAt(s, events, moments, k);
    }
  }

  predicate ReportedAt(s: State, events: seq<Event>, moments: seq<Moment>, k: nat)
    requires |events| == |moments| && forall k :: 0 <= k < |moments| ==> Brief(moments[k])
  {
    k < |events| && MissingReported(Run(s, events[..k], moments[..k]), events[k], moments[k])
  }

  /**
   In every run: the helper is given up for good if and only if it is the one whose missing binary is remembered and
   some failure in the run reported it missing.
   */
  lemma UnavailableIff(latches: bool, events: seq<Event>, moments: seq<Moment>)
    requires |events| == |moments| && forall k :: 0 <= k < |moments| ==> Brief(moments[k])
    ensures Run(Initial(latches), events, moments).unavailable <==>
              latches && exists k: nat :: ReportedAt(Initial(latches), events, moments, k)
  {
    RunLatches(Initial(latches), events, moments);
  }

  // ---------------------------------------------------------------- when it is tried again

  /** A helper that fails for any other reason while there is work is tried again thirty seconds after it failed. */
  lemma ChildFailureRetries(s: State, m: Moment, missing: bool, now: int)
    requires Brief(m) && Inv(s, now) && s.child.Some? && !(missing && s.latches)
    requires forall k: nat :: ShouldBlock(s, m.clock(k))
    ensures var s' := Step(s, ChildFails(missing), m);
            && s'.child.None? && s'.live == {} && !s'.unavailable && s'.tries == s.tries
            && s'.retryNotBefore == Some(m.clock(0) + 30_000) == s'.retryTimer
  {
    var failed := s.(readings := 0, child := None, live := s.live - {s.child.value});
    var postponed := PostponeRetry(failed, m);
    assert m.clock(0) <= m.clock(1) < m.clock(0) + RETRY_MS;
    assert postponed.retryNotBefore == Some(m.clock(0) + RETRY_MS) == postponed.retryTimer;
    DelayIsKept(postponed, m);
  }

  /** Until the delay is over a refresh with work to do leaves it as it is, with a timer armed for its end. */
  lemma DelayIsKept(s: State, m: Moment)
    requires Brief(m) && s.child.None? && !s.unavailable
    requires s.retryNotBefore.Some? && forall k: nat :: m.clock(k) < s.retryNotBefore.value
    requires forall k: nat :: ShouldBlock(s, m.clock(k))
    ensures var s' := Refresh(s, m);
            && s'.child.None? && s'.live == s.live && s'.tries == s.tries && !s'.unavailable
            && s'.retryNotBefore == s.retryNotBefore
            && s'.retryTimer == if s.retryTimer.Some? then s.retryTimer else s.retryNotBefore
  {
    var s1 := Tick(s).(staleTimer := EarliestExpiry(s.statuses, m.clock(s.readings)));
    assert ShouldBlock(Tick(s1), m.clock(s1.readings)) == ShouldBlock(s, m.clock(s1.readings));
  }

  /** An attempt that fails for any other reason is repeated thirty seconds after its failure. */
  lemma AttemptFailureRetries(s: State, m: Moment)
    requires Brief(m) && s.child.None? && !s.unavailable
    requires m.spawn.Throws? || (m.spawn.ThrowsMissing? && !s.latches)
    requires forall k: nat :: ShouldBlock(s, m.clock(k))
    ensures Retried(s, Attempt(s, m), m, s.readings + 1)
  {
    var tried := Tick(s).(attempts := s.attempts + [m.clock(s.readings)], tries := s.tries + 1);
    var postponed := PostponeRetry(tried, m);
    var j := tried.readings;
    assert m.clock(0) <= m.clock(j) <= m.clock(j + 1) < m.clock(0) + RETRY_MS;
    forall k: nat
      ensures m.clock(k) < postponed.retryNotBefore.value
    {
      assert m.clock(0) <= m.clock(k) < m.clock(0) + RETRY_MS;
    }
    DelayIsKept(postponed, m);
    assert Attempt(s, m) == Refresh(postponed, m);
  }

  /** One more attempt has failed, at reading `j`; a timer that was still armed fires first, and finds the delay. */
  predicate Retried(s: State, s': State, m: Moment, j: nat) {
    && s'.child.None? && s'.live == s.live && !s'.unavailable && s'.tries == s.tries + 1
    && s'.retryNotBefore == Some(m.clock(j) + 30_000)
    && s'.retryTimer == if s.retryTimer.Some? then s.retryTimer else s'.retryNotBefore
  }

  lemma SpawnFailureRetries(s: State, m: Moment) returns (j: nat)
    requires Brief(m) && s.child.None? && !s.unavailable
    requires m.spawn.Throws? || (m.spawn.ThrowsMissing? && !s.latches)
    requires s.retryNotBefore.Some? ==> s.retryNotBefore.value <= m.clock(0)
    requires forall k: nat :: ShouldBlock(s, m.clock(k))
    ensures Retried(s, Refresh(s, m), m, j)
  {
    var s1 := Tick(s).(staleTimer := EarliestExpiry(s.statuses, m.clock(s.readings)));
    var s2 := Tick(s1);
    assert ShouldBlock(s2, m.clock(s1.readings)) == ShouldBlock(s, m.clock(s1.readings));
    assert m.clock(0) <= m.clock(s2.readings);
    var due := if s.retryNotBefore.Some? then Tick(s2) else s2;
    assert Refresh(s, m) == Start(s2, m) == Attempt(due, m);
    assert forall k: nat :: ShouldBlock(due, m.clock(k)) == ShouldBlock(s, m.clock(k));
    AttemptFailureRetries(due, m);
    j := due.readings + 1;
  }

  /** A timer that fires is spent: if it fires into the delay, one is armed for the delay's end. */
  lemma FiredTimerIsArmedAnew(s: State, m: Moment, now: int)
    requires Brief(m) && Inv(s, now) && s.retryTimer.Some? && !s.unavailable
    requires forall k: nat :: ShouldBlock(s, m.clock(k)) && m.clock(k) < s.retryNotBefore.value
    ensures var s' := Step(s, RetryTimerFires, m);
            s'.retryTimer == s.retryNotBefore == s'.retryNotBefore && s'.tries == s.tries && s'.live == {}
  {
    var s1 := Prepared(s.(readings := 0), RetryTimerFires);
    assert forall k: nat :: ShouldBlock(s1, m.clock(k)) == ShouldBlock(s, m.clock(k));
    DelayIsKept(s1, m);
  }

  /** If it fires when the delay is over and the attempt fails again, the next one is thirty seconds off. */
  lemma FailedRetryIsRepeated(s: State, m: Moment, now: int) returns (j: nat)
    requires Brief(m) && Inv(s, now) && s.retryTimer.Some? && !s.unavailable
    requires m.spawn.Throws? || (m.spawn.ThrowsMissing? && !s.latches)
    requires s.retryNotBefore.value <= m.clock(0) && forall k: nat :: ShouldBlock(s, m.clock(k))
    ensures var s' := Step(s, RetryTimerFires, m);
            && s'.tries == s.tries + 1 && s'.live == {} && !s'.unavailable
            && s'.retryTimer == s'.retryNotBefore == Some(m.clock(j) + 30_000)
  {
    var s1 := Prepared(s.(readings := 0), RetryTimerFires);
    assert forall k: nat :: ShouldBlock(s1, m.clock(k)) == ShouldBlock(s, m.clock(k));
    j := SpawnFailureRetries(s1, m);
  }

  // ---------------------------------------------------------------- what counts as a reason

  /** An agent seen at work in this run of the program, at most two hours ago. */
  predicate AtWork(st: AgentStatus, now: int) {
    match st
    case AgentStatus(true, Some(receivedAt), true) => now <= receivedAt + 7_200_000
    case _ => false
  }

  predicate Reason(mode: Mode, statuses: seq<AgentStatus>, now: int) {
    mode == On || (mode == Auto && exists st :: st in statuses && AtWork(st, now))
  }

  lemma ReasonIff(s: State, now: int)
    ensures ShouldBlock(s, now) <==> Reason(s.mode, s.statuses, now)
  {
    if ShouldBlock(s, now) && s.mode.Auto? {
      var k :| 0 <= k < |s.statuses| && WakeEligible(s.statuses[k], now);
      assert s.statuses[k] in s.statuses && AtWork(s.statuses[k], now);
    }
  }

  predicate Available(s: State, m: Moment) {
    && !s.unavailable && m.spawn.Spawned?
    && (s.retryNotBefore.Some? ==> s.retryNotBefore.value <= m.clock(0))
  }

  /**
   Every change of the mode, new statuses, a resume, and a timer that fires act at once: without a reason nothing is
   left running or armed; with one a helper is live, outside the delay and if it can be had.
   */
  lemma CallsFollowReason(s: State, e: Event, m: Moment, now: int)
    requires Brief(m) && Inv(s, now) && now <= m.clock(0)
    requires match e
             case SetMode(newMode) => newMode != s.mode
             case SetStatuses(_) => true
             case PowerResume => true
             case StaleTimerFires => s.staleTimer.Some?
             case RetryTimerFires => s.retryTimer.Some?
             case _ => false
    ensures var mode := if e.SetMode? then e.newMode else s.mode;
            var statuses := if e.SetStatuses? then e.newStatuses else s.statuses;
            var s' := Step(s, e, m);
            && s'.mode == mode && s'.statuses == statuses
            && ((forall k: nat :: !Reason(mode, statuses, m.clock(k))) ==>
                  s'.live == {} && s'.child.None? && s'.retryTimer.None? && s'.retryNotBefore.None?)
            && ((forall k: nat :: Reason(mode, statuses, m.clock(k))) && Available(s, m) ==> s'.live != {})
  {
    var s1 := Prepared(s.(readings := 0), e);
    PreparedKeeps(s.(readings := 0), e, m.clock(0));
    RefreshCovers(s1, m);
    forall k: nat
      ensures ShouldBlock(s1, m.clock(k)) <==> Reason(s1.mode, s1.statuses, m.clock(k))
    {
      ReasonIff(s1, m.clock(k));
    }
    if forall k: nat :: !ShouldBlock(s1, m.clock(k)) {
      HelperHasReason(s1, m);
    } else if (forall k: nat :: ShouldBlock(s1, m.clock(k))) && Available(s, m) {
      WorkGetsHelper(s1, m);
    }
  }

  /** After its disposal nothing of the service runs or is armed. */
  lemma DisposeEndsAll(s: State, m: Moment, now: int)
    requires Brief(m) && Inv(s, now)
    ensures var s' := Step(s, Dispose, m);
            s'.live == {} && s'.child.None? && s'.retryTimer.None? && s'.retryNotBefore.None? && s'.staleTimer.None?
  {
  }

  // ---------------------------------------------------------------- the two objects

  /** The helper's keeper: LinuxLidSleepAssertion when `latches`, otherwise MacosSystemSleepAssertion. */
  class HelperAssertion {
    const latches: bool
    var service: AgentAwakeService?   // whose refresh is called on an unexpected failure
    var child: Option<nat>
    var retryNotBefore: Option<int>
    var retryTimer: Option<int>
    var unavailable: bool
    var nextChild: nat
    var readings: nat
    ghost var live: set<nat>
    ghost var attempts: seq<int>
    ghost var tries: nat

    constructor (latches: bool)
      ensures this.latches == latches && service == null && child == None && retryNotBefore == None
      ensures retryTimer == None && !unavailable && nextChild == 0 && readings == 0
      ensures live == {} && attempts == [] && tries == 0
    {
      this.latches, service, child, retryNotBefore, retryTimer := latches, null, None, None, None;
      unavailable, nextChild, readings, live, attempts, tries := false, 0, 0, {}, [], 0;
    }

    ghost predicate Valid()
      reads this, service
    {
      service != null && service.assertion == this
    }

    method Now(m: Moment) returns (now: int)
      modifies `readings
      ensures now == m.clock(old(readings)) && readings == old(readings) + 1
    {
      now := m.clock(readings);
      readings := readings + 1;
    }

    method ResetRetrySuppression()
      requires Valid()
      modifies `retryNotBefore, `retryTimer
      ensures service.Abstract() == ResetRetry(old(service.Abstract()))
    {
      retryNotBefore := None;
      if retryTimer.None? {
        return;
      }
      retryTimer := None;
    }

    method ScheduleRetryTimer(m: Moment)
      requires Valid()
      modifies `retryTimer, `readings
      ensures service.Abstract() == ScheduleRetry(old(service.Abstract()), m)
    {
      if retryNotBefore.None? || retryTimer.Some? {
        return;
      }
      var now := Now(m);
      var retryDelay := if retryNotBefore.value - now > 0 then retryNotBefore.value - now else 0;
      retryTimer := Some(now + retryDelay);
    }

    method StopHelper()
      requires Valid()
      modifies this
      ensures Valid() && service == old(service) && service.Abstract() == Stop(old(service.Abstract()))
    {
      ResetRetrySuppression();
      attempts := [];
      if child.None? {
        return;
      }
      live := live - {child.value};
      child := None;
    }

    method StartHelper(m: Moment)
      requires Brief(m) && Valid()
      modifies this, service
      ensures service == old(service) && Valid() && service.Abstract() == Start(old(service.Abstract()), m)
      decreases if Deferred(service.Abstract(), m) then 0 else 1, 1
    {
      if child.Some? || unavailable {
        return;
      }
      if retryNotBefore.Some? {
        var now := Now(m);
        if now < retryNotBefore.value {
          ScheduleRetryTimer(m);
          return;
        }
      }
      SpawnHelper(m);
    }

    method SpawnHelper(m: Moment)
      requires Brief(m) && Valid()
      modifies this, service
      ensures service == old(service) && Valid() && service.Abstract() == Attempt(old(service.Abstract()), m)
      decreases 1, 0
    {
      var attemptedAt := Now(m);
      attempts := attempts + [attemptedAt];
      tries := tries + 1;
      if !m.spawn.Spawned? {
        ReportFailure(m, m.spawn.ThrowsMissing?);
        return;
      }
      AdoptHelper();
    }

    method AdoptHelper()
      requires Valid()
      modifies this
      ensures service == old(service) && Valid() && service.Abstract() == Adopt(old(service.Abstract()))
    {
      child, live, nextChild := Some(nextChild), live + {nextChild}, nextChild + 1;
      ResetRetrySuppression();
    }

    method ReportFailure(m: Moment, missing: bool)
      requires Brief(m) && Valid()
      modifies this, service
      ensures service == old(service) && Valid()
      ensures service.Abstract() == HandleFailure(old(service.Abstract()), m, missing)
      decreases 0, 3
    {
      if missing && latches {
        unavailable := true;
        ResetRetrySuppression();
        return;
      }
      PostponeNextStart(m);
      service.RefreshAssertion(m);
    }

    method PostponeNextStart(m: Moment)
      requires Brief(m) && Valid()
      modifies this
      ensures service == old(service) && Valid() && service.Abstract() == PostponeRetry(old(service.Abstract()), m)
      ensures Deferred(service.Abstract(), m)
    {
      var now := Now(m);
      retryNotBefore := Some(now + RETRY_MS);
      ScheduleRetryTimer(m);
    }

    /** A helper's first `error` or `exit` event; its listeners are detached by it, and by a stop. */
    method HandleChildFailure(m: Moment, missing: bool)
      requires Brief(m) && Valid()
      modifies this, service
      ensures service == old(service) && Valid()
      ensures service.Abstract() == Step(old(service.Abstract()), ChildFails(missing), m)
    {
      readings := 0;
      if child.None? {
        return;
      }
      live := live - {child.value};
      child := None;
      ReportFailure(m, missing);
    }
  }

  class AgentAwakeService {
    const assertion: HelperAssertion
    var mode: Mode
    var statuses: seq<AgentStatus>
    var staleTimer: Option<int>

    ghost function Abstract(): State
      reads this, assertion
    {
      State(assertion.latches, assertion.child, assertion.retryNotBefore, assertion.retryTimer, assertion.unavailable,
            mode, statuses, staleTimer, assertion.live, assertion.nextChild, assertion.attempts, assertion.tries,
            assertion.readings)
    }

    constructor (latches: bool)
      ensures assertion.service == this && assertion.Valid() && fresh(assertion)
      ensures Abstract() == Initial(latches)
    {
      var helper := new HelperAssertion(latches);
      assertion, mode, statuses, staleTimer := helper, Off, [], None;
      new;
      assertion.service := this;
    }

    method ScheduleStaleTimer(m: Moment)
      modifies `staleTimer, assertion`readings
      ensures var s := old(Abstract());
              Abstract() == Tick(s).(staleTimer := EarliestExpiry(s.statuses, m.clock(s.readings)))
    {
      staleTimer := None;
      var now := assertion.Now(m);
      var earliestExpiry: Option<int> := None;
      var i := 0;
      while i < |statuses|
        invariant 0 <= i <= |statuses|
        invariant EarliestExpiry(statuses, now) == Earlier(earliestExpiry, EarliestExpiry(statuses[i..], now))
      {
        if Timed(statuses[i]) && Expiry(statuses[i]) > now {
          var expiry := Expiry(statuses[i]);
          earliestExpiry :=
            if earliestExpiry.None? || expiry < earliestExpiry.value then Some(expiry) else earliestExpiry;
        }
        i := i + 1;
      }
      staleTimer := earliestExpiry;
    }

    method EligibleRunningStatusCount(m: Moment) returns (count: nat)
      modifies assertion`readings
      ensures Abstract() == Tick(old(Abstract()))
      ensures var now := m.clock(old(assertion.readings));
              count > 0 <==> exists k :: 0 <= k < |statuses| && WakeEligible(statuses[k], now)
    {
      var now := assertion.Now(m);
      count := 0;
      for i := 0 to |statuses|
        invariant count > 0 <==> exists k :: 0 <= k < i && WakeEligible(statuses[k], now)
      {
        if WakeEligible(statuses[i], now) {
          count := count + 1;
        }
      }
    }

    method RefreshAssertion(m: Moment)
      requires Brief(m) && assertion.service == this
      modifies this, assertion
      ensures assertion.service == this && Abstract() == Refresh(old(Abstract()), m)
      decreases if Deferred(Abstract(), m) then 0 else 1, 2
    {
      ScheduleStaleTimer(m);
      var runningStatusCount := EligibleRunningStatusCount(m);
      if mode.On? || (mode.Auto? && runningStatusCount > 0) {
        assertion.StartHelper(m);
      } else {
        assertion.StopHelper();
      }
    }

    method ChangeMode(newMode: Mode, m: Moment)
      requires Brief(m) && assertion.service == this
      modifies this, assertion
      ensures assertion.service == this && Abstract() == Step(old(Abstract()), SetMode(newMode), m)
    {
      assertion.readings := 0;
      if mode == newMode {
        return;
      }
      mode := newMode;
      RefreshAssertion(m);
    }

    method ChangeStatuses(newStatuses: seq<AgentStatus>, m: Moment)
      requires Brief(m) && assertion.service == this
      modifies this, assertion
      ensures assertion.service == this && Abstract() == Step(old(Abstract()), SetStatuses(newStatuses), m)
    {
      assertion.readings := 0;
      statuses := newStatuses;
      RefreshAssertion(m);
    }

    method OnPowerResume(m: Moment)
      requires Brief(m) && assertion.service == this
      modifies this, assertion
      ensures assertion.service == this && Abstract() == Step(old(Abstract()), PowerResume, m)
    {
      assertion.readings := 0;
      RefreshAssertion(m);
    }

    method OnStaleTimer(m: Moment)
      requires Brief(m) && assertion.service == this
      requires staleTimer.Some?
      modifies this, assertion
      ensures assertion.service == this && Abstract() == Step(old(Abstract()), StaleTimerFires, m)
    {
      assertion.readings := 0;
      staleTimer := None;
      RefreshAssertion(m);
    }

    method OnRetryTimer(m: Moment)
      requires Brief(m) && assertion.service == this
      requires assertion.retryTimer.Some?
      modifies this, assertion
      ensures assertion.service == this && Abstract() == Step(old(Abstract()), RetryTimerFires, m)
    {
      assertion.readings := 0;
      assertion.retryTimer := None;
      RefreshAssertion(m);
    }

    method Close(m: Moment)
      requires Brief(m) && assertion.service == this
      modifies this, assertion
      ensures assertion.service == this && Abstract() == Step(old(Abstract()), Dispose, m)
    {
      assertion.readings := 0;
      staleTimer := None;
      assertion.StopHelper();
    }
  }
}
