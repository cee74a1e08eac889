/**
 The three-state circuit breaker.

 Every method and every tick of a background loop is one step at one instant
 of a clock that never goes back. The window counters are int64 in the
 program; here they are unbounded.
*/
module CircuitBreakers {

  datatype State = Closed | Open | HalfOpen

  datatype Settings = Settings(maxRequests: int, timeout: int, failureRate: real, slowCallMs: int)

  datatype Breaker = Breaker(
    state: State,
    successes: int, failures: int, slow: int, total: int,
    halfOpen: int,
    lastChange: int, lastFailure: int)

  datatype Event =
    | Success(duration: int, now: int)
    | Failure(now: int)
    | ResetTick(now: int)
    | TransitionTick(now: int)

  function NewBreaker(now: int): Breaker {
    Breaker(Closed, 0, 0, 0, 0, 0, now, 0)
  }

  /** Whole milliseconds; Go's division truncates toward zero. */
  function Milliseconds(duration: int): int {
    if duration >= 0 then duration / 1000000 else -((-duration) / 1000000)
  }

  function Rate(failures: int, total: int): real {
    if total == 0 then 0.0 else failures as real / total as real
  }

  function TransitionTo(b: Breaker, state: State, now: int): Breaker {
    b.(state := state, lastChange := now, halfOpen := 0)
  }

  function Allows(s: Settings, b: Breaker, now: int): bool {
    match b.state
    case Closed => true
    case Open => now - b.lastChange > s.timeout
    case HalfOpen => b.halfOpen < s.maxRequests
  }

  function Succeeded(s: Settings, b: Breaker, duration: int, now: int): Breaker {
    var counted := b.(
      successes := b.successes + 1,
      total := b.total + 1,
      slow := if Milliseconds(duration) > s.slowCallMs then b.slow + 1 else b.slow);
    if b.state != HalfOpen then counted
    else if b.halfOpen + 1 >= s.maxRequests then TransitionTo(counted, Closed, now)
    else counted.(halfOpen := b.halfOpen + 1)
  }

  function Failed(b: Breaker, now: int): Breaker {
    var counted := b.(failures := b.failures + 1, total := b.total + 1, lastFailure := now);
    if b.state == HalfOpen then TransitionTo(counted, Open, now) else counted
  }

  function Checked(s: Settings, b: Breaker, now: int): Breaker {
    if b.state == Closed && b.total > 0 && Rate(b.failures, b.total) >= s.failureRate then TransitionTo(b, Open, now)
    else if b.state == Open && now - b.lastChange > s.timeout then TransitionTo(b, HalfOpen, now)
    else b
  }

  function Step(s: Settings, b: Breaker, e: Event): Breaker {
    match e
    case Success(duration, now) => Succeeded(s, b, duration, now)
    case Failure(now) => Failed(b, now)
    case ResetTick(_) => b.(successes := 0, failures := 0, slow := 0, total := 0)
    case TransitionTick(now) => Checked(s, b, now)
  }

  class CircuitBreaker {
    const settings: Settings
    var state: State
    var successCount: int
    var failureCount: int
    var slowCount: int
    var totalCount: int
    var halfOpenCount: int
    var lastStateChange: int
    var lastFailureTime: int

    ghost function Model(): Breaker
      reads this
    {
      Breaker(state, successCount, failureCount, slowCount, totalCount, halfOpenCount, lastStateChange, lastFailureTime)
    }

    constructor (settings: Settings, now: int)
      ensures this.settings == settings && Model() == NewBreaker(now)
      ensures state == Closed && successCount == failureCount == slowCount == totalCount == halfOpenCount == 0
      ensures lastStateChange == now
    {
      this.settings := settings;
      state := Closed;
      successCount, failureCount, slowCount, totalCount, halfOpenCount := 0, 0, 0, 0, 0;
      lastStateChange, lastFailureTime := now, 0;
    }

    method Allow(now: int) returns (ok: bool)
      ensures ok == Allows(settings, Model(), now)
      ensures ok <==>
        || state == Closed
        || (state == Open && now - lastStateChange > settings.timeout)
        || (state == HalfOpen && halfOpenCount < settings.maxRequests)
    {
      match state
      case Closed => ok := true;
      case Open => ok := now - lastStateChange > settings.timeout;
      case HalfOpen => ok := halfOpenCount < settings.maxRequests;
    }

    method Change(newState: State, now: int)
      modifies this
      ensures Model() == TransitionTo(old(Model()), newState, now)
      ensures state == newState && lastStateChange == now && halfOpenCount == 0 && lastFailureTime == old(lastFailureTime)
      ensures successCount == old(successCount) && failureCount == old(failureCount)
      ensures slowCount == old(slowCount) && totalCount == old(totalCount)
    {
      state := newState;
      lastStateChange := now;
      halfOpenCount := 0;
    }

    method RecordSuccess(duration: int, now: int)
      modifies this
      ensures Model() == Step(settings, old(Model()), Success(duration, now))
      ensures successCount == old(successCount) + 1 && totalCount == old(totalCount) + 1 && failureCount == old(failureCount)
      ensures old(state) != HalfOpen ==>
        state == old(state) && halfOpenCount == old(halfOpenCount) && lastStateChange == old(lastStateChange)
      ensures old(state) == HalfOpen && old(halfOpenCount) + 1 < settings.maxRequests ==>
        state == HalfOpen && halfOpenCount == old(halfOpenCount) + 1 && lastStateChange == old(lastStateChange)
      ensures old(state) == HalfOpen && old(halfOpenCount) + 1 >= settings.maxRequests ==>
        state == Closed && halfOpenCount == 0 && lastStateChange == now
    {
      successCount := successCount + 1;
      totalCount := totalCount + 1;
      if Milliseconds(duration) > settings.slowCallMs {
        slowCount := slowCount + 1;
      }
      if state == HalfOpen {
        halfOpenCount := halfOpenCount + 1;
        if halfOpenCount >= settings.maxRequests {
          Change(Closed, now);
        }
      }
    }

    method RecordFailure(now: int)
      modifies this
      ensures Model() == Step(settings, old(Model()), Failure(now))
      ensures failureCount == old(failureCount) + 1 && totalCount == old(totalCount) + 1 && successCount == old(successCount)
      ensures slowCount == old(slowCount) && lastFailureTime == now
      ensures old(state) == HalfOpen ==> state == Open && halfOpenCount == 0 && lastStateChange == now
      ensures old(state) != HalfOpen ==>
        state == old(state) && halfOpenCount == old(halfOpenCount) && lastStateChange == old(lastStateChange)
    {
      failureCount := failureCount + 1;
      totalCount := totalCount + 1;
      lastFailureTime := now;
      if state == HalfOpen {
        Change(Open, now);
      }
    }

    method WindowReset(now: int)
      modifies this
      ensures Model() == Step(settings, old(Model()), ResetTick(now))
      ensures successCount == failureCount == slowCount == totalCount == 0
      ensures state == old(state) && halfOpenCount == old(halfOpenCount) && lastStateChange == old(lastStateChange)
    {
      successCount := 0;
      failureCount := 0;
      slowCount := 0;
      totalCount := 0;
    }

    method StateTransition(now: int)
      modifies this
      ensures Model() == Step(settings, old(Model()), TransitionTick(now))
      ensures successCount == old(successCount) && failureCount == old(failureCount) && totalCount == old(totalCount)
      ensures state == old(state) ==> lastStateChange == old(lastStateChange) && halfOpenCount == old(halfOpenCount)
      ensures state != old(state) ==> lastStateChange == now && halfOpenCount == 0
      ensures old(state) == Open ==> state == if now - old(lastStateChange) > settings.timeout then HalfOpen else Open
      ensures old(state) == HalfOpen ==> state == HalfOpen
      ensures old(state) == Closed ==>
        state == if totalCount > 0 && Rate(failureCount, totalCount) >= settings.failureRate then Open else Closed
    {
      if state == Closed {
        var rate := Rate(failureCount, totalCount);
        if totalCount > 0 && rate >= settings.failureRate {
          Change(Open, now);
        }
      } else if state == Open {
        if now - lastStateChange > settings.timeout {
          Change(HalfOpen, now);
        }
      }
    }
  }

  // ---------------------------------------------------------------------
  // Runs, and what can be read off the history alone.
  // ---------------------------------------------------------------------

  function Run(s: Settings, start: int, events: seq<Event>): Breaker {
    if events == [] then NewBreaker(start)
    else Step(s, Run(s, start, events[..|events| - 1]), events[|events| - 1])
  }

  function End(start: int, events: seq<Event>): int {
    if events == [] then start else events[|events| - 1].now
  }

  ghost predicate InOrder(start: int, events: seq<Event>) {
    forall k :: 0 <= k < |events| ==> End(start, events[..k]) <= events[k].now
  }

  function Successes(events: seq<Event>): nat {
    if events == [] then 0 else Successes(events[..|events| - 1]) + (if events[|events| - 1].Success? then 1 else 0)
  }

  function Failures(events: seq<Event>): nat {
    if events == [] then 0 else Failures(events[..|events| - 1]) + (if events[|events| - 1].Failure? then 1 else 0)
  }

  predicate IsSlow(s: Settings, e: Event) {
    e.Success? && Milliseconds(e.duration) > s.slowCallMs
  }

  function SlowCalls(s: Settings, events: seq<Event>): nat {
    if events == [] then 0 else SlowCalls(s, events[..|events| - 1]) + (if IsSlow(s, events[|events| - 1]) then 1 else 0)
  }

  /** The number of events up to and including the latest window reset. */
  function LastReset(events: seq<Event>): (k: nat)
    ensures k <= |events|
    ensures k > 0 ==> events[k - 1].ResetTick?
    ensures forall i :: k <= i < |events| ==> !events[i].ResetTick?
  {
    if events == [] || events[|events| - 1].ResetTick? then |events| else LastReset(events[..|events| - 1])
  }

  /** The outcomes recorded since the latest window reset. */
  function Window(events: seq<Event>): seq<Event> {
    events[LastReset(events)..]
  }

  /** The number of events up to and including the latest change of state. */
  function LastChange(s: Settings, start: int, events: seq<Event>): (k: nat)
    ensures k <= |events|
  {
    if events == [] then 0
    else
      var front := events[..|events| - 1];
      if Run(s, start, front).state != Run(s, start, events).state then |events| else LastChange(s, start, front)
  }

  /** The state has not changed since. */
  lemma {:induction false} SameSinceChange(s: Settings, start: int, events: seq<Event>, i: nat)
    requires LastChange(s, start, events) <= i <= |events|
    ensures Run(s, start, events[..i]).state == Run(s, start, events).state
  {
    if i == |events| {
      assert events[..i] == events;
    } else {
      var front := events[..|events| - 1];
      SameSinceChange(s, start, front, i);
      assert front[..i] == events[..i];
    }
  }

  /** It did change there. */
  lemma {:induction false} ChangedThere(s: Settings, start: int, events: seq<Event>)
    requires LastChange(s, start, events) > 0
    ensures var k := LastChange(s, start, events);
            Run(s, start, events[..k]).state != Run(s, start, events[..k - 1]).state
  {
    var k := LastChange(s, start, events);
    if k == |events| {
      assert events[..k] == events;
    } else {
      var front := events[..|events| - 1];
      ChangedThere(s, start, front);
      assert front[..k] == events[..k] && front[..k - 1] == events[..k - 1];
    }
  }

  /** The events since the breaker entered its present state. */
  function SinceChange(s: Settings, start: int, events: seq<Event>): seq<Event> {
    events[LastChange(s, start, events)..]
  }

  function Limit(s: Settings): nat {
    if s.maxRequests > 1 then s.maxRequests else 1
  }

  lemma CountAppend(s: Settings, events: seq<Event>, e: Event)
    ensures Successes(events + [e]) == Successes(events) + (if e.Success? then 1 else 0)
    ensures Failures(events + [e]) == Failures(events) + (if e.Failure? then 1 else 0)
    ensures SlowCalls(s, events + [e]) == SlowCalls(s, events) + (if IsSlow(s, e) then 1 else 0)
  {
    assert (events + [e])[..|events|] == events;
  }

  /** The window counters are counts over the window. */
  ghost predicate WindowTallies(s: Settings, b: Breaker, window: seq<Event>) {
    && b.successes == Successes(window)
    && b.failures == Failures(window)
    && b.slow == SlowCalls(s, window)
    && b.total == Successes(window) + Failures(window)
  }

  /** The half-open counter counts what came since the latest change. */
  ghost predicate ProbeTally(s: Settings, b: Breaker, since: seq<Event>, changedAt: int) {
    && b.lastChange == changedAt
    && (if b.state == HalfOpen
        then b.halfOpen == Successes(since) < Limit(s) && Failures(since) == 0
        else b.halfOpen == 0)
  }

  ghost predicate Tallies(s: Settings, b: Breaker, window: seq<Event>, since: seq<Event>, changedAt: int) {
    WindowTallies(s, b, window) && ProbeTally(s, b, since, changedAt)
  }

  /** A check changes the state or nothing. */
  lemma CheckedCounts(s: Settings, b: Breaker, now: int)
    ensures var b' := Checked(s, b, now);
            b' == b || (b.state != HalfOpen && b'.state != b.state && b' == TransitionTo(b, b'.state, now))
  {
  }

  lemma StepWindow(s: Settings, b: Breaker, window: seq<Event>, e: Event)
    requires WindowTallies(s, b, window)
    ensures WindowTallies(s, Step(s, b, e), if e.ResetTick? then [] else window + [e])
  {
    CountAppend(s, window, e);
    if e.TransitionTick? {
      CheckedCounts(s, b, e.now);
    }
  }

  lemma StepProbes(s: Settings, b: Breaker, since: seq<Event>, changedAt: int, e: Event)
    requires ProbeTally(s, b, since, changedAt)
    ensures var b' := Step(s, b, e);
            if b'.state != b.state then ProbeTally(s, b', [], e.now) else ProbeTally(s, b', since + [e], changedAt)
  {
    CountAppend(s, since, e);
    if e.TransitionTick? {
      CheckedCounts(s, b, e.now);
    }
  }

  /** When the breaker entered its present state. */
  function ChangedAt(s: Settings, start: int, events: seq<Event>): int {
    End(start, events[..LastChange(s, start, events)])
  }

  lemma WindowAppend(events: seq<Event>, e: Event)
    ensures Window(events + [e]) == if e.ResetTick? then [] else Window(events) + [e]
  {
    assert (events + [e])[..|events|] == events;
  }

  lemma SinceAppend(s: Settings, start: int, events: seq<Event>, e: Event)
    ensures var all := events + [e];
            var changed := Run(s, start, all).state != Run(s, start, events).state;
            && SinceChange(s, start, all) == (if changed then [] else SinceChange(s, start, events) + [e])
            && ChangedAt(s, start, all) == (if changed then e.now else ChangedAt(s, start, events))
  {
    var all, n := events + [e], |events|;
    assert all[..n] == events;
    assert all[..n + 1] == all;
    var k := LastChange(s, start, events);
    assert all[..k] == events[..k];
  }

  lemma {:induction false} CountersAreHistory(s: Settings, start: int, events: seq<Event>)
    ensures Tallies(s, Run(s, start, events), Window(events), SinceChange(s, start, events), ChangedAt(s, start, events))
  {
    if events != [] {
      var front, e := events[..|events| - 1], events[|events| - 1];
      assert events == front + [e];
      CountersAreHistory(s, start, front);
      StepWindow(s, Run(s, start, front), Window(front), e);
      StepProbes(s, Run(s, start, front), SinceChange(s, start, front), ChangedAt(s, start, front), e);
      WindowAppend(front, e);
      SinceAppend(s, start, front, e);
    }
  }

  /** There is an outcome and the failures have reached their share of the outcomes. */
  predicate TripDue(rate: real, failures: nat, outcomes: nat) {
    outcomes > 0 && Rate(failures, outcomes) >= rate
  }

  /**
   The next state, decided by the history alone: the outcomes since the latest
   window reset, the time of the latest change and the successes since then.
   */
  ghost function Decided(s: Settings, state: State, window: seq<Event>, since: seq<Event>, changedAt: int, e: Event): State {
    match state
    case Closed =>
      if e.TransitionTick? && TripDue(s.failureRate, Failures(window), Successes(window) + Failures(window)) then Open else Closed
    case Open =>
      if e.TransitionTick? && e.now - changedAt > s.timeout then HalfOpen else Open
    case HalfOpen =>
      if e.Failure? then Open
      else if e.Success? && Successes(since) + 1 == Limit(s) then Closed
      else HalfOpen
  }

  lemma StepDecided(s: Settings, b: Breaker, window: seq<Event>, since: seq<Event>, changedAt: int, e: Event)
    requires Tallies(s, b, window, since, changedAt)
    ensures Step(s, b, e).state == Decided(s, b.state, window, since, changedAt, e)
  {
  }

  /** The share is what times the total gives the failures. */
  lemma RateCompare(failures: nat, total: nat, threshold: real)
    requires total > 0
    ensures Rate(failures, total) >= threshold <==> failures as real >= threshold * total as real
  {
    var f, t := failures as real, total as real;
    var q := f / t;
    assert q * t == f;
    if q >= threshold {
      assert (q - threshold) * t >= 0.0;
    } else {
      assert (threshold - q) * t > 0.0;
    }
  }

  /**
   CLOSED opens exactly at a tick that finds an outcome and a failure share at
   or above the threshold; OPEN half-opens exactly at a tick more than the
   timeout after it was entered; HALF_OPEN opens on any failure and closes on
   exactly the maxRequests-th success since it was entered.
   */
  lemma {:induction false} HistoryDecides(s: Settings, start: int, events: seq<Event>, e: Event)
    ensures Run(s, start, events + [e]).state ==
              Decided(s, Run(s, start, events).state, Window(events), SinceChange(s, start, events), ChangedAt(s, start, events), e)
  {
    CountersAreHistory(s, start, events);
    assert (events + [e])[..|events|] == events;
    StepDecided(s, Run(s, start, events), Window(events), SinceChange(s, start, events), ChangedAt(s, start, events), e);
  }

  /** The failures have reached their share of the outcomes. */
  lemma DueExactly(rate: real, failures: nat, outcomes: nat)
    ensures TripDue(rate, failures, outcomes) <==> outcomes > 0 && failures as real >= rate * outcomes as real
  {
    if outcomes > 0 {
      RateCompare(failures, outcomes, rate);
    }
  }

  /** A closed breaker can only trip, and does so exactly at a check that finds the failures' share reached. */
  lemma TripsExactly(s: Settings, start: int, events: seq<Event>, e: Event, failed: nat, outcomes: nat)
    requires Run(s, start, events).state == Closed
    requires failed == Failures(Window(events)) && outcomes == Successes(Window(events)) + failed
    ensures var next := Run(s, start, events + [e]).state;
            next == if e.TransitionTick? && TripDue(s.failureRate, failed, outcomes) then Open else Closed
  {
    HistoryDecides(s, start, events, e);
  }

  /** An open one can only half-open, at a check more than the timeout later. */
  lemma HalfOpensExactly(s: Settings, start: int, events: seq<Event>, e: Event)
    requires Run(s, start, events).state == Open
    ensures var next := Run(s, start, events + [e]).state;
            next == if e.TransitionTick? && e.now - ChangedAt(s, start, events) > s.timeout then HalfOpen else Open
  {
    HistoryDecides(s, start, events, e);
  }

  /** A half-open one opens on any failure and closes on the maxRequests-th success. */
  lemma ClosesExactly(s: Settings, start: int, events: seq<Event>, e: Event)
    requires Run(s, start, events).state == HalfOpen
    ensures var next := Run(s, start, events + [e]).state;
            next ==
              if e.Failure? then Open
              else if e.Success? && Successes(SinceChange(s, start, events)) + 1 >= s.maxRequests then Closed
              else HalfOpen
  {
    HistoryDecides(s, start, events, e);
    CountersAreHistory(s, start, events);
  }

  /**
   The gate in every run: a request is admitted exactly while the breaker is
   closed, or more than the timeout after it opened, or, half-open, if at least
   one probe is asked for.
   */
  lemma {:induction false} GateExactly(s: Settings, start: int, events: seq<Event>, now: int)
    ensures Allows(s, Run(s, start, events), now) <==>
              var state := Run(s, start, events).state;
              || state == Closed
              || (state == Open && now - ChangedAt(s, start, events) > s.timeout)
              || (state == HalfOpen && s.maxRequests >= 1)
  {
    CountersAreHistory(s, start, events);
  }

  /** A slow call takes whole milliseconds more than the threshold. */
  lemma SlowExactly(s: Settings, duration: int, now: int)
    ensures IsSlow(s, Success(duration, now)) <==>
              if s.slowCallMs >= 0 then duration >= (s.slowCallMs + 1) * 1000000 else duration > s.slowCallMs * 1000000
  {
  }

  /**
   The number of probes is not limited: in HALF_OPEN the gate compares the
   recorded successes, which stay below the limit, so it admits every request
   exactly when maxRequests is at least 1.
   */
  lemma {:induction false} HalfOpenAdmitsAll(s: Settings, start: int, events: seq<Event>, now: int)
    requires Run(s, start, events).state == HalfOpen
    ensures Allows(s, Run(s, start, events), now) <==> s.maxRequests >= 1
  {
    CountersAreHistory(s, start, events);
  }

  // ---------------------------------------------------------------------
  // A change of state keeps the window counters, so a breaker that has just
  // closed can open again without a new failure.
  // ---------------------------------------------------------------------

  /** Event c closes the breaker, the last one opens it, and none in between is a failure. */
  ghost predicate Reopens(s: Settings, start: int, events: seq<Event>, c: nat) {
    && InOrder(start, events)
    && c < |events| - 1
    && Run(s, start, events[..c]).state == HalfOpen && Run(s, start, events[..c + 1]).state == Closed
    && Run(s, start, events[..|events| - 1]).state == Closed && Run(s, start, events).state == Open
    && forall i :: c < i < |events| ==> !events[i].Failure?
  }

  ghost predicate CanReopen(s: Settings) {
    exists start, events, c :: Reopens(s, start, events, c)
  }

  lemma {:induction false} NoFailures(events: seq<Event>)
    requires forall i :: 0 <= i < |events| ==> !events[i].Failure?
    ensures Failures(events) == 0
  {
    if events != [] {
      NoFailures(events[..|events| - 1]);
    }
  }

  lemma {:induction false} SomeSuccess(events: seq<Event>, i: nat)
    requires i < |events| && events[i].Success?
    ensures Successes(events) > 0
  {
    if i < |events| - 1 {
      SomeSuccess(events[..|events| - 1], i);
    }
  }

  lemma OnlySuccessCloses(s: Settings, start: int, front: seq<Event>, e: Event)
    requires Run(s, start, front).state == HalfOpen && Run(s, start, front + [e]).state == Closed
    ensures e.Success?
  {
    assert (front + [e])[..|front|] == front;
    assert Step(s, Run(s, start, front), e).state == Closed;
  }

  /** Of the outcomes in the window either none is a failure or one is the success that closed the breaker. */
  lemma WindowWithSuccess(front: seq<Event>, c: nat)
    requires c < |front| && front[c].Success? && forall i :: c < i < |front| ==> !front[i].Failure?
    ensures Failures(Window(front)) == 0 || Successes(Window(front)) > 0
  {
    var k := LastReset(front);
    if k <= c {
      assert front[k..][c - k] == front[c];
      SomeSuccess(front[k..], c - k);
    } else {
      NoFailures(front[k..]);
    }
  }

  lemma BelowOne(rate: real, failures: nat, outcomes: nat)
    requires TripDue(rate, failures, outcomes) && failures < outcomes
    ensures rate < 1.0
  {
    RateCompare(failures, outcomes, rate);
    if rate >= 1.0 {
      AtLeast(rate, outcomes as real);
      assert false;
    }
  }

  lemma AtLeast(rate: real, n: real)
    requires rate >= 1.0 && n >= 0.0
    ensures rate * n >= n
  {
    assert (rate - 1.0) * n >= 0.0;
  }

  lemma TripIsDue(s: Settings, start: int, front: seq<Event>, e: Event)
    requires Run(s, start, front).state == Closed && Run(s, start, front + [e]).state == Open
    ensures TripDue(s.failureRate, Failures(Window(front)), Successes(Window(front)) + Failures(Window(front)))
  {
    HistoryDecides(s, start, front, e);
    var window, since, changedAt := Window(front), SinceChange(s, start, front), ChangedAt(s, start, front);
    assert Decided(s, Closed, window, since, changedAt, e) == Open;
  }

  lemma ClosingWindow(s: Settings, start: int, front: seq<Event>, e: Event, c: nat)
    requires Reopens(s, start, front + [e], c)
    ensures Failures(Window(front)) == 0 || Successes(Window(front)) > 0
  {
    var events := front + [e];
    assert events[..c + 1] == front[..c] + [front[c]] && events[..c] == front[..c];
    OnlySuccessCloses(s, start, front[..c], front[c]);
    assert forall i :: c < i < |front| ==> front[i] == events[i];
    WindowWithSuccess(front, c);
  }

  lemma SureFailuresOnly(s: Settings, start: int, front: seq<Event>, e: Event, c: nat)
    requires Reopens(s, start, front + [e], c)
    ensures s.failureRate < 1.0
  {
    ClosingWindow(s, start, front, e, c);
    assert (front + [e])[..|front|] == front;
    TripIsDue(s, start, front, e);
    DueBelowOne(s.failureRate, Window(front));
  }

  lemma DueBelowOne(rate: real, window: seq<Event>)
    requires Failures(window) == 0 || Successes(window) > 0
    requires TripDue(rate, Failures(window), Successes(window) + Failures(window))
    ensures rate < 1.0
  {
    BelowOne(rate, Failures(window), Successes(window) + Failures(window));
  }

  lemma RunExtend(s: Settings, start: int, events: seq<Event>, e: Event)
    requires InOrder(start, events) && End(start, events) <= e.now
    ensures InOrder(start, events + [e]) && End(start, events + [e]) == e.now
    ensures Run(s, start, events + [e]) == Step(s, Run(s, start, events), e)
  {
    var all := events + [e];
    assert forall k :: 0 <= k <= |events| ==> all[..k] == events[..k];
    assert all[..|events|] == events;
  }

  lemma {:induction false} OnlyFailures(s: Settings, n: nat) returns (events: seq<Event>)
    ensures InOrder(0, events) && End(0, events) == 0
    ensures Run(s, 0, events) == Breaker(Closed, 0, n, 0, n, 0, 0, 0)
  {
    if n == 0 {
      events := [];
    } else {
      var front := OnlyFailures(s, n - 1);
      RunExtend(s, 0, front, Failure(0));
      events := front + [Failure(0)];
    }
  }

  /** n failures, a trip, and the timeout. */
  lemma FailedAndHalfOpen(s: Settings, n: nat, later: nat) returns (events: seq<Event>)
    requires n > 0 && s.failureRate <= 1.0 && later > s.timeout
    ensures InOrder(0, events) && End(0, events) == later
    ensures Run(s, 0, events) == Breaker(HalfOpen, 0, n, 0, n, 0, later, 0)
  {
    var failed := OnlyFailures(s, n);
    RunExtend(s, 0, failed, TransitionTick(0));
    RateCompare(n, n, s.failureRate);
    assert n as real >= s.failureRate * n as real by { AtMost(s.failureRate, n as real); }
    assert Checked(s, Breaker(Closed, 0, n, 0, n, 0, 0, 0), 0) == Breaker(Open, 0, n, 0, n, 0, 0, 0);
    var tripped := failed + [TransitionTick(0)];
    RunExtend(s, 0, tripped, TransitionTick(later));
    events := tripped + [TransitionTick(later)];
  }

  lemma AtMost(rate: real, n: real)
    requires rate <= 1.0 && n >= 0.0
    ensures rate * n <= n
  {
    assert (1.0 - rate) * n >= 0.0;
  }

  /** k successes that are not slow enough to count as such. */
  lemma {:induction false} Probed(s: Settings, n: nat, later: nat, k: nat, front: seq<Event>) returns (events: seq<Event>, slow: int)
    requires InOrder(0, front) && End(0, front) == later
    requires Run(s, 0, front) == Breaker(HalfOpen, 0, n, 0, n, 0, later, 0)
    requires k < Limit(s)
    ensures InOrder(0, events) && End(0, events) == later
    ensures Run(s, 0, events) == Breaker(HalfOpen, k, n, slow, n + k, k, later, 0)
  {
    if k == 0 {
      events, slow := front, 0;
    } else {
      var before, slowBefore := Probed(s, n, later, k - 1, front);
      RunExtend(s, 0, before, Success(0, later));
      events := before + [Success(0, later)];
      slow := Run(s, 0, events).slow;
    }
  }

  /** So many old failures that they outweigh the successes that close the breaker. */
  lemma EnoughFailures(rate: real, limit: nat) returns (n: nat)
    requires rate < 1.0 && limit > 0
    ensures n > 0 && Rate(n, n + limit) >= rate
  {
    var l, room := limit as real, 1.0 - rate;
    var least := rate * l / room;
    n := if least < 0.0 then 1 else least.Floor + 1;
    var f := n as real;
    assert f >= least;
    ShareReached(rate, l, f);
    assert (n + limit) as real == f + l;
    RateCompare(n, n + limit, rate);
  }

  lemma ShareReached(rate: real, l: real, f: real)
    requires rate < 1.0 && f >= rate * l / (1.0 - rate)
    ensures f >= rate * (f + l)
  {
    var room := 1.0 - rate;
    var least := rate * l / room;
    assert least * room == rate * l;
    assert (f - least) * room >= 0.0;
    assert f * room == f - rate * f;
    assert rate * (f + l) == rate * f + rate * l;
  }

  lemma ClosesAndTrips(s: Settings, n: nat, slow: int, later: nat)
    requires Rate(n, n + Limit(s)) >= s.failureRate
    ensures var k := Limit(s);
            var closed := Step(s, Breaker(HalfOpen, k - 1, n, slow, n + k - 1, k - 1, later, 0), Success(0, later));
            closed.state == Closed && Step(s, closed, TransitionTick(later)).state == Open
  {
    var k := Limit(s);
    var closed := Succeeded(s, Breaker(HalfOpen, k - 1, n, slow, n + k - 1, k - 1, later, 0), 0, later);
    assert closed.state == Closed && closed.failures == n && closed.total == n + k;
  }

  lemma OldFailuresReopen(s: Settings)
    requires s.failureRate < 1.0
    ensures CanReopen(s)
  {
    var limit := Limit(s);
    var later: nat := if s.timeout < 0 then 0 else s.timeout + 1;
    var n := EnoughFailures(s.failureRate, limit);
    var half := FailedAndHalfOpen(s, n, later);
    var probed, slow := Probed(s, n, later, limit - 1, half);
    ClosesAndTrips(s, n, slow, later);
    ReopensAfter(s, probed, Success(0, later), TransitionTick(later));
  }

  lemma ReopensAfter(s: Settings, probed: seq<Event>, close: Event, tick: Event)
    requires InOrder(0, probed) && End(0, probed) == close.now == tick.now && !tick.Failure?
    requires Run(s, 0, probed).state == HalfOpen
    requires Step(s, Run(s, 0, probed), close).state == Closed
    requires Step(s, Step(s, Run(s, 0, probed), close), tick).state == Open
    ensures CanReopen(s)
  {
    var closed := probed + [close];
    var events, c := closed + [tick], |probed|;
    RunExtend(s, 0, probed, close);
    RunExtend(s, 0, closed, tick);
    Prefixes(probed, close, tick);
    assert Reopens(s, 0, events, c);
  }

  lemma Prefixes(front: seq<Event>, a: Event, b: Event)
    ensures var all := front + [a] + [b];
            all[..|front|] == front && all[..|front| + 1] == front + [a] && all[..|all| - 1] == front + [a]
  {
  }

  /**
   Some run closes and opens again with no failure since it closed exactly when
   the failure threshold is below 1: the success that closes the breaker lies in
   the window of any failure from before it.
   */
  lemma ReopensOnOldFailures(s: Settings)
    ensures CanReopen(s) <==> s.failureRate < 1.0
  {
    if s.failureRate < 1.0 {
      OldFailuresReopen(s);
    } else if CanReopen(s) {
      var start, events, c :| Reopens(s, start, events, c);
      var front, e := events[..|events| - 1], events[|events| - 1];
      assert events == front + [e];
      SureFailuresOnly(s, start, front, e, c);
    }
  }

  ghost predicate SameButDuration(e: Event, f: Event) {
    e == f || (e.Success? && f.Success? && e.now == f.now)
  }

  /** The slow-call threshold has no effect: how long calls take changes nothing but the slow count. */
  lemma {:induction false} DurationsDoNotMatter(s: Settings, start: int, a: seq<Event>, b: seq<Event>)
    requires |a| == |b| && forall k :: 0 <= k < |a| ==> SameButDuration(a[k], b[k])
    ensures Run(s, start, a) == Run(s, start, b).(slow := Run(s, start, a).slow)
  {
    if a != [] {
      DurationsDoNotMatter(s, start, a[..|a| - 1], b[..|b| - 1]);
      assert SameButDuration(a[|a| - 1], b[|b| - 1]);
    }
  }

  // ---------------------------------------------------------------------
  // Trips.
  // ---------------------------------------------------------------------

  /** The k-th event opens the breaker. */
  ghost predicate TripAt(s: Settings, start: int, events: seq<Event>, k: nat)
    requires k < |events|
  {
    Run(s, start, events[..k]).state != Open && Run(s, start, events[..k + 1]).state == Open
  }

  /** The times of all trips of a run, in order. */
  function Trips(s: Settings, start: int, events: seq<Event>): seq<int> {
    if events == [] then []
    else
      var front, e := events[..|events| - 1], events[|events| - 1];
      Trips(s, start, front)
      + (if Run(s, start, front).state != Open && Run(s, start, events).state == Open then [e.now] else [])
  }

  /** Between trips: OPEN since the latest one, or more than the timeout past it. */
  ghost predicate SinceTrip(s: Settings, start: int, events: seq<Event>) {
    var b, trips := Run(s, start, events), Trips(s, start, events);
    && (forall i :: 0 <= i < |trips| - 1 ==> trips[i + 1] - trips[i] > s.timeout)
    && (b.state == Open ==> trips != [] && trips[|trips| - 1] == b.lastChange)
    && (trips != [] && b.state != Open ==> End(start, events) - trips[|trips| - 1] > s.timeout)
    && (trips != [] ==> trips[|trips| - 1] <= End(start, events))
  }

  /** The breaker enters OPEN at the time of the event, and leaves it more than the timeout later. */
  lemma OpenStep(s: Settings, b: Breaker, e: Event)
    ensures var b' := Step(s, b, e);
            && (b.state == Open && b'.state == Open ==> b'.lastChange == b.lastChange)
            && (b.state != Open && b'.state == Open ==> b'.lastChange == e.now)
            && (b.state == Open && b'.state != Open ==> e.now - b.lastChange > s.timeout)
  {
    if e.TransitionTick? {
      CheckedCounts(s, b, e.now);
    }
  }

  lemma {:induction false} TripsSpaced(s: Settings, start: int, events: seq<Event>)
    requires InOrder(start, events)
    ensures SinceTrip(s, start, events)
  {
    if events != [] {
      var n := |events| - 1;
      var front := events[..n];
      assert forall k :: 0 <= k < n ==> front[..k] == events[..k];
      TripsSpaced(s, start, front);
      OpenStep(s, Run(s, start, front), events[n]);
    }
  }

  lemma OneGapMore(n: int, gap: int)
    ensures (n - 1) * gap + gap == n * gap
  {
  }

  /** Trips i and j of a run are more than j - i timeouts apart. */
  lemma {:induction false} TripSpacing(s: Settings, start: int, events: seq<Event>, i: nat, j: nat)
    requires InOrder(start, events) && i < j < |Trips(s, start, events)|
    ensures Trips(s, start, events)[j] - Trips(s, start, events)[i] > (j - i) * s.timeout
    decreases j
  {
    TripsSpaced(s, start, events);
    var trips := Trips(s, start, events);
    assert trips[j - 1 + 1] - trips[j - 1] > s.timeout;
    if i < j - 1 {
      TripSpacing(s, start, events, i, j - 1);
      OneGapMore(j - i, s.timeout);
    }
  }

  function Within(times: seq<int>, from: int, to: int): nat {
    if times == [] then 0
    else Within(times[..|times| - 1], from, to) + (if from <= times[|times| - 1] <= to then 1 else 0)
  }

  lemma {:induction false} WithinNarrower(times: seq<int>, from: int, to: int, bound: int)
    requires bound <= to && forall i :: 0 <= i < |times| ==> times[i] <= bound
    ensures Within(times, from, to) == Within(times, from, bound)
  {
    if times != [] {
      WithinNarrower(times[..|times| - 1], from, to, bound);
    }
  }

  lemma {:induction false} WithinEmpty(times: seq<int>, from: int, to: int)
    requires to < from
    ensures Within(times, from, to) == 0
  {
    if times != [] {
      WithinEmpty(times[..|times| - 1], from, to);
    }
  }

  lemma {:induction false} SpacedCount(times: seq<int>, gap: int, from: int, to: int)
    requires gap > 0 && from <= to
    requires forall i :: 0 <= i < |times| - 1 ==> times[i + 1] - times[i] > gap
    ensures (Within(times, from, to) - 1) * gap <= to - from
  {
    if times != [] {
      var n := |times| - 1;
      var front, last := times[..n], times[n];
      if from <= last <= to {
        var bound := last - gap - 1;
        BelowLast(times, gap);
        WithinNarrower(front, from, to, bound);
        if bound < from {
          WithinEmpty(front, from, bound);
        } else {
          SpacedCount(front, gap, from, bound);
          OneMore(Within(front, from, bound), gap, bound - from);
        }
      } else {
        SpacedCount(front, gap, from, to);
      }
    }
  }

  lemma OneMore(w: int, gap: int, room: int)
    requires (w - 1) * gap <= room
    ensures w * gap <= room + gap
  {
    OneGapMore(w, gap);
  }

  lemma PositiveFactor(a: int, d: int)
    requires d > 0 && a * d > 0
    ensures a > 0
  {
  }

  lemma AtMostQuotient(k: int, d: int, n: int)
    requires d > 0 && k * d <= n
    ensures k <= n / d
  {
    var q := n / d;
    assert (q + 1 - k) * d == q * d + d - k * d;
    PositiveFactor(q + 1 - k, d);
  }

  lemma {:induction false} BelowLast(times: seq<int>, gap: int)
    requires gap > 0 && times != []
    requires forall i :: 0 <= i < |times| - 1 ==> times[i + 1] - times[i] > gap
    ensures forall i :: 0 <= i < |times| - 1 ==> times[i] <= times[|times| - 1] - gap - 1
  {
    var n := |times| - 1;
    if n > 0 {
      assert times[n - 1 + 1] - times[n - 1] > gap;
      BelowLast(times[..n], gap);
    }
  }

  /** An interval of length T holds at most T/timeout + 1 trips. */
  lemma {:induction false} TripRate(s: Settings, start: int, events: seq<Event>, from: int, length: nat)
    requires InOrder(start, events) && s.timeout > 0
    ensures Within(Trips(s, start, events), from, from + length) <= length / s.timeout + 1
  {
    TripsSpaced(s, start, events);
    var trips := Trips(s, start, events);
    SpacedCount(trips, s.timeout, from, from + length);
    AtMostQuotient(Within(trips, from, from + length) - 1, s.timeout, length);
  }

  lemma {:induction false} StaysOpen(s: Settings, start: int, events: seq<Event>, k: nat)
    requires InOrder(start, events) && k < |events| && TripAt(s, start, events, k)
    requires End(start, events) - events[k].now <= s.timeout
    ensures Run(s, start, events).state == Open && Run(s, start, events).lastChange == events[k].now
  {
    var n := |events| - 1;
    assert events[..n + 1] == events;
    if k < n {
      var front := events[..n];
      assert forall i :: 0 <= i <= n ==> front[..i] == events[..i];
      assert End(start, front) <= events[n].now;
      StaysOpen(s, start, front, k);
      OpenStep(s, Run(s, start, front), events[n]);
    } else {
      OpenStep(s, Run(s, start, events[..n]), events[n]);
    }
  }

  /** For the whole timeout after a trip, whatever happens, every request is turned away. */
  lemma {:induction false} ClosedGateAfterTrip(s: Settings, start: int, events: seq<Event>, k: nat, now: int)
    requires InOrder(start, events) && k < |events| && TripAt(s, start, events, k)
    requires End(start, events) <= now <= events[k].now + s.timeout
    ensures !Allows(s, Run(s, start, events), now)
  {
    StaysOpen(s, start, events, k);
  }
}
