/**
 How OrderService.CreateOrder composes the circuit breaker and the token bucket.

 Many calls run at once. Each goes through the breaker check, the token, the
 lock and the database write, and every one of these is a step that may
 interleave with the steps of other calls, with the breaker's ticks, with
 forced synchronous writes (which record outcomes but take no token) and with
 readings of the token level.
*/
module OrderAdmission {
  import RL = RateLimiter
  import CB = CircuitBreakers

  /** How far one call has come. The times are those of its two checks. */
  datatype Phase =
    | Allowed(allowedAt: int)
    | Spent(allowedAt: int, spentAt: int)
    | Locked(allowedAt: int, spentAt: int)
    | TurnedAway
    | NoToken
    | LockFailed(allowedAt: int, spentAt: int)
    | Written(allowedAt: int, spentAt: int, ok: bool)
  {
    predicate TookToken() {
      Spent? || Locked? || LockFailed? || Written?
    }

    /** Between the token and its outcome. */
    predicate Pending() {
      Spent? || Locked?
    }

    /** The database write was started. */
    predicate WentToWrite() {
      Locked? || Written?
    }
  }

  datatype World = World(
    breaker: CB.Breaker,
    bucket: RL.Bucket,
    calls: map<nat, Phase>,
    recorded: nat,
    fallbacks: nat,
    spent: nat,
    now: int)

  datatype Action =
    | CheckBreaker(id: nat, now: int)
    | TakeToken(id: nat, now: int)
    | TakeLock(id: nat, ok: bool, now: int)
    | WriteOrder(id: nat, ok: bool, duration: int, now: int)
    | ForcedWrite(ok: bool, duration: int, now: int)
    | Background(tick: bool, now: int)
    | ReadLevel(now: int)

  predicate Enabled(w: World, a: Action) {
    && w.now <= a.now
    && match a
       case CheckBreaker(id, _) => id !in w.calls
       case TakeToken(id, _) => id in w.calls && w.calls[id].Allowed?
       case TakeLock(id, _, _) => id in w.calls && w.calls[id].Spent?
       case WriteOrder(id, _, _, _) => id in w.calls && w.calls[id].Locked?
       case _ => true
  }

  function Outcome(ok: bool, duration: int, now: int): CB.Event {
    if ok then CB.Success(duration, now) else CB.Failure(now)
  }

  function Act(s: CB.Settings, w: World, a: Action): World
    requires Enabled(w, a)
  {
    match a
    case CheckBreaker(id, now) =>
      var phase := if CB.Allows(s, w.breaker, now) then Allowed(now) else TurnedAway;
      w.(calls := w.calls[id := phase], now := now)
    case TakeToken(id, now) =>
      var bucket := RL.BucketStep(w.bucket, RL.Try(now));
      if RL.Grants(w.bucket, RL.Try(now)) then
        w.(bucket := bucket, spent := w.spent + 1, calls := w.calls[id := Spent(w.calls[id].allowedAt, now)], now := now)
      else
        w.(bucket := bucket, calls := w.calls[id := NoToken], now := now)
    case TakeLock(id, ok, now) =>
      var Spent(allowedAt, spentAt) := w.calls[id];
      if ok then w.(calls := w.calls[id := Locked(allowedAt, spentAt)], now := now)
      else w.(calls := w.calls[id := LockFailed(allowedAt, spentAt)], fallbacks := w.fallbacks + 1, now := now)
    case WriteOrder(id, ok, duration, now) =>
      var Locked(allowedAt, spentAt) := w.calls[id];
      w.(breaker := CB.Step(s, w.breaker, Outcome(ok, duration, now)),
         calls := w.calls[id := Written(allowedAt, spentAt, ok)], recorded := w.recorded + 1, now := now)
    case ForcedWrite(ok, duration, now) =>
      w.(breaker := CB.Step(s, w.breaker, Outcome(ok, duration, now)), now := now)
    case Background(tick, now) =>
      w.(breaker := CB.Step(s, w.breaker, if tick then CB.TransitionTick(now) else CB.ResetTick(now)), now := now)
    case ReadLevel(now) =>
      w.(bucket := RL.BucketStep(w.bucket, RL.Read(now)), now := now)
  }

  function Start(capacity: int, refillRate: int, now: int): World {
    World(CB.NewBreaker(now), RL.NewBucket(capacity, refillRate, now), map[], 0, 0, 0, now)
  }

  /** The states of a run: each follows from the one before by an enabled action. */
  ghost predicate IsRun(s: CB.Settings, worlds: seq<World>, actions: seq<Action>) {
    && |worlds| == |actions| + 1
    && forall i :: 0 <= i < |actions| ==> Enabled(worlds[i], actions[i]) && worlds[i + 1] == Act(s, worlds[i], actions[i])
  }

  // ---------------------------------------------------------------------
  // One call on its own, as the service makes it.
  // ---------------------------------------------------------------------

  datatype Channel = Sync | Async

  /** The label returned to the client; a failed synchronous write is labelled async. */
  function ChannelOf(p: Phase): Channel {
    if p.Written? && p.ok then Sync else Async
  }

  /** The four clock readings of a call and what the lock and the database answer. */
  datatype Answers = Answers(check: int, token: int, lock: int, write: int, locked: bool, written: bool, duration: int) {
    ghost predicate Ordered(now: int) {
      now <= check <= token <= lock <= write
    }
  }

  function AfterToken(s: CB.Settings, w: World, id: nat, x: Answers): World
    requires x.Ordered(w.now) && id !in w.calls
  {
    var w1 := Act(s, w, CheckBreaker(id, x.check));
    if w1.calls[id].Allowed? then Act(s, w1, TakeToken(id, x.token)) else w1
  }

  function WholeCall(s: CB.Settings, w: World, id: nat, x: Answers): (w': World)
    requires x.Ordered(w.now) && id !in w.calls
    ensures id in w'.calls
  {
    var w2 := AfterToken(s, w, id, x);
    if !w2.calls[id].Spent? then w2
    else
      var w3 := Act(s, w2, TakeLock(id, x.locked, x.lock));
      if w3.calls[id].Locked? then Act(s, w3, WriteOrder(id, x.written, x.duration, x.write)) else w3
  }

  class OrderService {
    const cb: CB.CircuitBreaker
    const rl: RL.WriteRateLimiter

    constructor (cb: CB.CircuitBreaker, rl: RL.WriteRateLimiter)
      ensures this.cb == cb && this.rl == rl
    {
      this.cb := cb;
      this.rl := rl;
    }

    ghost function Alone(now: int): World
      reads cb, rl
    {
      World(cb.Model(), rl.Model(), map[], 0, 0, 0, now)
    }

    method CreateOrder(ghost now: int, x: Answers) returns (channel: Channel)
      requires x.Ordered(now)
      modifies cb, rl
      ensures var w := WholeCall(cb.settings, old(Alone(now)), 0, x);
              cb.Model() == w.breaker && rl.Model() == w.bucket && channel == ChannelOf(w.calls[0])
      ensures
        var gate := old(
          || cb.state == CB.Closed
          || (cb.state == CB.Open && x.check - cb.lastStateChange > cb.settings.timeout)
          || (cb.state == CB.HalfOpen && cb.halfOpenCount < cb.settings.maxRequests));
        var level := RL.Level(old(rl.Model()), x.token);
        && (!gate ==> channel == Async && cb.Model() == old(cb.Model()) && rl.Model() == old(rl.Model()))
        && (gate ==> rl.lastRefill == x.token && rl.tokens == level - (if level >= 1.0 then 1.0 else 0.0))
        && (gate && (level < 1.0 || !x.locked) ==> channel == Async && cb.Model() == old(cb.Model()))
        && (gate && level >= 1.0 && x.locked && x.written ==>
              channel == Sync && cb.successCount == old(cb.successCount) + 1 && cb.failureCount == old(cb.failureCount))
        && (gate && level >= 1.0 && x.locked && !x.written ==>
              channel == Async && cb.failureCount == old(cb.failureCount) + 1 && cb.successCount == old(cb.successCount))
    {
      var allowed := cb.Allow(x.check);
      if !allowed {
        return Async;
      }
      var ok := rl.TryAcquire(x.token);
      if ok {
        channel := CreateSync(x);
      } else {
        channel := Async;
      }
    }

    method CreateSync(x: Answers) returns (channel: Channel)
      modifies cb
      ensures !x.locked ==> cb.Model() == old(cb.Model())
      ensures x.locked ==> cb.Model() == CB.Step(cb.settings, old(cb.Model()), Outcome(x.written, x.duration, x.write))
      ensures x.locked && x.written ==>
        cb.successCount == old(cb.successCount) + 1 && cb.failureCount == old(cb.failureCount)
      ensures x.locked && !x.written ==>
        cb.failureCount == old(cb.failureCount) + 1 && cb.successCount == old(cb.successCount)
      ensures channel == if x.locked && x.written then Sync else Async
    {
      if !x.locked {
        return Async;
      }
      if !x.written {
        cb.RecordFailure(x.write);
        return Async;
      }
      cb.RecordSuccess(x.duration, x.write);
      return Sync;
    }

    /** Past gate, bucket and lock; always labelled sync. */
    method CreateOrderForceSync(written: bool, duration: int, now: int) returns (channel: Channel)
      modifies cb
      ensures cb.Model() == CB.Step(cb.settings, old(cb.Model()), Outcome(written, duration, now))
      ensures cb.successCount == old(cb.successCount) + (if written then 1 else 0)
      ensures cb.failureCount == old(cb.failureCount) + (if written then 0 else 1)
      ensures channel == Sync
    {
      if !written {
        cb.RecordFailure(now);
        return Sync;
      }
      cb.RecordSuccess(duration, now);
      return Sync;
    }
  }

  // ---------------------------------------------------------------------
  // What the actions of a run leave behind.
  // ---------------------------------------------------------------------

  predicate IsReset(a: Action) {
    a.Background? && !a.tick
  }

  /** Database writes since the latest window reset that ended well, or did not. */
  function WritesEnded(actions: seq<Action>, ok: bool): nat {
    if actions == [] || IsReset(actions[|actions| - 1]) then 0
    else
      var a := actions[|actions| - 1];
      WritesEnded(actions[..|actions| - 1], ok) + (if (a.WriteOrder? || a.ForcedWrite?) && a.ok == ok then 1 else 0)
  }

  /** The breaker's successes and failures are exactly these. */
  lemma {:induction false} OutcomesExactly(s: CB.Settings, worlds: seq<World>, actions: seq<Action>, capacity: int, refillRate: int, t: int, k: nat)
    requires IsRun(s, worlds, actions) && worlds[0] == Start(capacity, refillRate, t)
    requires k < |worlds|
    ensures worlds[k].breaker.successes == WritesEnded(actions[..k], true)
    ensures worlds[k].breaker.failures == WritesEnded(actions[..k], false)
  {
    if k > 0 {
      OutcomesExactly(s, worlds, actions, capacity, refillRate, t, k - 1);
      assert actions[..k][..k - 1] == actions[..k - 1];
      assert worlds[k - 1 + 1] == Act(s, worlds[k - 1], actions[k - 1]);
      StepCounts(s, worlds[k - 1], actions[k - 1]);
    }
  }

  lemma StepCounts(s: CB.Settings, w: World, a: Action)
    requires Enabled(w, a)
    ensures var b, b' := w.breaker, Act(s, w, a).breaker;
            if IsReset(a) then b'.successes == b'.failures == 0
            else
              && b'.successes == b.successes + (if (a.WriteOrder? || a.ForcedWrite?) && a.ok then 1 else 0)
              && b'.failures == b.failures + (if (a.WriteOrder? || a.ForcedWrite?) && !a.ok then 1 else 0)
  {
    if a.Background? && a.tick {
      CB.CheckedCounts(s, w.breaker, a.now);
    }
  }

  /** Where each check leads: past the gate, on with a token, into the lock, and to the outcome of the write. */
  lemma PhaseExactly(s: CB.Settings, worlds: seq<World>, actions: seq<Action>, k: nat)
    requires IsRun(s, worlds, actions) && k < |actions|
    ensures var w, w' := worlds[k], worlds[k + 1];
            match actions[k]
            case CheckBreaker(id, now) =>
              w'.calls == w.calls[id := if CB.Allows(s, w.breaker, now) then Allowed(now) else TurnedAway]
            case TakeToken(id, now) =>
              var level := RL.Level(w.bucket, now);
              && w'.calls[id] == (if level >= 1.0 then Spent(w.calls[id].allowedAt, now) else NoToken)
              && w'.bucket.tokens == level - (if level >= 1.0 then 1.0 else 0.0)
              && w'.spent == w.spent + (if level >= 1.0 then 1 else 0)
            case TakeLock(id, ok, _) =>
              && (ok <==> w'.calls[id] == Locked(w.calls[id].allowedAt, w.calls[id].spentAt))
              && (!ok <==> w'.calls[id] == LockFailed(w.calls[id].allowedAt, w.calls[id].spentAt))
              && w'.fallbacks == w.fallbacks + (if ok then 0 else 1)
            case WriteOrder(id, ok, _, _) =>
              && w'.calls[id] == Written(w.calls[id].allowedAt, w.calls[id].spentAt, ok)
              && w'.recorded == w.recorded + 1
            case _ => w'.calls == w.calls && w'.spent == w.spent && w'.recorded == w.recorded && w'.fallbacks == w.fallbacks
  {
    assert worlds[k + 1] == Act(s, worlds[k], actions[k]);
  }

  // ---------------------------------------------------------------------
  // Every token is accounted for.
  // ---------------------------------------------------------------------

  ghost function Which(calls: map<nat, Phase>, p: Phase -> bool): set<nat> {
    set id | id in calls && p(calls[id])
  }

  lemma WithoutOne(a: set<nat>, id: nat)
    ensures |a| == |a - {id}| + (if id in a then 1 else 0)
  {
    if id in a {
      assert a == (a - {id}) + {id};
    } else {
      assert a == a - {id};
    }
  }

  lemma OthersAsBefore(calls: map<nat, Phase>, id: nat, phase: Phase, p: Phase -> bool)
    ensures Which(calls, p) - {id} == Which(calls[id := phase], p) - {id}
  {
    forall i | i != id
      ensures i in Which(calls, p) <==> i in Which(calls[id := phase], p)
    {
    }
  }

  /** Changing one call changes a count by at most that call. */
  lemma WhichUpdate(calls: map<nat, Phase>, id: nat, phase: Phase, p: Phase -> bool)
    ensures var before, after := Which(calls, p), Which(calls[id := phase], p);
            |after| == |before| - (if id in calls && p(calls[id]) then 1 else 0) + (if p(phase) then 1 else 0)
  {
    var before, after := Which(calls, p), Which(calls[id := phase], p);
    WithoutOne(before, id);
    WithoutOne(after, id);
    OthersAsBefore(calls, id, phase, p);
  }

  predicate IsPending(p: Phase) {
    p.Pending()
  }

  /** Each token taken so far has one recorded outcome, one lock failure, or a call still working on it. */
  ghost predicate Balanced(w: World) {
    w.spent == w.recorded + w.fallbacks + |Which(w.calls, IsPending)|
  }

  lemma ActBalanced(s: CB.Settings, w: World, a: Action)
    requires Enabled(w, a) && Balanced(w)
    ensures Balanced(Act(s, w, a))
  {
    var w' := Act(s, w, a);
    match a
    case CheckBreaker(id, _) => WhichUpdate(w.calls, id, w'.calls[id], IsPending);
    case TakeToken(id, _) => WhichUpdate(w.calls, id, w'.calls[id], IsPending);
    case TakeLock(id, _, _) => WhichUpdate(w.calls, id, w'.calls[id], IsPending);
    case WriteOrder(id, _, _, _) => WhichUpdate(w.calls, id, w'.calls[id], IsPending);
    case _ =>
  }

  /** In every reachable state, tokens spent == outcomes recorded + lock fallbacks + calls in between. */
  lemma {:induction false} TokensAccountedFor(s: CB.Settings, worlds: seq<World>, actions: seq<Action>, capacity: int, refillRate: int, t: int, k: nat)
    requires IsRun(s, worlds, actions) && worlds[0] == Start(capacity, refillRate, t)
    requires k < |worlds|
    ensures Balanced(worlds[k])
  {
    if k == 0 {
      assert Which(worlds[0].calls, IsPending) == {};
    } else {
      TokensAccountedFor(s, worlds, actions, capacity, refillRate, t, k - 1);
      ActBalanced(s, worlds[k - 1], actions[k - 1]);
      assert worlds[k - 1 + 1] == worlds[k];
    }
  }

  /** What a call has become is final once it is neither allowed nor pending. */
  lemma {:induction false} EndsOnce(s: CB.Settings, worlds: seq<World>, actions: seq<Action>, id: nat, i: nat, j: nat)
    requires IsRun(s, worlds, actions) && i <= j < |worlds|
    requires id in worlds[i].calls && !worlds[i].calls[id].Allowed? && !worlds[i].calls[id].Pending()
    ensures id in worlds[j].calls && worlds[j].calls[id] == worlds[i].calls[id]
  {
    if i < j {
      EndsOnce(s, worlds, actions, id, i, j - 1);
      assert worlds[j - 1 + 1] == Act(s, worlds[j - 1], actions[j - 1]);
    }
  }

  // ---------------------------------------------------------------------
  // Database writes started in an interval.
  // ---------------------------------------------------------------------

  function TookIn(from: int, to: int): Phase -> bool {
    (p: Phase) => p.TookToken() && from <= p.spentAt <= to
  }

  function WroteIn(from: int, to: int): Phase -> bool {
    (p: Phase) => p.WentToWrite() && from <= p.spentAt <= to
  }

  /** At `now`, `n` tokens dated in the interval have been paid for by the bucket. */
  ghost predicate PaidFor(b: RL.Bucket, n: nat, from: int, length: nat, now: int) {
    var burst := RL.Positive(b.capacity as real);
    if now < from then n == 0
    else if now <= from + length then
      n as real + RL.Positive(RL.Level(b, now)) <= burst + RL.Supply(b.refillRate, now - from)
    else n as real <= burst + RL.Supply(b.refillRate, length)
  }

  lemma SupplyMonotone(refillRate: int, t: nat, u: nat)
    requires t <= u
    ensures RL.Supply(refillRate, t) <= RL.Supply(refillRate, u)
  {
    RL.SupplyAdds(refillRate, t, u - t);
    assert t + (u - t) == u;
  }

  lemma TimePasses(b: RL.Bucket, n: nat, from: int, length: nat, t: int, now: int)
    requires b.Valid() && b.lastRefill <= t <= now
    requires PaidFor(b, n, from, length, t)
    ensures PaidFor(b, n, from, length, now)
  {
    if from <= t <= from + length {
      if now <= from + length {
        RL.LevelGrows(b, t, now);
        RL.SupplyAdds(b.refillRate, t - from, now - t);
        assert t - from + (now - t) == now - from;
      } else {
        SupplyMonotone(b.refillRate, t - from, length);
      }
    }
  }

  lemma TokenTaken(b: RL.Bucket, n: nat, from: int, length: nat, c: RL.Call)
    requires b.Valid() && b.lastRefill <= c.now
    requires PaidFor(b, n, from, length, c.now)
    ensures PaidFor(RL.BucketStep(b, c), n + (if RL.Grants(b, c) && from <= c.now <= from + length then 1 else 0), from, length, c.now)
  {
    RL.GrantTakesToken(b, c);
  }

  ghost predicate Bounded(w: World, from: int, length: nat) {
    && w.bucket.Valid()
    && w.bucket.lastRefill <= w.now
    && (forall id :: id in w.calls && w.calls[id].TookToken() ==> w.calls[id].spentAt <= w.now)
    && PaidFor(w.bucket, |Which(w.calls, TookIn(from, from + length))|, from, length, w.now)
  }

  lemma ActBounded(s: CB.Settings, w: World, a: Action, from: int, length: nat)
    requires Enabled(w, a) && Bounded(w, from, length)
    ensures Bounded(Act(s, w, a), from, length)
    ensures Act(s, w, a).bucket.capacity == w.bucket.capacity && Act(s, w, a).bucket.refillRate == w.bucket.refillRate
  {
    var w', p := Act(s, w, a), TookIn(from, from + length);
    var n := |Which(w.calls, p)|;
    TimePasses(w.bucket, n, from, length, w.now, a.now);
    match a
    case CheckBreaker(id, _) => WhichUpdate(w.calls, id, w'.calls[id], p);
    case TakeToken(id, now) =>
      TokenTaken(w.bucket, n, from, length, RL.Try(now));
      WhichUpdate(w.calls, id, w'.calls[id], p);
    case TakeLock(id, _, _) => WhichUpdate(w.calls, id, w'.calls[id], p);
    case WriteOrder(id, _, _, _) => WhichUpdate(w.calls, id, w'.calls[id], p);
    case ReadLevel(now) => TokenTaken(w.bucket, n, from, length, RL.Read(now));
    case _ =>
  }

  lemma {:induction false} RunBounded(s: CB.Settings, worlds: seq<World>, actions: seq<Action>, capacity: int, refillRate: int, t: int,
                                      from: int, length: nat, k: nat)
    requires IsRun(s, worlds, actions) && worlds[0] == Start(capacity, refillRate, t)
    requires k < |worlds|
    ensures Bounded(worlds[k], from, length)
    ensures worlds[k].bucket.capacity == capacity && worlds[k].bucket.refillRate == refillRate
  {
    if k == 0 {
      assert Which(worlds[0].calls, TookIn(from, from + length)) == {};
      RL.LevelNow(worlds[0].bucket);
      if from <= t <= from + length {
        SupplyMonotone(refillRate, 0, t - from);
        assert RL.Supply(refillRate, 0) == 0.0;
      } else {
        SupplyMonotone(refillRate, 0, length);
      }
    } else {
      RunBounded(s, worlds, actions, capacity, refillRate, t, from, length, k - 1);
      ActBounded(s, worlds[k - 1], actions[k - 1], from, length);
      assert worlds[k - 1 + 1] == worlds[k];
    }
  }

  lemma SubsetSize(a: set<nat>, b: set<nat>)
    requires a <= b
    ensures |a| <= |b|
  {
    assert b == a + (b - a);
  }

  /**
   However calls interleave, at most the capacity plus what is refilled in
   `length` of the calls whose token check fell in the interval go on to the
   database write.
   */
  lemma WritesBounded(s: CB.Settings, worlds: seq<World>, actions: seq<Action>, capacity: int, refillRate: int, t: int,
                      from: int, length: nat, k: nat)
    requires IsRun(s, worlds, actions) && worlds[0] == Start(capacity, refillRate, t)
    requires k < |worlds|
    ensures |Which(worlds[k].calls, WroteIn(from, from + length))| as real
              <= RL.Positive(capacity as real) + RL.Supply(refillRate, length)
    ensures |Which(worlds[k].calls, WroteIn(from, from + length))| * 1000000000
              <= (if capacity > 0 then capacity else 0) * 1000000000 + (if refillRate > 0 then refillRate else 0) * length
    ensures forall id ::
              (id in worlds[k].calls && (worlds[k].calls[id].Locked? || worlds[k].calls[id].Written?)
                && from <= worlds[k].calls[id].spentAt <= from + length)
              ==> id in Which(worlds[k].calls, WroteIn(from, from + length))
  {
    WrittenPaid(s, worlds, actions, capacity, refillRate, t, from, length, k);
    RL.InWholeTokens(|Which(worlds[k].calls, WroteIn(from, from + length))|, capacity, refillRate, length);
  }

  lemma WrittenPaid(s: CB.Settings, worlds: seq<World>, actions: seq<Action>, capacity: int, refillRate: int, t: int,
                    from: int, length: nat, k: nat)
    requires IsRun(s, worlds, actions) && worlds[0] == Start(capacity, refillRate, t)
    requires k < |worlds|
    ensures |Which(worlds[k].calls, WroteIn(from, from + length))| as real
              <= RL.Positive(capacity as real) + RL.Supply(refillRate, length)
  {
    RunBounded(s, worlds, actions, capacity, refillRate, t, from, length, k);
    var w := worlds[k];
    var wrote, took := Which(w.calls, WroteIn(from, from + length)), Which(w.calls, TookIn(from, from + length));
    SubsetSize(wrote, took);
    if from <= w.now <= from + length {
      SupplyMonotone(refillRate, w.now - from, length);
    } else if w.now < from {
      SupplyMonotone(refillRate, 0, length);
      assert RL.Supply(refillRate, 0) == 0.0;
    }
  }

  // ---------------------------------------------------------------------
  // The breaker keeps calls from the database.
  // ---------------------------------------------------------------------

  /** Step i of the run trips the breaker. */
  ghost predicate TripsAt(worlds: seq<World>, i: nat)
    requires i + 1 < |worlds|
  {
    worlds[i].breaker.state != CB.Open && worlds[i + 1].breaker.state == CB.Open
  }

  lemma {:induction false} StillOpen(s: CB.Settings, worlds: seq<World>, actions: seq<Action>, i: nat, j: nat)
    requires IsRun(s, worlds, actions) && i < j < |worlds| && TripsAt(worlds, i)
    requires worlds[j].now <= actions[i].now + s.timeout
    ensures worlds[j].breaker.state == CB.Open && worlds[j].breaker.lastChange == actions[i].now
  {
    assert worlds[j - 1 + 1] == Act(s, worlds[j - 1], actions[j - 1]);
    if i + 1 < j {
      StillOpen(s, worlds, actions, i, j - 1);
    }
  }

  /** A call checked within the timeout after a trip is turned away and never gets to the database. */
  lemma NoWriteAfterTrip(s: CB.Settings, worlds: seq<World>, actions: seq<Action>, i: nat, j: nat, k: nat)
    requires IsRun(s, worlds, actions) && i < j < k < |worlds| && TripsAt(worlds, i)
    requires actions[j].CheckBreaker? && actions[j].now <= actions[i].now + s.timeout
    ensures actions[j].id in worlds[k].calls && worlds[k].calls[actions[j].id] == TurnedAway
  {
    StillOpen(s, worlds, actions, i, j);
    assert worlds[j + 1] == Act(s, worlds[j], actions[j]);
    EndsOnce(s, worlds, actions, actions[j].id, j + 1, k);
  }
}
