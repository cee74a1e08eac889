/**
 The token bucket that decides which writes go straight to the database.

 Times are integers in nanoseconds from a clock that never goes back; token
 counts are reals. Each method holds the lock throughout, so it is one step.
*/
module RateLimiter {

  datatype Bucket = Bucket(capacity: int, refillRate: int, tokens: real, lastRefill: int) {
    ghost predicate Valid() {
      tokens <= capacity as real
    }
  }

  function NewBucket(capacity: int, refillRate: int, now: int): (b: Bucket)
    ensures b.Valid()
  {
    Bucket(capacity, refillRate, capacity as real, now)
  }

  function Seconds(elapsed: int): real {
    elapsed as real / 1000000000.0
  }

  /** The tokens a refill at `now` leaves in the bucket. */
  function Level(b: Bucket, now: int): (level: real)
    ensures level <= b.capacity as real
  {
    var filled := b.tokens + Seconds(now - b.lastRefill) * b.refillRate as real;
    if filled > b.capacity as real then b.capacity as real else filled
  }

  function Refilled(b: Bucket, now: int): (b': Bucket)
    ensures b'.Valid()
  {
    b.(tokens := Level(b, now), lastRefill := now)
  }

  function Spend(b: Bucket): Bucket {
    b.(tokens := b.tokens - 1.0)
  }

  /** Go converts to int by dropping the fraction. */
  function Truncated(x: real): int {
    if x >= 0.0 then x.Floor else -(-x).Floor
  }

  /** One call: an attempt to take a token, or a reading of the level. */
  datatype Call = Try(now: int) | Read(now: int)

  function Grants(b: Bucket, c: Call): bool {
    c.Try? && Level(b, c.now) >= 1.0
  }

  function BucketStep(b: Bucket, c: Call): (b': Bucket)
    ensures b'.Valid() && b'.lastRefill == c.now && b'.capacity == b.capacity && b'.refillRate == b.refillRate
  {
    if Grants(b, c) then Spend(Refilled(b, c.now)) else Refilled(b, c.now)
  }

  class WriteRateLimiter {
    const capacity: int
    const refillRate: int
    var tokens: real
    var lastRefill: int

    ghost function Model(): Bucket
      reads this
    {
      Bucket(capacity, refillRate, tokens, lastRefill)
    }

    constructor (capacity: int, refillRate: int, now: int)
      ensures Model() == NewBucket(capacity, refillRate, now)
      ensures this.capacity == capacity && this.refillRate == refillRate && tokens == capacity as real && lastRefill == now
    {
      this.capacity := capacity;
      this.refillRate := refillRate;
      tokens := capacity as real;
      lastRefill := now;
    }

    method Refill(now: int)
      modifies this
      ensures Model() == Refilled(old(Model()), now)
      ensures lastRefill == now
      ensures var filled := old(tokens) + (now - old(lastRefill)) as real / 1000000000.0 * refillRate as real;
              tokens == if filled > capacity as real then capacity as real else filled
    {
      var elapsed := Seconds(now - lastRefill);
      tokens := tokens + elapsed * refillRate as real;
      if tokens > capacity as real {
        tokens := capacity as real;
      }
      lastRefill := now;
    }

    method TryAcquire(now: int) returns (ok: bool)
      modifies this
      ensures ok == Grants(old(Model()), Try(now))
      ensures Model() == BucketStep(old(Model()), Try(now))
      ensures ok <==> Level(old(Model()), now) >= 1.0
      ensures tokens == Level(old(Model()), now) - (if ok then 1.0 else 0.0) && lastRefill == now
    {
      Refill(now);
      if tokens >= 1.0 {
        tokens := tokens - 1.0;
        return true;
      }
      return false;
    }

    method Tokens(now: int) returns (n: int)
      modifies this
      ensures n == Truncated(Level(old(Model()), now))
      ensures Model() == BucketStep(old(Model()), Read(now))
      ensures tokens == Level(old(Model()), now) && lastRefill == now
      ensures if tokens >= 0.0 then n as real <= tokens < n as real + 1.0 else n as real - 1.0 < tokens <= n as real
    {
      Refill(now);
      n := Truncated(tokens);
    }

    /** One call by another goroutine. */
    method Perform(c: Call)
      modifies this
      ensures Model() == BucketStep(old(Model()), c)
    {
      match c
      case Try(now) => var _ := TryAcquire(now);
      case Read(now) => var _ := Tokens(now);
    }

    /** The calls others make while the lock is free. */
    method Others(calls: seq<Call>)
      modifies this
      ensures Model() == BucketRun(old(Model()), calls)
    {
      var i := 0;
      assert calls[..0] == [];
      while i < |calls|
        invariant 0 <= i <= |calls|
        invariant Model() == BucketRun(old(Model()), calls[..i])
      {
        assert calls[..i + 1][..i] == calls[..i];
        Perform(calls[i]);
        i := i + 1;
      }
      assert calls[..i] == calls;
    }

    /** One look of a waiting caller. */
    method Look(p: Poll) returns (got: bool)
      modifies this
      ensures got == Grants(BucketRun(old(Model()), p.others), Try(p.now))
      ensures Model() == BucketStep(BucketRun(old(Model()), p.others), Try(p.now))
    {
      Others(p.others);
      Refill(p.now);
      if tokens >= 1.0 {
        tokens := tokens - 1.0;
        return true;
      }
      return false;
    }

    /**
     `polls` are the instants at which the caller looks before its context is
     done, each with the calls others made since the look before. Waiting is
     nothing but one attempt at every poll, up to the first that is granted.
     */
    method WaitAcquire(polls: seq<Poll>) returns (ok: bool, at: nat)
      modifies this
      ensures at <= |polls| && (ok <==> at < |polls|)
      ensures forall i :: 0 <= i < at ==> !GrantedAt(old(Model()), polls, i)
      ensures ok ==> GrantedAt(old(Model()), polls, at)
      ensures Model() == BucketRun(old(Model()), Looked(polls, if ok then at + 1 else at))
    {
      ghost var start := Model();
      at := 0;
      while at < |polls|
        invariant 0 <= at <= |polls|
        invariant Model() == BucketRun(start, Looked(polls, at))
        invariant forall i :: 0 <= i < at ==> !GrantedAt(start, polls, i)
      {
        LookedOnce(start, polls, at);
        var got := Look(polls[at]);
        if got {
          return true, at;
        }
        at := at + 1;
      }
      return false, at;
    }
  }

  /** A look at `now`, after the calls others made since the look before. */
  datatype Poll = Poll(others: seq<Call>, now: int)

  /** All calls up to and including the k-th look. */
  function Looked(polls: seq<Poll>, k: nat): seq<Call>
    requires k <= |polls|
  {
    if k == 0 then [] else Looked(polls, k - 1) + polls[k - 1].others + [Try(polls[k - 1].now)]
  }

  ghost predicate GrantedAt(b: Bucket, polls: seq<Poll>, i: nat)
    requires i < |polls|
  {
    Grants(BucketRun(b, Looked(polls, i) + polls[i].others), Try(polls[i].now))
  }

  lemma {:induction false} RunConcat(b: Bucket, first: seq<Call>, second: seq<Call>)
    ensures BucketRun(b, first + second) == BucketRun(BucketRun(b, first), second)
  {
    if second == [] {
      assert first + second == first;
    } else {
      var n := |second| - 1;
      assert (first + second)[..|first| + n] == first + second[..n];
      RunConcat(b, first, second[..n]);
    }
  }

  lemma LookedOnce(b: Bucket, polls: seq<Poll>, k: nat)
    requires k < |polls|
    ensures var found := BucketRun(BucketRun(b, Looked(polls, k)), polls[k].others);
            && GrantedAt(b, polls, k) == Grants(found, Try(polls[k].now))
            && BucketRun(b, Looked(polls, k + 1)) == BucketStep(found, Try(polls[k].now))
  {
    var before := Looked(polls, k) + polls[k].others;
    RunConcat(b, Looked(polls, k), polls[k].others);
    assert (before + [Try(polls[k].now)])[..|before|] == before;
  }

  /**
   A look that finds no token, like a reading, leaves no trace: whatever comes
   after it finds the bucket it would have found without it.
   */
  lemma {:induction false} NoTrace(b: Bucket, before: seq<Call>, c: Call, later: seq<Call>)
    requires b.Valid() && InOrder(b.lastRefill, before + [c] + later) && later != []
    requires !Grants(BucketRun(b, before), c)
    ensures BucketRun(b, before + [c] + later) == BucketRun(b, before + later)
  {
    var n := |later| - 1;
    var all := before + [c] + later;
    assert all[..|all| - 1] == before + [c] + later[..n];
    assert (before + later)[..|before| + n] == before + later[..n];
    if n == 0 {
      assert before + [c] + later[..0] == before + [c] && before + later[..0] == before;
      assert (before + [c])[..|before|] == before;
      LastSeen(b, before);
      NoTraceNext(BucketRun(b, before), c, later[0]);
    } else {
      NoTrace(b, before, c, later[..n]);
    }
  }

  lemma NoTraceNext(b: Bucket, c: Call, next: Call)
    requires b.Valid() && b.lastRefill <= c.now <= next.now && !Grants(b, c)
    ensures BucketStep(BucketStep(b, c), next) == BucketStep(b, next)
  {
    RefillTwice(b, c.now, next.now);
  }

  lemma LastSeen(b: Bucket, calls: seq<Call>)
    ensures BucketRun(b, calls).lastRefill == End(b.lastRefill, calls)
  {
  }

  lemma SecondsAdd(a: int, b: int, rate: real)
    ensures Seconds(a + b) * rate == Seconds(a) * rate + Seconds(b) * rate
  {
    assert Seconds(a + b) == Seconds(a) + Seconds(b);
  }

  lemma SecondsSign(a: int, rate: int)
    requires a >= 0
    ensures rate >= 0 ==> Seconds(a) * rate as real >= 0.0
    ensures rate < 0 ==> Seconds(a) * rate as real <= 0.0
  {
    var s, r := Seconds(a), rate as real;
    assert s >= 0.0;
    if rate >= 0 {
      assert r >= 0.0;
    } else {
      assert r <= 0.0;
    }
  }

  /** An extra refill in between does not change what a later one finds. */
  lemma RefillTwice(b: Bucket, t: int, now: int)
    requires b.Valid() && b.lastRefill <= t <= now
    ensures Level(Refilled(b, t), now) == Level(b, now)
    ensures Refilled(Refilled(b, t), now) == Refilled(b, now)
  {
    var rate := b.refillRate as real;
    SecondsAdd(t - b.lastRefill, now - t, rate);
    assert t - b.lastRefill + (now - t) == now - b.lastRefill;
    SecondsSign(t - b.lastRefill, b.refillRate);
    SecondsSign(now - t, b.refillRate);
  }

  // ---------------------------------------------------------------------
  // Runs.
  // ---------------------------------------------------------------------

  function BucketRun(b: Bucket, calls: seq<Call>): (b': Bucket)
    ensures b'.capacity == b.capacity && b'.refillRate == b.refillRate
    ensures b.Valid() ==> b'.Valid()
  {
    if calls == [] then b
    else BucketStep(BucketRun(b, calls[..|calls| - 1]), calls[|calls| - 1])
  }

  function Granted(b: Bucket, calls: seq<Call>): nat {
    if calls == [] then 0
    else
      var front := calls[..|calls| - 1];
      Granted(b, front) + (if Grants(BucketRun(b, front), calls[|calls| - 1]) then 1 else 0)
  }

  function End(start: int, calls: seq<Call>): int {
    if calls == [] then start else calls[|calls| - 1].now
  }

  ghost predicate InOrder(start: int, calls: seq<Call>) {
    calls == [] ||
      var front := calls[..|calls| - 1];
      InOrder(start, front) && End(start, front) <= calls[|calls| - 1].now
  }

  // ---------------------------------------------------------------------
  // Any other admission policy over the same bucket. It decides call by call;
  // it need not look at the level in between, so a reading leaves it alone.
  // ---------------------------------------------------------------------

  function PolicyBucket(b: Bucket, calls: seq<Call>, policy: seq<bool>): (b': Bucket)
    requires |policy| == |calls|
    ensures b'.capacity == b.capacity && b'.refillRate == b.refillRate
    ensures b.Valid() ==> b'.Valid()
  {
    if calls == [] then b
    else
      var n := |calls| - 1;
      var before := PolicyBucket(b, calls[..n], policy[..n]);
      if calls[n].Read? then before
      else if policy[n] then Spend(Refilled(before, calls[n].now))
      else Refilled(before, calls[n].now)
  }

  /** It admits only attempts, and never leaves the bucket with less than no token. */
  ghost predicate NeverOverdraws(b: Bucket, calls: seq<Call>, policy: seq<bool>)
    requires |policy| == |calls|
  {
    calls == [] ||
      var n := |calls| - 1;
      && NeverOverdraws(b, calls[..n], policy[..n])
      && (policy[n] ==> calls[n].Try? && PolicyBucket(b, calls, policy).tokens >= 0.0)
  }

  lemma {:induction false} OverdrawsNowhere(b: Bucket, calls: seq<Call>, policy: seq<bool>)
    requires |policy| == |calls|
    requires forall i :: 0 <= i < |calls| && policy[i] ==>
      calls[i].Try? && PolicyBucket(b, calls[..i + 1], policy[..i + 1]).tokens >= 0.0
    ensures NeverOverdraws(b, calls, policy)
  {
    if calls != [] {
      var n := |calls| - 1;
      assert forall k :: 0 <= k <= n ==> calls[..n][..k] == calls[..k] && policy[..n][..k] == policy[..k];
      OverdrawsNowhere(b, calls[..n], policy[..n]);
      assert calls[..n + 1] == calls && policy[..n + 1] == policy;
    }
  }

  function Admitted(policy: seq<bool>): nat {
    if policy == [] then 0 else Admitted(policy[..|policy| - 1]) + (if policy[|policy| - 1] then 1 else 0)
  }

  /** The policy may be ahead in tokens only by as many as it is behind in grants. */
  ghost predicate Ahead(greedy: Bucket, granted: nat, other: Bucket, admitted: nat, now: int) {
    && granted >= admitted
    && Level(other, now) - Level(greedy, now) <= (granted - admitted) as real
  }

  lemma LaterLevels(a: Bucket, b: Bucket, lead: nat, t: int, now: int)
    requires a.Valid() && b.Valid() && a.capacity == b.capacity && a.refillRate == b.refillRate
    requires a.lastRefill <= t <= now && b.lastRefill <= t
    requires Level(b, t) - Level(a, t) <= lead as real
    ensures Level(b, now) - Level(a, now) <= lead as real
  {
    RefillTwice(a, t, now);
    RefillTwice(b, t, now);
    var gain := Seconds(now - t) * a.refillRate as real;
    CappedGap(Level(a, t), Level(b, t), gain, a.capacity as real, lead as real);
  }

  /** The same gain under the same cap widens no lead. */
  lemma CappedGap(a: real, b: real, gain: real, cap: real, lead: real)
    requires b - a <= lead && lead >= 0.0 && a <= cap && b <= cap
    ensures var a', b' := if a + gain > cap then cap else a + gain, if b + gain > cap then cap else b + gain;
            b' - a' <= lead
  {
  }

  lemma LevelNow(b: Bucket)
    requires b.Valid()
    ensures Level(b, b.lastRefill) == b.tokens
  {
    assert Seconds(0) == 0.0;
  }

  /** One more call keeps the greedy bucket ahead. */
  lemma AheadStep(greedy: Bucket, granted: nat, other: Bucket, admitted: nat, c: Call, choice: bool)
    requires greedy.Valid() && other.Valid() && greedy.capacity == other.capacity && greedy.refillRate == other.refillRate
    requires greedy.lastRefill <= c.now && other.lastRefill <= c.now
    requires Ahead(greedy, granted, other, admitted, c.now)
    requires choice ==> Grants(other, c)
    ensures var other' := if c.Read? then other else if choice then Spend(Refilled(other, c.now)) else Refilled(other, c.now);
            Ahead(BucketStep(greedy, c), granted + (if Grants(greedy, c) then 1 else 0),
                  other', admitted + (if choice then 1 else 0), c.now)
  {
    var greedy' := BucketStep(greedy, c);
    var other' := if c.Read? then other else if choice then Spend(Refilled(other, c.now)) else Refilled(other, c.now);
    LevelNow(greedy');
    if c.Try? {
      LevelNow(other');
    }
  }

  lemma {:induction false} StaysAhead(b: Bucket, calls: seq<Call>, policy: seq<bool>)
    requires b.Valid() && |policy| == |calls| && InOrder(b.lastRefill, calls)
    requires NeverOverdraws(b, calls, policy)
    ensures var t := End(b.lastRefill, calls);
            && BucketRun(b, calls).lastRefill <= t
            && PolicyBucket(b, calls, policy).lastRefill <= t
            && Ahead(BucketRun(b, calls), Granted(b, calls), PolicyBucket(b, calls, policy), Admitted(policy), t)
  {
    if calls != [] {
      var n := |calls| - 1;
      var front, choices, c := calls[..n], policy[..n], calls[n];
      StaysAhead(b, front, choices);
      var greedy, other := BucketRun(b, front), PolicyBucket(b, front, choices);
      var lead := Granted(b, front) - Admitted(choices);
      LaterLevels(greedy, other, lead, End(b.lastRefill, front), c.now);
      if policy[n] {
        assert PolicyBucket(b, calls, policy) == Spend(Refilled(other, c.now));
      }
      AheadStep(greedy, Granted(b, front), other, Admitted(choices), c, policy[n]);
    }
  }

  lemma {:induction false} PrefixOrdered(b: Bucket, calls: seq<Call>, policy: seq<bool>, k: nat)
    requires |policy| == |calls| && k <= |calls|
    requires InOrder(b.lastRefill, calls) && NeverOverdraws(b, calls, policy)
    ensures InOrder(b.lastRefill, calls[..k]) && NeverOverdraws(b, calls[..k], policy[..k])
  {
    var n := |calls|;
    if k < n {
      PrefixOrdered(b, calls[..n - 1], policy[..n - 1], k);
      assert calls[..n - 1][..k] == calls[..k] && policy[..n - 1][..k] == policy[..k];
    } else {
      assert calls[..k] == calls && policy[..k] == policy;
    }
  }

  /**
   Taking a token whenever there is one is optimal: at every prefix of every
   sequence of calls it has granted at least as many requests as any other
   policy that never overdraws the same bucket.
   */
  lemma {:induction false} GreedyIsOptimal(b: Bucket, calls: seq<Call>, policy: seq<bool>, k: nat)
    requires b.Valid() && |policy| == |calls| && InOrder(b.lastRefill, calls) && k <= |calls|
    requires forall i :: 0 <= i < |calls| && policy[i] ==>
      calls[i].Try? && PolicyBucket(b, calls[..i + 1], policy[..i + 1]).tokens >= 0.0
    ensures Granted(b, calls[..k]) >= Admitted(policy[..k])
  {
    OverdrawsNowhere(b, calls, policy);
    PrefixOrdered(b, calls, policy, k);
    StaysAhead(b, calls[..k], policy[..k]);
  }

  ghost predicate SameLevels(a: Bucket, b: Bucket, t: int) {
    && a.Valid() && b.Valid() && a.lastRefill <= t && b.lastRefill <= t
    && forall now :: now >= t ==> Level(a, now) == Level(b, now)
  }

  lemma SameLevelsStep(greedy: Bucket, other: Bucket, t: int, c: Call)
    requires SameLevels(greedy, other, t) && t <= c.now
    requires greedy.capacity == other.capacity && greedy.refillRate == other.refillRate
    ensures var other' := if c.Read? then other
                          else if Grants(greedy, c) then Spend(Refilled(other, c.now))
                          else Refilled(other, c.now);
            SameLevels(BucketStep(greedy, c), other', c.now)
  {
    if c.Read? {
      forall now | now >= c.now
        ensures Level(Refilled(greedy, c.now), now) == Level(greedy, now)
      {
        RefillTwice(greedy, c.now, now);
      }
    }
  }

  /** And it is such a policy itself, so the optimum is reached. */
  lemma {:induction false} GreedyIsAPolicy(b: Bucket, calls: seq<Call>) returns (policy: seq<bool>)
    requires b.Valid() && InOrder(b.lastRefill, calls)
    ensures |policy| == |calls| && NeverOverdraws(b, calls, policy)
    ensures Admitted(policy) == Granted(b, calls)
    ensures SameLevels(BucketRun(b, calls), PolicyBucket(b, calls, policy), End(b.lastRefill, calls))
  {
    if calls == [] {
      policy := [];
    } else {
      var n := |calls| - 1;
      var front, c := calls[..n], calls[n];
      var before := GreedyIsAPolicy(b, front);
      var greedy, other := BucketRun(b, front), PolicyBucket(b, front, before);
      policy := before + [Grants(greedy, c)];
      assert policy[..n] == before;
      SameLevelsStep(greedy, other, End(b.lastRefill, front), c);
    }
  }

  // ---------------------------------------------------------------------
  // Admission bound.
  // ---------------------------------------------------------------------

  function Positive(x: real): real {
    if x > 0.0 then x else 0.0
  }

  /** The tokens that can arrive in `elapsed`. */
  function Supply(refillRate: int, elapsed: int): real {
    Positive(Seconds(elapsed) * refillRate as real)
  }

  lemma SupplyAdds(refillRate: int, first: int, second: int)
    requires first >= 0 && second >= 0
    ensures Supply(refillRate, first) + Supply(refillRate, second) == Supply(refillRate, first + second)
  {
    SecondsAdd(first, second, refillRate as real);
    SecondsSign(first, refillRate);
    SecondsSign(second, refillRate);
  }

  lemma LevelGrows(b: Bucket, t: int, now: int)
    requires b.Valid() && b.lastRefill <= t <= now
    ensures Positive(Level(b, now)) <= Positive(Level(b, t)) + Supply(b.refillRate, now - t)
  {
    RefillTwice(b, t, now);
    SecondsSign(now - t, b.refillRate);
  }

  /** A grant takes a whole token out of the level. */
  lemma GrantTakesToken(b: Bucket, c: Call)
    requires b.Valid() && b.lastRefill <= c.now
    ensures (if Grants(b, c) then 1 else 0) as real + Positive(Level(BucketStep(b, c), c.now)) == Positive(Level(b, c.now))
  {
    LevelNow(BucketStep(b, c));
  }

  lemma PaidStep(b: Bucket, budget: real, paid: real, c: Call, start: int, now: int)
    requires b.Valid() && b.lastRefill <= c.now && start <= c.now <= now
    requires paid + Positive(Level(b, c.now)) <= budget + Supply(b.refillRate, c.now - start)
    ensures paid + (if Grants(b, c) then 1 else 0) as real + Positive(Level(BucketStep(b, c), now))
              <= budget + Supply(b.refillRate, now - start)
  {
    GrantTakesToken(b, c);
    var after := BucketStep(b, c);
    LevelGrows(after, c.now, now);
    SupplyAdds(b.refillRate, c.now - start, now - c.now);
    assert c.now - start + (now - c.now) == now - start;
  }

  lemma {:induction false} GrantsPaidFor(b: Bucket, calls: seq<Call>, start: int, now: int)
    requires b.Valid() && b.lastRefill <= start && InOrder(start, calls) && End(start, calls) <= now
    ensures BucketRun(b, calls).lastRefill <= End(start, calls) && start <= End(start, calls)
    ensures Granted(b, calls) as real + Positive(Level(BucketRun(b, calls), now))
              <= Positive(Level(b, start)) + Supply(b.refillRate, now - start)
  {
    if calls == [] {
      LevelGrows(b, start, now);
    } else {
      var front, c := calls[..|calls| - 1], calls[|calls| - 1];
      GrantsPaidFor(b, front, start, c.now);
      var before := BucketRun(b, front);
      PaidStep(before, Positive(Level(b, start)), Granted(b, front) as real, c, start, now);
    }
  }

  /**
   Calls made within `length` of `start`, whatever came before, get at most
   the capacity plus what is refilled meanwhile.
   */
  lemma {:induction false} AdmissionBound(b: Bucket, calls: seq<Call>, start: int, length: nat)
    requires b.Valid() && b.lastRefill <= start
    requires InOrder(start, calls) && End(start, calls) <= start + length
    ensures Granted(b, calls) as real <= Positive(b.capacity as real) + Supply(b.refillRate, length)
    ensures Granted(b, calls) * 1000000000 <=
              (if b.capacity > 0 then b.capacity else 0) * 1000000000 + (if b.refillRate > 0 then b.refillRate else 0) * length
  {
    GrantsPaidFor(b, calls, start, start + length);
    InWholeTokens(Granted(b, calls), b.capacity, b.refillRate, length);
  }

  /** The bound without fractions: a billion nanoseconds bring `refillRate` tokens. */
  lemma InWholeTokens(granted: nat, capacity: int, refillRate: int, length: nat)
    requires granted as real <= Positive(capacity as real) + Supply(refillRate, length)
    ensures granted * 1000000000 <=
              (if capacity > 0 then capacity else 0) * 1000000000 + (if refillRate > 0 then refillRate else 0) * length
  {
    SecondsSign(length, refillRate);
    var cap, rate := if capacity > 0 then capacity else 0, if refillRate > 0 then refillRate else 0;
    assert Supply(refillRate, length) == Seconds(length) * rate as real;
    BillionSeconds(length, rate);
    assert granted as real * 1000000000.0 <= cap as real * 1000000000.0 + (rate * length) as real;
  }

  lemma BillionSeconds(length: nat, rate: nat)
    ensures Seconds(length) * rate as real * 1000000000.0 == (rate * length) as real
  {
    var l, r := length as real, rate as real;
    assert (rate * length) as real == r * l;
    assert Seconds(length) * 1000000000.0 == l;
    assert Seconds(length) * r * 1000000000.0 == (Seconds(length) * 1000000000.0) * r;
  }

  function Tries(n: nat, now: int): (calls: seq<Call>)
    ensures |calls| == n && forall i :: 0 <= i < n ==> calls[i] == Try(now)
  {
    seq(n, _ => Try(now))
  }

  /** A new bucket grants its whole capacity at once, and then no more. */
  lemma {:induction false} BurstIsCapacity(capacity: nat, refillRate: int, now: int, n: nat)
    ensures var b := NewBucket(capacity, refillRate, now);
            var granted := if n < capacity then n else capacity;
            && Granted(b, Tries(n, now)) == granted
            && BucketRun(b, Tries(n, now)) == b.(tokens := (capacity - granted) as real)
  {
    if n > 0 {
      BurstIsCapacity(capacity, refillRate, now, n - 1);
      assert Tries(n, now)[..n - 1] == Tries(n - 1, now);
      LevelNow(BucketRun(NewBucket(capacity, refillRate, now), Tries(n - 1, now)));
    }
  }
}
