/**
 The ring of slot counters behind the hot-key detector.

 A ring holds one counter per slot. Before an access is counted the ring moves
 forward one slot for every whole slot interval since `last` and zeroes the
 slots it enters. `last` then becomes the time of that access, not a slot
 boundary, so slots drift. The main result, `WindowSandwich`, says which
 accesses the sum can and must still contain in spite of the drift;
 `OvercountsExactly` and `UndercountsExactly` say that nothing stronger holds.

 Times are integers (nanoseconds) read from a clock that never goes back.
*/
module SlotRings {

  /** The state of one ring. */
  datatype Ring = Ring(counters: seq<int>, slot: nat, last: int) {
    ghost predicate Valid() {
      slot < |counters|
    }
  }

  function Sum(s: seq<int>): int {
    if s == [] then 0 else Sum(s[..|s| - 1]) + s[|s| - 1]
  }

  function Zeros(n: nat): (s: seq<int>)
    ensures |s| == n && forall i :: 0 <= i < n ==> s[i] == 0
  {
    seq(n, _ => 0)
  }

  function NewRing(slots: nat, now: int): Ring {
    Ring(Zeros(slots), 0, now)
  }

  /** Enter the next slot and forget what it counted a full turn ago. */
  function NextSlot(r: Ring): (r': Ring)
    requires r.Valid()
    ensures r'.Valid() && |r'.counters| == |r.counters|
  {
    var slot := (r.slot + 1) % |r.counters|;
    Ring(r.counters[slot := 0], slot, r.last)
  }

  function NextSlots(r: Ring, steps: nat): (r': Ring)
    requires r.Valid()
    ensures r'.Valid() && |r'.counters| == |r.counters|
  {
    if steps == 0 then r else NextSlot(NextSlots(r, steps - 1))
  }

  /** Whole slot intervals in `elapsed`; Go's division truncates toward zero. */
  function Intervals(elapsed: int, interval: int): int
    requires interval > 0
  {
    if elapsed >= 0 then elapsed / interval else -((-elapsed) / interval)
  }

  lemma AtLeastOneInterval(elapsed: int, interval: int)
    requires interval > 0
    ensures elapsed >= interval <==> Intervals(elapsed, interval) > 0
  {
  }

  function Advanced(r: Ring, interval: int, now: int): (r': Ring)
    requires r.Valid() && interval > 0
    ensures r'.Valid() && |r'.counters| == |r.counters|
  {
    var steps := Intervals(now - r.last, interval);
    if steps <= 0 then r
    else NextSlots(r, if steps > |r.counters| then |r.counters| else steps).(last := now)
  }

  function Incremented(r: Ring): (r': Ring)
    requires r.Valid()
    ensures r'.Valid() && |r'.counters| == |r.counters|
  {
    r.(counters := r.counters[r.slot := r.counters[r.slot] + 1])
  }

  function Accessed(r: Ring, interval: int, now: int): (r': Ring)
    requires r.Valid() && interval > 0
    ensures r'.Valid() && |r'.counters| == |r.counters|
  {
    Incremented(Advanced(r, interval, now))
  }

  /** The ring as the program keeps it: an array updated in place. */
  class SlotRing {
    const counters: array<int>
    var slotIdx: nat
    var lastTick: int

    ghost predicate Valid()
      reads this
    {
      slotIdx < counters.Length
    }

    ghost function Model(): (r: Ring)
      reads this, counters
    {
      Ring(counters[..], slotIdx, lastTick)
    }

    constructor (slots: nat, now: int)
      requires slots > 0
      ensures Valid() && fresh(counters) && Model() == NewRing(slots, now)
      ensures counters.Length == slots && slotIdx == 0 && lastTick == now
      ensures forall i :: 0 <= i < slots ==> counters[i] == 0
    {
      counters := new int[slots](_ => 0);
      slotIdx := 0;
      lastTick := now;
    }

    method Advance(slotInterval: int, now: int)
      requires Valid() && slotInterval > 0
      modifies this, counters
      ensures Valid()
      ensures Model() == Advanced(old(Model()), slotInterval, now)
      ensures 0 <= now - old(lastTick) < slotInterval ==> Model() == old(Model())
      ensures now - old(lastTick) >= slotInterval ==> lastTick == now
    {
      var steps := Intervals(now - lastTick, slotInterval);
      AtLeastOneInterval(now - lastTick, slotInterval);
      if steps <= 0 {
        return;
      }
      if steps > counters.Length {
        steps := counters.Length;
      }
      var i := 0;
      while i < steps
        invariant 0 <= i <= steps && Valid()
        invariant Model() == NextSlots(old(Model()), i)
      {
        slotIdx := (slotIdx + 1) % counters.Length;
        counters[slotIdx] := 0;
        i := i + 1;
      }
      lastTick := now;
    }

    method Inc()
      requires Valid()
      modifies counters
      ensures Model() == Incremented(old(Model()))
      ensures counters[..] == old(counters[..])[slotIdx := old(counters[slotIdx]) + 1]
    {
      counters[slotIdx] := counters[slotIdx] + 1;
    }

    method Total() returns (total: int)
      ensures total == Sum(counters[..])
    {
      total := 0;
      var i := 0;
      while i < counters.Length
        invariant 0 <= i <= counters.Length
        invariant total == Sum(counters[..i])
      {
        assert counters[..i + 1][..i] == counters[..i];
        total := total + counters[i];
        i := i + 1;
      }
      assert counters[..i] == counters[..];
    }

    /** What one recorded access does to the ring. */
    method Hit(slotInterval: int, now: int) returns (total: int)
      requires Valid() && slotInterval > 0
      modifies this, counters
      ensures Valid()
      ensures Model() == Accessed(old(Model()), slotInterval, now)
      ensures total == Sum(Model().counters)
    {
      Advance(slotInterval, now);
      Inc();
      total := Total();
    }
  }

  // ---------------------------------------------------------------------
  // What the counters stand for: a log of access times, one bucket per slot.
  // Bucket k holds the accesses counted k slots ago.
  // ---------------------------------------------------------------------

  datatype Log = Log(dropped: seq<int>, buckets: seq<seq<int>>)

  /** All accesses still in a bucket, oldest bucket first. */
  function Kept(buckets: seq<seq<int>>): seq<int> {
    if buckets == [] then [] else Kept(buckets[1..]) + buckets[0]
  }

  /** The position of the counter k slots behind slot `s` in a ring of n. */
  function Behind(s: nat, k: nat, n: nat): (i: nat)
    requires s < n && k < n
    ensures i < n
  {
    if k <= s then s - k else s + n - k
  }

  ghost predicate Counts(r: Ring, log: Log) {
    && r.Valid()
    && |log.buckets| == |r.counters|
    && forall k :: 0 <= k < |log.buckets| ==>
         r.counters[Behind(r.slot, k, |r.counters|)] == |log.buckets[k]|
  }

  /** The age, measured at `last`, of an access counted k slots ago. */
  ghost predicate Fits(age: int, k: int, interval: int) {
    (k - 1) * interval < age <= k * (2 * interval - 1)
  }

  ghost predicate Outlived(age: int, k: int, interval: int) {
    age > k * interval
  }

  /**
   The ages allowed in each bucket once `moved` slots have been entered but
   `last` has not been updated yet.
   */
  ghost predicate Timed(log: Log, last: int, interval: int, moved: nat) {
    && (forall k :: 0 <= k < |log.buckets| && k < moved ==> log.buckets[k] == [])
    && (forall k, i :: moved <= k < |log.buckets| && 0 <= i < |log.buckets[k]| ==>
         Fits(last - log.buckets[k][i], k - moved, interval))
    && (forall i :: 0 <= i < |log.dropped| ==> Outlived(last - log.dropped[i], |log.buckets| - 1 - moved, interval))
  }

  /** The log after entering one slot. */
  ghost function Shift(log: Log): (log': Log)
    requires log.buckets != []
    ensures |log'.buckets| == |log.buckets|
  {
    var n := |log.buckets|;
    Log(log.dropped + log.buckets[n - 1], [[]] + log.buckets[..n - 1])
  }

  ghost function Shifts(log: Log, steps: nat): (log': Log)
    requires log.buckets != []
    ensures |log'.buckets| == |log.buckets|
  {
    if steps == 0 then log else Shift(Shifts(log, steps - 1))
  }

  lemma {:induction false} KeptSnoc(b: seq<seq<int>>, last: seq<int>)
    ensures Kept(b + [last]) == last + Kept(b)
  {
    if b == [] {
      assert (b + [last])[1..] == [];
    } else {
      assert (b + [last])[1..] == b[1..] + [last];
      KeptSnoc(b[1..], last);
      calc {
        Kept(b + [last]);
        Kept(b[1..] + [last]) + b[0];
        (last + Kept(b[1..])) + b[0];
        last + (Kept(b[1..]) + b[0]);
      }
    }
  }

  /** Entering a slot loses no access from the log. */
  lemma ShiftKeepsHistory(log: Log)
    requires log.buckets != []
    ensures Shift(log).dropped + Kept(Shift(log).buckets) == log.dropped + Kept(log.buckets)
  {
    var n := |log.buckets|;
    var front := log.buckets[..n - 1];
    assert log.buckets == front + [log.buckets[n - 1]];
    KeptSnoc(front, log.buckets[n - 1]);
    assert Shift(log).buckets[1..] == front;
  }

  lemma BehindNext(s: nat, k: nat, n: nat)
    requires s < n && k < n
    ensures var s' := (s + 1) % n;
            s' == (if s + 1 == n then 0 else s + 1) && Behind(s', k, n) == if k == 0 then s' else Behind(s, k - 1, n)
    ensures k > 0 ==> Behind(s, k - 1, n) != (s + 1) % n
  {
    if s + 1 < n {
      assert (s + 1) % n == s + 1;
    }
  }

  lemma ShiftCounts(r: Ring, log: Log)
    requires Counts(r, log)
    ensures Counts(NextSlot(r), Shift(log))
  {
    var n := |r.counters|;
    var r', log' := NextSlot(r), Shift(log);
    forall k | 0 <= k < n
      ensures r'.counters[Behind(r'.slot, k, n)] == |log'.buckets[k]|
    {
      BehindNext(r.slot, k, n);
    }
  }

  lemma ShiftTimed(log: Log, last: int, interval: int, moved: nat)
    requires interval > 0 && log.buckets != []
    requires Timed(log, last, interval, moved)
    ensures Timed(Shift(log), last, interval, moved + 1)
  {
    var n := |log.buckets|;
    var log' := Shift(log);
    forall k, i | moved + 1 <= k < n && 0 <= i < |log'.buckets[k]|
      ensures Fits(last - log'.buckets[k][i], k - (moved + 1), interval)
    {
      assert log'.buckets[k] == log.buckets[k - 1];
      assert Fits(last - log.buckets[k - 1][i], k - 1 - moved, interval);
    }
    forall i | 0 <= i < |log'.dropped|
      ensures Outlived(last - log'.dropped[i], n - 1 - (moved + 1), interval)
    {
      var m := |log.dropped|;
      var d := n - 1 - moved;
      if i < m {
        assert Outlived(last - log.dropped[i], d, interval);
        Weaken(last - log.dropped[i], d, interval);
      } else {
        assert log'.dropped[i] == log.buckets[n - 1][i - m];
        assert Fits(last - log'.dropped[i], d, interval);
      }
    }
  }

  lemma Weaken(age: int, k: int, interval: int)
    requires interval > 0 && Outlived(age, k, interval)
    ensures Outlived(age, k - 1, interval)
  {
    assert (k - 1) * interval == k * interval - interval;
  }

  lemma {:induction false} ShiftsCount(r: Ring, log: Log, steps: nat)
    requires Counts(r, log)
    ensures Counts(NextSlots(r, steps), Shifts(log, steps)) && NextSlots(r, steps).last == r.last
  {
    if steps > 0 {
      ShiftsCount(r, log, steps - 1);
      ShiftCounts(NextSlots(r, steps - 1), Shifts(log, steps - 1));
    }
  }

  lemma {:induction false} ShiftsTimed(log: Log, last: int, interval: int, steps: nat)
    requires interval > 0 && log.buckets != []
    requires Timed(log, last, interval, 0)
    ensures Timed(Shifts(log, steps), last, interval, steps)
  {
    if steps > 0 {
      ShiftsTimed(log, last, interval, steps - 1);
      ShiftTimed(Shifts(log, steps - 1), last, interval, steps - 1);
    }
  }

  lemma {:induction false} ShiftsKeepHistory(log: Log, steps: nat)
    requires log.buckets != []
    ensures Shifts(log, steps).dropped + Kept(Shifts(log, steps).buckets) == log.dropped + Kept(log.buckets)
  {
    if steps > 0 {
      ShiftsKeepHistory(log, steps - 1);
      ShiftKeepsHistory(Shifts(log, steps - 1));
    }
  }

  lemma Distribute(a: int, b: int, c: int)
    ensures a * c + b * c == (a + b) * c
  {
  }

  lemma AtLeastZero(a: int, b: int)
    requires a >= 0 && b >= 0
    ensures a * b >= 0
  {
  }

  lemma SlackOfMove(moved: nat, interval: int)
    requires interval > 0 && moved >= 1
    ensures (moved + 1) * interval - 1 <= moved * (2 * interval - 1)
  {
    Distribute(moved, 1, interval);
    Distribute(interval, interval - 1, moved);
    Distribute(moved - 1, 1, interval - 1);
    Distribute(interval - 1, 1, moved);
    AtLeastZero(moved - 1, interval - 1);
  }

  /** One access when `last` moves up by at least `moved` and, unless it left the ring, less than `moved + 1` intervals. */
  lemma CatchUpOne(age: int, k: int, interval: int, moved: nat, delta: int)
    requires interval > 0 && moved >= 1
    requires Fits(age, k - moved, interval)
    requires moved * interval <= delta < (moved + 1) * interval
    ensures Fits(age + delta, k, interval)
  {
    Distribute(k - moved - 1, moved, interval);
    Distribute(k - moved, moved, 2 * interval - 1);
    SlackOfMove(moved, interval);
  }

  lemma CatchUpDropped(age: int, k: int, interval: int, moved: nat, delta: int)
    requires Outlived(age, k - moved, interval) && moved * interval <= delta
    ensures Outlived(age + delta, k, interval)
  {
    assert (k - moved) * interval + moved * interval == k * interval;
  }

  lemma CatchUp(log: Log, last: int, interval: int, moved: nat, now: int)
    requires interval > 0 && moved >= 1
    requires Timed(log, last, interval, moved)
    requires moved * interval <= now - last
    requires now - last < (moved + 1) * interval || moved >= |log.buckets|
    ensures Timed(log, now, interval, 0)
  {
    forall k, i | moved <= k < |log.buckets| && 0 <= i < |log.buckets[k]|
      ensures Fits(now - log.buckets[k][i], k, interval)
    {
      CatchUpOne(last - log.buckets[k][i], k, interval, moved, now - last);
    }
    forall i | 0 <= i < |log.dropped|
      ensures Outlived(now - log.dropped[i], |log.buckets| - 1, interval)
    {
      assert Outlived(last - log.dropped[i], |log.buckets| - 1 - moved, interval);
      CatchUpDropped(last - log.dropped[i], |log.buckets| - 1, interval, moved, now - last);
    }
  }

  lemma DivBounds(a: int, b: int)
    requires a >= 0 && b > 0
    ensures (a / b) * b <= a < (a / b + 1) * b
  {
  }

  lemma Scale(a: int, b: int, c: int)
    requires a <= b && c > 0
    ensures a * c <= b * c
  {
  }

  /** A ring, its log and the accesses made since it was created belong together. */
  ghost predicate Explains(r: Ring, interval: int, log: Log, history: seq<int>) {
    && Counts(r, log)
    && Timed(log, r.last, interval, 0)
    && log.dropped + Kept(log.buckets) == history
  }

  lemma AdvanceExplained(r: Ring, interval: int, log: Log, history: seq<int>, now: int) returns (log': Log)
    requires interval > 0 && Explains(r, interval, log, history) && r.last <= now
    ensures Explains(Advanced(r, interval, now), interval, log', history)
    ensures 0 <= now - Advanced(r, interval, now).last < interval
  {
    var n := |r.counters|;
    var whole := Intervals(now - r.last, interval);
    DivBounds(now - r.last, interval);
    if whole <= 0 {
      log' := log;
    } else {
      var steps := if whole > n then n else whole;
      ShiftsCount(r, log, steps);
      ShiftsTimed(log, r.last, interval, steps);
      ShiftsKeepHistory(log, steps);
      log' := Shifts(log, steps);
      Scale(steps, whole, interval);
      CatchUp(log', r.last, interval, steps, now);
    }
  }

  lemma IncExplained(r: Ring, interval: int, log: Log, history: seq<int>, now: int) returns (log': Log)
    requires interval > 0 && Explains(r, interval, log, history)
    requires 0 <= now - r.last < interval
    ensures Explains(Incremented(r), interval, log', history + [now])
  {
    var first := log.buckets[0] + [now];
    log' := log.(buckets := log.buckets[0 := first]);
    assert log'.buckets[1..] == log.buckets[1..];
    assert Kept(log'.buckets) == Kept(log.buckets) + [now];
    forall k | 0 <= k < |log'.buckets|
      ensures Incremented(r).counters[Behind(r.slot, k, |r.counters|)] == |log'.buckets[k]|
    {
    }
    forall k, i | 0 <= k < |log'.buckets| && 0 <= i < |log'.buckets[k]|
      ensures Fits(r.last - log'.buckets[k][i], k, interval)
    {
      if k == 0 && i == |log.buckets[0]| {
        assert log'.buckets[k][i] == now;
      } else {
        assert log'.buckets[k][i] == log.buckets[k][i];
      }
    }
  }

  lemma AccessExplained(r: Ring, interval: int, log: Log, history: seq<int>, now: int) returns (log': Log)
    requires interval > 0 && Explains(r, interval, log, history) && r.last <= now
    ensures Explains(Accessed(r, interval, now), interval, log', history + [now])
    ensures 0 <= now - Accessed(r, interval, now).last < interval
  {
    log' := AdvanceExplained(r, interval, log, history, now);
    log' := IncExplained(Advanced(r, interval, now), interval, log', history, now);
  }

  lemma NewRingExplained(slots: nat, interval: int, now: int) returns (log: Log)
    requires slots > 0
    ensures Explains(NewRing(slots, now), interval, log, [])
  {
    log := Log([], seq(slots, _ => []));
    KeptNothing(log.buckets);
  }

  lemma {:induction false} KeptNothing(b: seq<seq<int>>)
    requires forall k :: 0 <= k < |b| ==> b[k] == []
    ensures Kept(b) == []
  {
    if b != [] {
      KeptNothing(b[1..]);
    }
  }

  // ---------------------------------------------------------------------
  // The sum of the counters is the number of accesses still in a bucket.
  // ---------------------------------------------------------------------

  function Lengths(b: seq<seq<int>>): (s: seq<int>)
    ensures |s| == |b|
  {
    seq(|b|, k requires 0 <= k < |b| => |b[k]|)
  }

  lemma {:induction false} SumConcat(a: seq<int>, b: seq<int>)
    ensures Sum(a + b) == Sum(a) + Sum(b)
  {
    if b == [] {
      assert a + b == a;
    } else {
      assert (a + b)[..|a + b| - 1] == a + b[..|b| - 1];
      SumConcat(a, b[..|b| - 1]);
    }
  }

  lemma {:induction false} SumReverse(s: seq<int>, t: seq<int>)
    requires |s| == |t| && forall k :: 0 <= k < |s| ==> s[k] == t[|t| - 1 - k]
    ensures Sum(s) == Sum(t)
  {
    if s != [] {
      assert t == [t[0]] + t[1..];
      SumConcat([t[0]], t[1..]);
      assert Sum([t[0]]) == t[0];
      SumReverse(s[..|s| - 1], t[1..]);
    }
  }

  lemma {:induction false} KeptLength(b: seq<seq<int>>)
    ensures |Kept(b)| == Sum(Lengths(b))
  {
    if b != [] {
      KeptLength(b[1..]);
      assert Lengths(b) == [|b[0]|] + Lengths(b[1..]);
      SumConcat([|b[0]|], Lengths(b[1..]));
      assert Sum([|b[0]|]) == |b[0]|;
    }
  }

  /** Slots s, s-1, .., 0 hold buckets 0 .. s. */
  lemma LowSlots(r: Ring, log: Log)
    requires Counts(r, log)
    ensures Sum(r.counters[..r.slot + 1]) == Sum(Lengths(log.buckets)[..r.slot + 1])
  {
    var s := r.slot;
    var low, lens := r.counters[..s + 1], Lengths(log.buckets)[..s + 1];
    forall k | 0 <= k < |low|
      ensures low[k] == lens[s - k]
    {
      assert Behind(s, s - k, |r.counters|) == k;
    }
    SumReverse(low, lens);
  }

  /** Slots n-1, .., s+1 hold the buckets after s. */
  lemma HighSlots(r: Ring, log: Log)
    requires Counts(r, log)
    ensures Sum(r.counters[r.slot + 1..]) == Sum(Lengths(log.buckets)[r.slot + 1..])
  {
    var n, s := |r.counters|, r.slot;
    var high, lens := r.counters[s + 1..], Lengths(log.buckets)[s + 1..];
    forall k | 0 <= k < |high|
      ensures high[k] == lens[|lens| - 1 - k]
    {
      assert Behind(s, n - 1 - k, n) == s + 1 + k;
    }
    SumReverse(high, lens);
  }

  lemma SumSplit(s: seq<int>, k: nat)
    requires k <= |s|
    ensures Sum(s) == Sum(s[..k]) + Sum(s[k..])
  {
    assert s == s[..k] + s[k..];
    SumConcat(s[..k], s[k..]);
  }

  lemma SumIsKept(r: Ring, log: Log)
    requires Counts(r, log)
    ensures Sum(r.counters) == |Kept(log.buckets)|
  {
    KeptLength(log.buckets);
    SumSplit(r.counters, r.slot + 1);
    SumSplit(Lengths(log.buckets), r.slot + 1);
    LowSlots(r, log);
    HighSlots(r, log);
  }

  // ---------------------------------------------------------------------
  // The sliding-window result.
  // ---------------------------------------------------------------------

  /** The number of accesses in `history` whose age at `now` is at most `age`. */
  function Recent(history: seq<int>, now: int, age: int): nat {
    if history == [] then 0
    else Recent(history[..|history| - 1], now, age) + (if now - history[|history| - 1] <= age then 1 else 0)
  }

  lemma {:induction false} RecentConcat(a: seq<int>, b: seq<int>, now: int, age: int)
    ensures Recent(a + b, now, age) == Recent(a, now, age) + Recent(b, now, age)
  {
    if b == [] {
      assert a + b == a;
    } else {
      assert (a + b)[..|a + b| - 1] == a + b[..|b| - 1];
      RecentConcat(a, b[..|b| - 1], now, age);
    }
  }

  lemma {:induction false} RecentNone(s: seq<int>, now: int, age: int)
    requires forall i :: 0 <= i < |s| ==> now - s[i] > age
    ensures Recent(s, now, age) == 0
  {
    if s != [] {
      RecentNone(s[..|s| - 1], now, age);
    }
  }

  lemma {:induction false} RecentAll(s: seq<int>, now: int, age: int)
    requires forall i :: 0 <= i < |s| ==> now - s[i] <= age
    ensures Recent(s, now, age) == |s|
  {
    if s != [] {
      RecentAll(s[..|s| - 1], now, age);
    }
  }

  lemma {:induction false} RecentAtMost(s: seq<int>, now: int, age: int)
    ensures Recent(s, now, age) <= |s|
  {
    if s != [] {
      RecentAtMost(s[..|s| - 1], now, age);
    }
  }

  lemma {:induction false} KeptYoung(b: seq<seq<int>>, now: int, age: int)
    requires forall k, i :: 0 <= k < |b| && 0 <= i < |b[k]| ==> now - b[k][i] <= age
    ensures forall i :: 0 <= i < |Kept(b)| ==> now - Kept(b)[i] <= age
  {
    if b != [] {
      forall k, i | 0 <= k < |b[1..]| && 0 <= i < |b[1..][k]|
        ensures now - b[1..][k][i] <= age
      {
        assert b[1..][k] == b[k + 1];
      }
      KeptYoung(b[1..], now, age);
    }
  }

  /** The age of the oldest access a ring can still count. */
  function OldestCounted(slots: int, interval: int): int {
    (2 * slots - 1) * interval - slots
  }

  lemma FitsBound(age: int, k: nat, n: nat, interval: int)
    requires k < n && interval > 0 && Fits(age, k, interval)
    ensures age + interval - 1 <= OldestCounted(n, interval)
  {
    Scale(k, n - 1, 2 * interval - 1);
    assert (n - 1) * (2 * interval - 1) + interval - 1 == (2 * n - 1) * interval - n;
  }

  /** The sum lies between two true window counts, right after an access at `now`. */
  lemma SumBounds(r: Ring, interval: int, log: Log, history: seq<int>, now: int)
    requires interval > 0 && Explains(r, interval, log, history)
    requires 0 <= now - r.last < interval
    ensures var n := |r.counters|;
            Recent(history, now, (n - 1) * interval) <= Sum(r.counters) <= Recent(history, now, OldestCounted(n, interval))
  {
    var n := |r.counters|;
    var kept := Kept(log.buckets);
    var low, high := (n - 1) * interval, OldestCounted(n, interval);
    SumIsKept(r, log);
    RecentConcat(log.dropped, kept, now, low);
    RecentNone(log.dropped, now, low);
    RecentAtMost(kept, now, low);
    forall k, i | 0 <= k < n && 0 <= i < |log.buckets[k]|
      ensures now - log.buckets[k][i] <= high
    {
      FitsBound(r.last - log.buckets[k][i], k, n, interval);
    }
    KeptYoung(log.buckets, now, high);
    RecentConcat(log.dropped, kept, now, high);
    RecentAll(kept, now, high);
  }

  ghost predicate NonDecreasing(s: seq<int>) {
    forall i, j :: 0 <= i <= j < |s| ==> s[i] <= s[j]
  }

  /** A ring created at `created` that has counted every access of `history`. */
  function Run(slots: nat, interval: int, created: int, history: seq<int>): (r: Ring)
    requires slots > 0 && interval > 0
    ensures r.Valid() && |r.counters| == slots
  {
    if history == [] then NewRing(slots, created)
    else Accessed(Run(slots, interval, created, history[..|history| - 1]), interval, history[|history| - 1])
  }

  lemma {:induction false} RunExplained(slots: nat, interval: int, created: int, history: seq<int>) returns (log: Log)
    requires slots > 0 && interval > 0 && NonDecreasing([created] + history)
    ensures Explains(Run(slots, interval, created, history), interval, log, history)
    ensures var end := ([created] + history)[|history|];
            0 <= end - Run(slots, interval, created, history).last < interval
  {
    if history == [] {
      log := NewRingExplained(slots, interval, created);
    } else {
      var n := |history|;
      var front := history[..n - 1];
      assert forall i :: 0 <= i < n ==> ([created] + front)[i] == ([created] + history)[i];
      log := RunExplained(slots, interval, created, front);
      assert ([created] + history)[n - 1] <= ([created] + history)[n] == history[n - 1];
      log := AccessExplained(Run(slots, interval, created, front), interval, log, front, history[n - 1]);
      assert front + [history[n - 1]] == history;
    }
  }

  /**
   For every access history, the sum read right after the latest access counts
   every access aged at most (n-1) slots and none older than `OldestCounted`.
   */
  lemma {:induction false} WindowSandwich(slots: nat, interval: int, created: int, history: seq<int>)
    requires slots > 0 && interval > 0
    requires history != [] && NonDecreasing([created] + history)
    ensures var now := history[|history| - 1];
            var total := Sum(Run(slots, interval, created, history).counters);
            Recent(history, now, (slots - 1) * interval) <= total <= Recent(history, now, OldestCounted(slots, interval))
  {
    var log := RunExplained(slots, interval, created, history);
    SumBounds(Run(slots, interval, created, history), interval, log, history, history[|history| - 1]);
  }

  // ---------------------------------------------------------------------
  // Both bounds are the best possible, for every ring.
  // ---------------------------------------------------------------------

  /** After some history the sum exceeds the number of accesses aged at most `age`. */
  ghost predicate Overcounts(slots: nat, interval: int, age: int)
    requires slots > 0 && interval > 0
  {
    exists created, history :: history != [] && NonDecreasing([created] + history) &&
      Sum(Run(slots, interval, created, history).counters) > Recent(history, history[|history| - 1], age)
  }

  /** After some history the sum falls short of the number of accesses aged at most `age`. */
  ghost predicate Undercounts(slots: nat, interval: int, age: int)
    requires slots > 0 && interval > 0
  {
    exists created, history :: history != [] && NonDecreasing([created] + history) &&
      Sum(Run(slots, interval, created, history).counters) < Recent(history, history[|history| - 1], age)
  }

  lemma {:induction false} RecentMonotone(s: seq<int>, now: int, age: int, more: int)
    requires age <= more
    ensures Recent(s, now, age) <= Recent(s, now, more)
  {
    if s != [] {
      RecentMonotone(s[..|s| - 1], now, age, more);
    }
  }

  lemma {:induction false} SumOfOnes(s: seq<int>, ones: nat)
    requires ones <= |s| && forall i :: 0 <= i < |s| ==> s[i] == if i < ones then 1 else 0
    ensures Sum(s) == ones
  {
    if s != [] {
      SumOfOnes(s[..|s| - 1], if ones == |s| then ones - 1 else ones);
    }
  }

  /** The k-th access of the slowest walk through the ring: each enters one slot, as late as possible. */
  function Walk(interval: int, k: nat): (history: seq<int>)
    ensures |history| == k && forall i :: 0 <= i < k ==> history[i] == i * (2 * interval - 1)
  {
    seq(k, i => i * (2 * interval - 1))
  }

  ghost predicate Walked(r: Ring, slots: nat, interval: int, k: nat) {
    && |r.counters| == slots && r.slot == k && r.last == k * (2 * interval - 1)
    && forall i :: 0 <= i < slots ==> r.counters[i] == if i <= k then 1 else 0
  }

  lemma WalkOne(r: Ring, slots: nat, interval: int, k: nat)
    requires k + 1 < slots && interval > 0 && Walked(r, slots, interval, k)
    ensures Walked(Accessed(r, interval, (k + 1) * (2 * interval - 1)), slots, interval, k + 1)
  {
    var now := (k + 1) * (2 * interval - 1);
    WholeIntervals(2 * interval - 1, 1, interval);
    assert now - r.last == 2 * interval - 1;
    OneSlotOn(r, interval, now);
  }

  lemma OneSlotOn(r: Ring, interval: int, now: int)
    requires r.Valid() && interval > 0 && Intervals(now - r.last, interval) == 1 && r.slot + 1 < |r.counters|
    ensures Accessed(r, interval, now) == Ring(r.counters[r.slot + 1 := 1], r.slot + 1, now)
  {
    SmallMod(r.slot + 1, |r.counters|);
    assert NextSlot(r) == Ring(r.counters[r.slot + 1 := 0], r.slot + 1, r.last);
    assert NextSlots(r, 1) == NextSlot(NextSlots(r, 0));
    var entered := NextSlot(r).(last := now);
    assert Advanced(r, interval, now) == entered;
    assert Incremented(entered).counters == r.counters[r.slot + 1 := 1];
  }

  lemma SmallMod(a: nat, n: nat)
    requires a < n
    ensures a % n == a
  {
  }

  lemma WholeIntervals(elapsed: int, q: nat, interval: int)
    requires interval > 0 && q * interval <= elapsed < (q + 1) * interval
    ensures Intervals(elapsed, interval) == q
  {
    assert q * interval >= 0;
    DivBounds(elapsed, interval);
    var d := elapsed / interval;
    if d > q {
      Scale(q + 1, d, interval);
    } else if d < q {
      Scale(d + 1, q, interval);
    }
  }

  lemma {:induction false} WalkRun(slots: nat, interval: int, k: nat)
    requires k < slots && interval > 0
    ensures Walked(Run(slots, interval, 0, Walk(interval, k + 1)), slots, interval, k)
  {
    var history := Walk(interval, k + 1);
    assert history[..k] == Walk(interval, k);
    if k == 0 {
      assert Run(slots, interval, 0, []) == NewRing(slots, 0);
    } else {
      WalkRun(slots, interval, k - 1);
      WalkOne(Run(slots, interval, 0, Walk(interval, k)), slots, interval, k - 1);
    }
  }

  lemma WalkInOrder(interval: int, k: nat)
    requires interval > 0
    ensures NonDecreasing(Walk(interval, k)) && forall i :: 0 <= i < k ==> 0 <= Walk(interval, k)[i] <= (k - 1) * (2 * interval - 1)
  {
    var walk := Walk(interval, k);
    forall i, j | 0 <= i <= j < k
      ensures 0 <= walk[i] <= walk[j] <= (k - 1) * (2 * interval - 1)
    {
      Scale(i, j, 2 * interval - 1);
      Scale(j, k - 1, 2 * interval - 1);
    }
  }

  lemma OldestFromWalk(slots: nat, interval: int)
    requires slots > 0
    ensures OldestCounted(slots, interval) == (slots - 1) * (2 * interval - 1) + (interval - 1)
  {
  }

  lemma LastSlotTwice(s: seq<int>)
    requires s != [] && forall i :: 0 <= i < |s| ==> s[i] == 1
    ensures Sum(s[|s| - 1 := 2]) == |s| + 1
  {
    var t := s[|s| - 1 := 2];
    assert t[..|s| - 1] == s[..|s| - 1];
    SumOfOnes(s[..|s| - 1], |s| - 1);
  }

  /** The walk, and one more access just before its last slot is over: everything is still counted. */
  lemma OldestIsCounted(slots: nat, interval: int) returns (history: seq<int>)
    requires slots > 0 && interval > 0
    ensures history != [] && history[0] == 0 && NonDecreasing([0] + history)
    ensures history[|history| - 1] == OldestCounted(slots, interval)
    ensures Sum(Run(slots, interval, 0, history).counters) == |history|
  {
    var walk, now := Walk(interval, slots), OldestCounted(slots, interval);
    history := walk + [now];
    assert history[..slots] == walk;
    OldestFromWalk(slots, interval);
    WalkInOrder(interval, slots);
    WalkRun(slots, interval, slots - 1);
    var r := Run(slots, interval, 0, walk);
    WholeIntervals(now - r.last, 0, interval);
    assert Run(slots, interval, 0, history) == Incremented(r);
    LastSlotTwice(r.counters);
  }

  /** How old an access can get and still be counted: exactly to `OldestCounted`. */
  lemma OvercountsExactly(slots: nat, interval: int, age: int)
    requires slots > 0 && interval > 0
    ensures Overcounts(slots, interval, age) <==> age < OldestCounted(slots, interval)
  {
    var oldest := OldestCounted(slots, interval);
    if age < oldest {
      var history := OldestIsCounted(slots, interval);
      var now := history[|history| - 1];
      assert history == [history[0]] + history[1..];
      RecentConcat([history[0]], history[1..], now, age);
      RecentNone([history[0]], now, age);
      RecentAtMost(history[1..], now, age);
    } else {
      forall created, history | history != [] && NonDecreasing([created] + history)
        ensures Sum(Run(slots, interval, created, history).counters) <= Recent(history, history[|history| - 1], age)
      {
        WindowSandwich(slots, interval, created, history);
        RecentMonotone(history, history[|history| - 1], oldest, age);
      }
    }
  }

  /** So a ring counts accesses older than its n slots unless they are very short. */
  lemma WindowOverrunExactly(slots: nat, interval: int)
    requires slots > 0 && interval > 0
    ensures Overcounts(slots, interval, slots * interval) <==> (slots - 1) * interval > slots
  {
    OvercountsExactly(slots, interval, slots * interval);
    Distribute(slots, slots - 1, interval);
  }

  ghost predicate ZeroBehind(r: Ring, steps: nat) {
    && r.Valid() && steps <= |r.counters|
    && forall j :: 0 <= j < steps ==> r.counters[Behind(r.slot, j, |r.counters|)] == 0
  }

  lemma OneMoreZero(r: Ring, steps: nat)
    requires ZeroBehind(r, steps) && steps < |r.counters|
    ensures ZeroBehind(NextSlot(r), steps + 1)
  {
    var n, r' := |r.counters|, NextSlot(r);
    forall j | 0 <= j < steps + 1
      ensures r'.counters[Behind(r'.slot, j, n)] == 0
    {
      BehindNext(r.slot, j, n);
      if j > 0 {
        assert r.counters[Behind(r.slot, j - 1, n)] == 0;
      }
    }
  }

  lemma {:induction false} EnteredSlotsAreZero(r: Ring, steps: nat)
    requires r.Valid() && steps <= |r.counters|
    ensures ZeroBehind(NextSlots(r, steps), steps)
  {
    if steps > 0 {
      EnteredSlotsAreZero(r, steps - 1);
      OneMoreZero(NextSlots(r, steps - 1), steps - 1);
    }
  }

  lemma AllBehind(r: Ring, i: nat)
    requires ZeroBehind(r, |r.counters|) && i < |r.counters|
    ensures r.counters[i] == 0
  {
    var n := |r.counters|;
    var j := Behind(r.slot, i, n);
    assert Behind(r.slot, j, n) == i;
  }

  lemma FullTurnClears(r: Ring)
    requires r.Valid()
    ensures forall i :: 0 <= i < |r.counters| ==> NextSlots(r, |r.counters|).counters[i] == 0
  {
    var n := |r.counters|;
    EnteredSlotsAreZero(r, n);
    forall i | 0 <= i < n
      ensures NextSlots(r, n).counters[i] == 0
    {
      AllBehind(NextSlots(r, n), i);
    }
  }

  lemma OneCounted(r: Ring)
    requires r.Valid() && forall i :: 0 <= i < |r.counters| ==> r.counters[i] == 0
    ensures Sum(Incremented(r).counters) == 1
  {
    var s, k := Incremented(r).counters, r.slot;
    SumSplit(s, k);
    SumOfOnes(s[..k], 0);
    SumOfOnes(s[k..], 1);
  }

  /** An access at the end of the first slot is dropped by one n slots after the start. */
  lemma YoungestIsMissed(slots: nat, interval: int)
    requires slots > 0 && interval > 0
    ensures Sum(Run(slots, interval, 0, [interval - 1, slots * interval]).counters) == 1
  {
    var early, now := interval - 1, slots * interval;
    var history := [early, now];
    assert history[..1] == [early] && [early][..0] == [];
    WholeIntervals(early, 0, interval);
    var r := Run(slots, interval, 0, [early]);
    assert Run(slots, interval, 0, []) == NewRing(slots, 0);
    assert r == Incremented(NewRing(slots, 0));
    assert (slots + 1) * interval == now + interval;
    WholeIntervals(now, slots, interval);
    FullTurnClears(r);
    var cleared := NextSlots(r, slots).(last := now);
    assert Run(slots, interval, 0, history) == Incremented(cleared);
    OneCounted(cleared);
  }

  /** How young an access can be and yet be missed: exactly from (n-1) slots on. */
  lemma UndercountsExactly(slots: nat, interval: int, age: int)
    requires slots > 0 && interval > 0
    ensures Undercounts(slots, interval, age) <==> age > (slots - 1) * interval
  {
    if age > (slots - 1) * interval {
      var history := [interval - 1, slots * interval];
      YoungestIsMissed(slots, interval);
      assert (slots - 1) * interval + interval == slots * interval;
      assert interval <= slots * interval by { Scale(1, slots, interval); }
      RecentAll(history, slots * interval, age);
      assert NonDecreasing([0] + history) && history[|history| - 1] == slots * interval;
    } else {
      forall created, history | history != [] && NonDecreasing([created] + history)
        ensures Sum(Run(slots, interval, created, history).counters) >= Recent(history, history[|history| - 1], age)
      {
        WindowSandwich(slots, interval, created, history);
        RecentMonotone(history, history[|history| - 1], age, (slots - 1) * interval);
      }
    }
  }
}
