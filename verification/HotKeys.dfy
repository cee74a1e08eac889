/**
 The hot-key detector: one slot ring per key, a set of keys reported hot, and
 a periodic cleanup that forgets quiet keys.

 Each method is one atomic step. `KeyStep` says what a step does to one key;
 the main results follow one key through any sequence of steps.
*/
module HotKeys {
  import opened Options
  import opened SlotRings

  datatype Config = Config(slots: nat, windowSize: int, threshold: int) {
    // With no slots, or a window shorter than one time unit per slot, the
    // program divides by zero on the first access.
    ghost predicate Valid() {
      slots > 0 && windowSize / slots > 0
    }

    function Interval(): (i: int)
      requires Valid()
      ensures i > 0
    {
      windowSize / slots
    }

    /** A ring summing to this or less is forgotten by a cleanup; Go truncates toward zero. */
    function Quiet(): int {
      if threshold >= 0 then threshold / 10 else -((-threshold) / 10)
    }

    /** The most accesses one cleanup can forget. */
    function Slack(): nat {
      if Quiet() > 0 then Quiet() else 0
    }

    /** Every access this young is still counted, cleanups apart. */
    function SureAge(): int
      requires Valid()
    {
      (slots - 1) * Interval()
    }

    /** No access older than this is counted. */
    function MaxAge(): int
      requires Valid()
    {
      OldestCounted(slots, Interval())
    }
  }

  /** A tenth of the threshold, without division; below zero Go rounds up. */
  lemma QuietExactly(cfg: Config, sum: int)
    ensures sum <= cfg.Quiet() <==> 10 * sum <= cfg.threshold + (if cfg.threshold < 0 then 9 else 0)
  {
  }

  /** What the detector knows about one key. */
  datatype KeyState = KeyState(ring: Option<Ring>, hot: bool) {
    ghost predicate Valid(cfg: Config) {
      && (ring.Some? ==> ring.value.Valid() && |ring.value.counters| == cfg.slots)
      && (hot ==> ring.Some?)
    }
  }

  /** An access at `now`, which finds the time `created` if it has to make a new ring; or a cleanup. */
  datatype Event = Visit(created: int, now: int) | Cleanup(now: int)

  function VisitedRing(cfg: Config, st: KeyState, created: int, now: int): (r: Ring)
    requires cfg.Valid() && st.Valid(cfg)
    ensures r.Valid() && |r.counters| == cfg.slots
  {
    var ring := if st.ring.Some? then st.ring.value else NewRing(cfg.slots, created);
    Accessed(ring, cfg.Interval(), now)
  }

  function KeyStep(cfg: Config, st: KeyState, e: Event): (st': KeyState)
    requires cfg.Valid() && st.Valid(cfg)
    ensures st'.Valid(cfg)
  {
    match e
    case Visit(created, now) =>
      var ring := VisitedRing(cfg, st, created, now);
      KeyState(Some(ring), st.hot || Sum(ring.counters) > cfg.threshold)
    case Cleanup(_) =>
      if st.ring.Some? && Sum(st.ring.value.counters) <= cfg.Quiet() then KeyState(None, false) else st
  }

  lemma RemoveTwice<V>(m: map<string, V>, done: set<string>, key: string)
    ensures m - done - {key} == m - (done + {key})
  {
  }

  /** The detector as the program keeps it. */
  class HotKeyDetector {
    const cfg: Config
    var keyCounters: map<string, SlotRing>
    var hotKeys: set<string>

    ghost function Rings(): set<SlotRing>
      reads this
    {
      keyCounters.Values
    }

    ghost function Arrays(): set<array<int>>
      reads this
    {
      set k | k in keyCounters :: keyCounters[k].counters
    }

    ghost predicate Valid()
      reads this, Rings()
    {
      && cfg.Valid()
      && hotKeys <= keyCounters.Keys
      && (forall k :: k in keyCounters ==> keyCounters[k].Valid() && keyCounters[k].counters.Length == cfg.slots)
      && (forall k, l :: k in keyCounters && l in keyCounters && k != l ==>
           keyCounters[k] != keyCounters[l] && keyCounters[k].counters != keyCounters[l].counters)
    }

    ghost function KeyOf(key: string): (st: KeyState)
      requires Valid()
      reads this, Rings(), Arrays()
      ensures st.Valid(cfg)
    {
      if key in keyCounters then KeyState(Some(keyCounters[key].Model()), key in hotKeys)
      else KeyState(None, false)
    }

    constructor (cfg: Config)
      requires cfg.Valid()
      ensures Valid() && this.cfg == cfg
      ensures forall k :: KeyOf(k) == KeyState(None, false)
    {
      this.cfg := cfg;
      keyCounters := map[];
      hotKeys := {};
    }

    /** The ring of `key`, made on its first access. */
    method RingFor(key: string, created: int)
      requires Valid()
      modifies this
      ensures Valid() && key in keyCounters && hotKeys == old(hotKeys)
      ensures var st := old(KeyOf(key));
        KeyOf(key) == KeyState(Some(if st.ring.Some? then st.ring.value else NewRing(cfg.slots, created)), st.hot)
      ensures if key in old(keyCounters) then keyCounters == old(keyCounters)
              else keyCounters == old(keyCounters)[key := keyCounters[key]]
                   && fresh(keyCounters[key]) && fresh(keyCounters[key].counters)
      ensures forall k :: k != key ==> KeyOf(k) == old(KeyOf(k))
    {
      if key !in keyCounters {
        var made := new SlotRing(cfg.slots, created);
        keyCounters := keyCounters[key := made];
      }
    }

    /** Count the access in the ring of `key`; no other ring changes. */
    method Touch(key: string, now: int) returns (total: int)
      requires Valid() && key in keyCounters
      modifies keyCounters[key], keyCounters[key].counters
      ensures Valid()
      ensures KeyOf(key) == KeyState(Some(Accessed(old(KeyOf(key)).ring.value, cfg.Interval(), now)), old(KeyOf(key)).hot)
      ensures total == Sum(KeyOf(key).ring.value.counters)
      ensures forall k :: k != key ==> KeyOf(k) == old(KeyOf(k))
    {
      var slotInterval := cfg.windowSize / cfg.slots;
      var sr := keyCounters[key];
      total := sr.Hit(slotInterval, now);
    }

    /** `created` and `now` are the two clock readings of the call. */
    method RecordAccess(key: string, created: int, now: int) returns (isHot: bool)
      requires Valid()
      modifies this, Rings(), Arrays()
      ensures Valid()
      ensures KeyOf(key) == KeyStep(cfg, old(KeyOf(key)), Visit(created, now))
      ensures forall k :: k != key ==> KeyOf(k) == old(KeyOf(k))
      ensures isHot == (Sum(VisitedRing(cfg, old(KeyOf(key)), created, now).counters) > cfg.threshold)
      ensures var before := old(KeyOf(key)).ring;
        KeyOf(key).ring == Some(Accessed(if before.Some? then before.value else NewRing(cfg.slots, created),
                                         cfg.windowSize / cfg.slots, now))
      ensures isHot == (Sum(KeyOf(key).ring.value.counters) > cfg.threshold)
      ensures hotKeys == old(hotKeys) + (if isHot then {key} else {})
    {
      RingFor(key, created);
      var total := Touch(key, now);
      isHot := total > cfg.threshold;
      if isHot {
        hotKeys := hotKeys + {key};
      }
    }

    method IsHot(key: string) returns (hot: bool)
      requires Valid()
      ensures hot == KeyOf(key).hot && hot == (key in hotKeys)
    {
      hot := key in hotKeys;
    }

    method CollectQuiet() returns (quiet: set<string>)
      requires Valid()
      ensures quiet == set k | k in keyCounters && Sum(keyCounters[k].counters[..]) <= cfg.Quiet()
    {
      quiet := {};
      var pending := keyCounters.Keys;
      while pending != {}
        invariant pending <= keyCounters.Keys
        invariant quiet == set k | k in keyCounters && k !in pending && Sum(keyCounters[k].counters[..]) <= cfg.Quiet()
        decreases |pending|
      {
        var key :| key in pending;
        var total := keyCounters[key].Total();
        if total <= cfg.Quiet() {
          quiet := quiet + {key};
        }
        pending := pending - {key};
      }
    }

    /** Under the read lock: the keys that look quiet. */
    method QuietKeys() returns (quiet: set<string>)
      requires Valid()
      ensures quiet == set k | k in keyCounters && Sum(keyCounters[k].counters[..]) <= cfg.Quiet()
      ensures forall k :: k in quiet <==>
        k in keyCounters && 10 * Sum(keyCounters[k].counters[..]) <= cfg.threshold + (if cfg.threshold < 0 then 9 else 0)
    {
      quiet := CollectQuiet();
      forall k | k in keyCounters
        ensures Sum(keyCounters[k].counters[..]) <= cfg.Quiet() <==>
                  10 * Sum(keyCounters[k].counters[..]) <= cfg.threshold + (if cfg.threshold < 0 then 9 else 0)
      {
        QuietExactly(cfg, Sum(keyCounters[k].counters[..]));
      }
    }

    /** Under the write lock: delete those of the keys that still are quiet. */
    method Forget(keys: set<string>)
      requires forall k :: k in keys ==> k in keyCounters && Sum(keyCounters[k].counters[..]) <= cfg.Quiet()
      modifies this
      ensures keyCounters == old(keyCounters) - keys && hotKeys == old(hotKeys) - keys
    {
      ghost var rings, hot := keyCounters, hotKeys;
      var left, done := keys, {};
      while left != {}
        invariant left !! done && left + done == keys
        invariant forall k :: k in keys ==> k in rings && Sum(rings[k].counters[..]) <= cfg.Quiet()
        invariant keyCounters == rings - done && hotKeys == hot - done
        decreases left
      {
        var key :| key in left;
        var total := keyCounters[key].Total();
        if total <= cfg.Quiet() {
          RemoveTwice(rings, done, key);
          keyCounters := keyCounters - {key};
          hotKeys := hotKeys - {key};
        }
        left, done := left - {key}, done + {key};
      }
      assert done == keys;
    }

    method CleanupPass(now: int)
      requires Valid()
      modifies this
      ensures Valid()
      ensures forall k :: KeyOf(k) == KeyStep(cfg, old(KeyOf(k)), Cleanup(now))
      ensures forall k :: k in keyCounters <==>
        k in old(keyCounters) && 10 * old(Sum(keyCounters[k].counters[..])) > cfg.threshold + (if cfg.threshold < 0 then 9 else 0)
      ensures hotKeys == old(hotKeys) * keyCounters.Keys
    {
      var quiet := QuietKeys();
      Forget(quiet);
    }
  }

  // ---------------------------------------------------------------------
  // One key through a whole run.
  // ---------------------------------------------------------------------

  const Unknown := KeyState(None, false)

  function KeyRun(cfg: Config, st: KeyState, events: seq<Event>): (st': KeyState)
    requires cfg.Valid() && st.Valid(cfg)
    ensures st'.Valid(cfg)
  {
    if events == [] then st
    else KeyStep(cfg, KeyRun(cfg, st, events[..|events| - 1]), events[|events| - 1])
  }

  /** The times of the accesses in a run. */
  function Visits(events: seq<Event>): seq<int> {
    if events == [] then []
    else
      var e := events[|events| - 1];
      Visits(events[..|events| - 1]) + (if e.Visit? then [e.now] else [])
  }

  function End(start: int, events: seq<Event>): int {
    if events == [] then start else events[|events| - 1].now
  }

  /** The clock, at `start` when the detector was made, never goes back. */
  ghost predicate Ordered(start: int, events: seq<Event>) {
    if events == [] then true
    else
      var e := events[|events| - 1];
      var before := End(start, events[..|events| - 1]);
      && Ordered(start, events[..|events| - 1])
      && (if e.Visit? then before <= e.created <= e.now else before <= e.now)
  }

  /** Any two cleanups are more than `gap` apart. */
  ghost predicate Spaced(events: seq<Event>, gap: int) {
    forall i, j :: 0 <= i < j < |events| && events[i].Cleanup? && events[j].Cleanup? ==>
      events[j].now - events[i].now > gap
  }

  /**
   Where the accesses of a run have gone: `gone` are too old to matter, `lost`
   went with the latest deletion of the ring, `current` is what the ring has seen.
   */
  datatype Account = Account(gone: seq<int>, lost: seq<int>, deletedAt: int, current: seq<int>, log: Log)

  ghost predicate Old(s: seq<int>, now: int, age: int) {
    forall i :: 0 <= i < |s| ==> now - s[i] > age
  }

  ghost predicate UpTo(s: seq<int>, time: int) {
    forall i :: 0 <= i < |s| ==> s[i] <= time
  }

  ghost predicate Accounts(cfg: Config, st: KeyState, a: Account, history: seq<int>, now: int)
    requires cfg.Valid()
  {
    && history == a.gone + a.lost + a.current
    && Old(a.gone, now, cfg.SureAge())
    && |a.lost| <= cfg.Slack()
    && UpTo(a.lost, a.deletedAt)
    && UpTo(history, now)
    && (if st.ring.Some? then
          && st.ring.value.last <= now
          && |st.ring.value.counters| == cfg.slots
          && Explains(st.ring.value, cfg.Interval(), a.log, a.current)
        else a.current == [])
  }

  lemma VisitAccounted(cfg: Config, st: KeyState, a: Account, history: seq<int>, now: int, e: Event) returns (a': Account)
    requires cfg.Valid() && st.Valid(cfg) && e.Visit?
    requires Accounts(cfg, st, a, history, now) && now <= e.created <= e.now
    ensures Accounts(cfg, KeyStep(cfg, st, e), a', history + [e.now], e.now)
    ensures a'.deletedAt == a.deletedAt && a'.lost == a.lost && a'.current != []
    ensures 0 <= e.now - KeyStep(cfg, st, e).ring.value.last < cfg.Interval()
  {
    var log: Log;
    if st.ring.Some? {
      log := AccessExplained(st.ring.value, cfg.Interval(), a.log, a.current, e.now);
    } else {
      log := NewRingExplained(cfg.slots, cfg.Interval(), e.created);
      log := AccessExplained(NewRing(cfg.slots, e.created), cfg.Interval(), log, [], e.now);
    }
    a' := a.(current := a.current + [e.now], log := log);
    assert a.gone + a.lost + (a.current + [e.now]) == history + [e.now];
  }

  /** A cleanup that forgets the ring loses few accesses, and those lost before are old by now. */
  lemma DeletionAccounted(cfg: Config, st: KeyState, a: Account, history: seq<int>, now: int, e: Event) returns (a': Account)
    requires cfg.Valid() && st.Valid(cfg) && e.Cleanup?
    requires Accounts(cfg, st, a, history, now) && now <= e.now
    requires a.lost == [] || e.now - a.deletedAt > cfg.SureAge()
    requires st.ring.Some? && Sum(st.ring.value.counters) <= cfg.Quiet()
    ensures Accounts(cfg, KeyStep(cfg, st, e), a', history, e.now)
    ensures a'.deletedAt == e.now
  {
    var kept := Kept(a.log.buckets);
    SumIsKept(st.ring.value, a.log);
    a' := Account(a.gone + a.lost + a.log.dropped, kept, e.now, [], a.log);
    assert a.gone + a.lost + (a.log.dropped + kept) == a'.gone + a'.lost + a'.current;
    forall i | 0 <= i < |a'.gone|
      ensures e.now - a'.gone[i] > cfg.SureAge()
    {
      if i >= |a.gone| + |a.lost| {
        var d := a.log.dropped[i - |a.gone| - |a.lost|];
        assert a'.gone[i] == d;
        assert Outlived(st.ring.value.last - d, cfg.slots - 1, cfg.Interval());
      }
    }
    forall i | 0 <= i < |kept|
      ensures kept[i] <= e.now
    {
      assert kept[i] == history[|a'.gone| + i];
    }
  }

  lemma StepAccounted(cfg: Config, st: KeyState, a: Account, history: seq<int>, now: int, e: Event) returns (a': Account)
    requires cfg.Valid() && st.Valid(cfg) && Accounts(cfg, st, a, history, now)
    requires if e.Visit? then now <= e.created <= e.now else now <= e.now
    requires e.Cleanup? ==> a.lost == [] || e.now - a.deletedAt > cfg.SureAge()
    ensures Accounts(cfg, KeyStep(cfg, st, e), a', history + (if e.Visit? then [e.now] else []), e.now)
    ensures (a'.lost == a.lost && a'.deletedAt == a.deletedAt) || (e.Cleanup? && a'.deletedAt == e.now)
    ensures e.Visit? ==> 0 <= e.now - KeyStep(cfg, st, e).ring.value.last < cfg.Interval()
  {
    if e.Visit? {
      a' := VisitAccounted(cfg, st, a, history, now, e);
    } else {
      assert history + [] == history;
      if st.ring.Some? && Sum(st.ring.value.counters) <= cfg.Quiet() {
        a' := DeletionAccounted(cfg, st, a, history, now, e);
      } else {
        a' := a;
      }
    }
  }

  ghost predicate CleanedAt(events: seq<Event>, time: int) {
    exists i :: 0 <= i < |events| && events[i].Cleanup? && events[i].now == time
  }

  lemma CleanedBefore(events: seq<Event>, time: int, e: Event, gap: int)
    requires CleanedAt(events, time) && Spaced(events + [e], gap)
    ensures CleanedAt(events + [e], time)
    ensures e.Cleanup? ==> e.now - time > gap
  {
    var i :| 0 <= i < |events| && events[i].Cleanup? && events[i].now == time;
    assert (events + [e])[i].Cleanup?;
    assert (events + [e])[|events|] == e;
  }

  lemma {:induction false} RunAccounted(cfg: Config, start: int, events: seq<Event>) returns (a: Account)
    requires cfg.Valid() && Ordered(start, events) && Spaced(events, cfg.SureAge())
    ensures Accounts(cfg, KeyRun(cfg, Unknown, events), a, Visits(events), End(start, events))
    ensures a.lost == [] || CleanedAt(events, a.deletedAt)
    ensures events != [] && events[|events| - 1].Visit? ==>
              0 <= End(start, events) - KeyRun(cfg, Unknown, events).ring.value.last < cfg.Interval()
  {
    if events == [] {
      a := Account([], [], start, [], Log([], []));
    } else {
      var front, e := events[..|events| - 1], events[|events| - 1];
      assert events == front + [e];
      var before := RunAccounted(cfg, start, front);
      if before.lost != [] {
        CleanedBefore(front, before.deletedAt, e, cfg.SureAge());
      }
      a := StepAccounted(cfg, KeyRun(cfg, Unknown, front), before, Visits(front), End(start, front), e);
      if e.Cleanup? && a.deletedAt == e.now {
        assert events[|front|] == e;
      }
    }
  }

  /** At most one deletion is recent enough to matter. */
  lemma RecentAccounted(cfg: Config, st: KeyState, a: Account, history: seq<int>, now: int)
    requires cfg.Valid() && st.ring.Some? && Accounts(cfg, st, a, history, now)
    requires 0 <= now - st.ring.value.last < cfg.Interval()
    ensures Recent(history, now, cfg.SureAge()) <= cfg.Slack() + Sum(st.ring.value.counters)
  {
    SumBounds(st.ring.value, cfg.Interval(), a.log, a.current, now);
    var age := cfg.SureAge();
    RecentConcat(a.gone + a.lost, a.current, now, age);
    RecentConcat(a.gone, a.lost, now, age);
    RecentNone(a.gone, now, age);
    RecentAtMost(a.lost, now, age);
  }

  /** What the latest call of `RecordAccess` in a run returned. */
  function Reported(cfg: Config, events: seq<Event>): bool
    requires cfg.Valid() && events != [] && events[|events| - 1].Visit?
  {
    var e := events[|events| - 1];
    Sum(VisitedRing(cfg, KeyRun(cfg, Unknown, events[..|events| - 1]), e.created, e.now).counters) > cfg.threshold
  }

  /** The latest call returned what the key's ring then adds up to. */
  lemma ReportedExactly(cfg: Config, events: seq<Event>)
    requires cfg.Valid() && events != [] && events[|events| - 1].Visit?
    ensures KeyRun(cfg, Unknown, events).ring.Some?
    ensures Reported(cfg, events) <==> Sum(KeyRun(cfg, Unknown, events).ring.value.counters) > cfg.threshold
  {
  }

  /**
   If cleanups are spaced by more than the sure age, a key with more than
   threshold + threshold/10 accesses that young is always reported hot.
   */
  lemma BusyKeyIsReported(cfg: Config, start: int, events: seq<Event>)
    requires cfg.Valid() && Ordered(start, events)
    requires events != [] && events[|events| - 1].Visit?
    ensures var age := (cfg.slots - 1) * (cfg.windowSize / cfg.slots);
            && Spaced(events, age)
            && Recent(Visits(events), End(start, events), age)
                 > cfg.threshold + (if cfg.threshold > 0 then cfg.threshold / 10 else 0)
            ==> Reported(cfg, events) && KeyRun(cfg, Unknown, events).hot
  {
    if Spaced(events, cfg.SureAge()) {
      var a := RunAccounted(cfg, start, events);
      RecentAccounted(cfg, KeyRun(cfg, Unknown, events), a, Visits(events), End(start, events));
    }
  }

  // ---------------------------------------------------------------------
  // The mark.
  // ---------------------------------------------------------------------

  /** Event i is a visit that reported the key, and the ring it met is still there. */
  ghost predicate ReportedSince(cfg: Config, events: seq<Event>, i: nat)
    requires cfg.Valid()
  {
    && i < |events| && events[i].Visit? && Reported(cfg, events[..i + 1])
    && forall j :: i < j <= |events| ==> KeyRun(cfg, Unknown, events[..j]).ring.Some?
  }

  lemma ReportedBefore(cfg: Config, front: seq<Event>, e: Event, i: nat)
    requires cfg.Valid() && i < |front|
    ensures ReportedSince(cfg, front + [e], i) <==>
              ReportedSince(cfg, front, i) && KeyRun(cfg, Unknown, front + [e]).ring.Some?
  {
    var events := front + [e];
    assert forall j :: 0 <= j <= |front| ==> events[..j] == front[..j];
    assert events[..|events|] == events;
  }

  /** A key is marked hot exactly when some visit since its ring was made reported it. */
  lemma {:induction false} MarkedExactly(cfg: Config, events: seq<Event>)
    requires cfg.Valid()
    ensures KeyRun(cfg, Unknown, events).hot <==> exists i :: ReportedSince(cfg, events, i)
  {
    if events != [] {
      var n := |events| - 1;
      var front, e := events[..n], events[n];
      assert events == front + [e];
      MarkedExactly(cfg, front);
      forall i: nat | i < n
        ensures ReportedSince(cfg, events, i) <==> ReportedSince(cfg, front, i) && KeyRun(cfg, Unknown, events).ring.Some?
      {
        ReportedBefore(cfg, front, e, i);
      }
      assert events[..n + 1] == events;
      assert ReportedSince(cfg, events, n) <==> e.Visit? && Reported(cfg, events);
    }
  }

  /** The ring of a key has seen the accesses since it was made, whatever the cleanups. */
  lemma {:induction false} RingExplained(cfg: Config, start: int, events: seq<Event>)
    returns (past: seq<int>, current: seq<int>, log: Log)
    requires cfg.Valid() && Ordered(start, events)
    ensures Visits(events) == past + current
    ensures var ring := KeyRun(cfg, Unknown, events).ring;
            ring.Some? ==> ring.value.last <= End(start, events) && Explains(ring.value, cfg.Interval(), log, current)
    ensures events != [] && events[|events| - 1].Visit? ==>
              var st := KeyRun(cfg, Unknown, events);
              && st.ring.Some?
              && 0 <= End(start, events) - st.ring.value.last < cfg.Interval()
  {
    if events == [] {
      past, current, log := [], [], Log([], []);
    } else {
      var front, e := events[..|events| - 1], events[|events| - 1];
      past, current, log := RingExplained(cfg, start, front);
      var ring := KeyRun(cfg, Unknown, front).ring;
      if e.Visit? {
        if ring.None? {
          past, current := past + current, [];
          log := NewRingExplained(cfg.slots, cfg.Interval(), e.created);
        }
        var r := if ring.Some? then ring.value else NewRing(cfg.slots, e.created);
        log := AccessExplained(r, cfg.Interval(), log, current, e.now);
        current := current + [e.now];
        assert Visits(events) == past + current;
      }
    }
  }

  /** A key reported hot really had more than `threshold` accesses no older than the maximal age. */
  lemma ReportedAtMaxAge(cfg: Config, start: int, events: seq<Event>)
    requires cfg.Valid() && Ordered(start, events)
    requires events != [] && events[|events| - 1].Visit?
    requires Reported(cfg, events)
    ensures Recent(Visits(events), End(start, events), cfg.MaxAge()) > cfg.threshold
  {
    var past, current, log := RingExplained(cfg, start, events);
    SumBounds(KeyRun(cfg, Unknown, events).ring.value, cfg.Interval(), log, current, End(start, events));
    RecentConcat(past, current, End(start, events), cfg.MaxAge());
  }

  lemma SlotsFit(windowSize: int, slots: nat)
    requires slots > 0
    ensures slots * (windowSize / slots) <= windowSize
  {
  }

  lemma MaxAgeBound(cfg: Config)
    requires cfg.Valid()
    ensures cfg.MaxAge() == (2 * cfg.slots - 1) * (cfg.windowSize / cfg.slots) - cfg.slots < 2 * cfg.windowSize
    ensures cfg.SureAge() == (cfg.slots - 1) * (cfg.windowSize / cfg.slots) < cfg.windowSize
  {
    var n, i := cfg.slots, cfg.windowSize / cfg.slots;
    SlotsFit(cfg.windowSize, n);
    Distribute(n, n - 1, i);
    Distribute(n - 1, 1, i);
  }

  /**
   A key reported hot really had more than `threshold` accesses that young,
   and so in less than two windows.
   */
  lemma ReportedKeyIsBusy(cfg: Config, start: int, events: seq<Event>)
    requires cfg.Valid() && Ordered(start, events)
    requires events != [] && events[|events| - 1].Visit?
    requires Reported(cfg, events)
    ensures Recent(Visits(events), End(start, events), (2 * cfg.slots - 1) * (cfg.windowSize / cfg.slots) - cfg.slots) > cfg.threshold
    ensures Recent(Visits(events), End(start, events), 2 * cfg.windowSize - 1) > cfg.threshold
  {
    ReportedAtMaxAge(cfg, start, events);
    MaxAgeBound(cfg);
    RecentMonotone(Visits(events), End(start, events), cfg.MaxAge(), 2 * cfg.windowSize - 1);
  }

  /**
   A cleanup sums the slots without advancing the ring, so time alone never
   ages a key out: however many cleanups pass without an access, the key is
   forgotten if and only if its last sum was already at or below a tenth of
   the threshold.
   */
  lemma {:induction false} IdleKeyKept(cfg: Config, st: KeyState, cleanups: seq<Event>)
    requires cfg.Valid() && st.Valid(cfg) && st.ring.Some?
    requires cleanups != [] && forall i :: 0 <= i < |cleanups| ==> cleanups[i].Cleanup?
    ensures KeyRun(cfg, st, cleanups) == st <==>
              10 * Sum(st.ring.value.counters) > cfg.threshold + (if cfg.threshold < 0 then 9 else 0)
    ensures KeyRun(cfg, st, cleanups) == Unknown <==>
              10 * Sum(st.ring.value.counters) <= cfg.threshold + (if cfg.threshold < 0 then 9 else 0)
  {
    QuietExactly(cfg, Sum(st.ring.value.counters));
    var front := cleanups[..|cleanups| - 1];
    if front == [] {
      assert KeyRun(cfg, st, front) == st;
    } else {
      IdleKeyKept(cfg, st, front);
    }
  }
}
