/**
 Delayed double delete on one cache key of one pod.

 Readers, writers, evictions and the two timed deletes of every write are
 steps that interleave freely. A value is the number of the write that
 produced it; `db` is the number of the latest write. A cache layer is stale
 with respect to a write when it holds a smaller number.

 The main result, `SafeExactly`, says on which conditions no layer is ever
 stale with respect to a write whose second delete pass has finished;
 `L2SafeExactly` says the same for L2 alone, where fewer conditions do.
*/
module DoubleDelete {
  import opened Options

  /**
   `l2First`: both delete passes clear L2 before L1.
   `atomicBackfill`: an L2 hit and the L1 fill it causes are one step.
   `boundedFills`: every fill comes less than `delay` after the read it comes from.
   `firstSure`, `secondSure`: Redis never refuses the L2 delete of that pass;
   a refusal goes unnoticed.
   */
  datatype Protocol = Protocol(
    delay: int, l2First: bool, atomicBackfill: bool, boundedFills: bool, firstSure: bool, secondSure: bool)

  /** A value in the hands of a goroutine that may still put it in a cache. */
  datatype Held =
    | FromDB(version: nat, readAt: int)
    | FromL2(version: nat, readAt: int)

  /** A write: `deletes` of its four deletes are done; `pausedAt` is when the first two were. */
  datatype Write = Write(version: nat, at: int, deletes: nat, pausedAt: int)

  datatype Pod = Pod(
    now: int,
    db: nat,
    l1: Option<nat>,
    l2: Option<nat>,
    held: map<nat, Held>,
    writes: map<nat, Write>)

  datatype Action =
    | EvictL1(now: int)
    | EvictL2(now: int)
    | LoadDB(reader: nat, now: int)
    | FillL1(reader: nat, now: int)
    | FillL2(reader: nat, now: int)
    | HitL2(now: int)
    | ReadL2(reader: nat, now: int)
    | WriteDB(writer: nat, now: int)
    | Warm(writer: nat, reader: nat, now: int)
    | Delete(writer: nat, now: int)
    | Refused(writer: nat, now: int)

  const Empty := Pod(0, 0, None, None, map[], map[])

  predicate MayFill(p: Protocol, h: Held, now: int) {
    p.boundedFills ==> now - h.readAt < p.delay
  }

  /** The next delete of a write; the third waits for the delay. */
  predicate Due(p: Protocol, s: Pod, w: nat, now: int) {
    w in s.writes && s.writes[w].deletes < 4 && (s.writes[w].deletes == 2 ==> now >= s.writes[w].pausedAt + p.delay)
  }

  /** Deletes 0 and 2 clear the first layer of a pass, 1 and 3 the second. */
  predicate ClearsL2(p: Protocol, deletes: nat) {
    (deletes % 2 == 0) == p.l2First
  }

  predicate MayRefuse(p: Protocol, deletes: nat) {
    ClearsL2(p, deletes) && !(if deletes < 2 then p.firstSure else p.secondSure)
  }

  predicate Enabled(p: Protocol, s: Pod, a: Action) {
    && s.now <= a.now
    && match a
       case FillL1(r, now) => r in s.held && MayFill(p, s.held[r], now)
       case FillL2(r, now) => r in s.held && s.held[r].FromDB? && MayFill(p, s.held[r], now)
       case HitL2(_) => s.l2.Some?
       case ReadL2(r, _) => s.l2.Some? && !p.atomicBackfill && r !in s.held
       case LoadDB(r, _) => r !in s.held
       case WriteDB(w, _) => w !in s.writes
       case Warm(w, r, _) => w in s.writes && r !in s.held
       case Delete(w, now) => Due(p, s, w, now)
       case Refused(w, now) => Due(p, s, w, now) && MayRefuse(p, s.writes[w].deletes)
       case _ => true
  }

  function Ticked(s: Pod, w: nat, now: int): Pod
    requires w in s.writes
  {
    var x := s.writes[w];
    s.(writes := s.writes[w := x.(deletes := x.deletes + 1, pausedAt := if x.deletes == 1 then now else x.pausedAt)], now := now)
  }

  function Act(p: Protocol, s: Pod, a: Action): (s': Pod)
    requires Enabled(p, s, a)
    ensures s'.now == a.now
  {
    match a
    case EvictL1(now) => s.(l1 := None, now := now)
    case EvictL2(now) => s.(l2 := None, now := now)
    case LoadDB(r, now) => s.(held := s.held[r := FromDB(s.db, now)], now := now)
    case FillL1(r, now) => s.(l1 := Some(s.held[r].version), now := now)
    case FillL2(r, now) => s.(l2 := Some(s.held[r].version), now := now)
    case HitL2(now) => s.(l1 := s.l2, now := now)
    case ReadL2(r, now) => s.(held := s.held[r := FromL2(s.l2.value, now)], now := now)
    case WriteDB(w, now) => s.(db := s.db + 1, writes := s.writes[w := Write(s.db + 1, now, 0, now)], now := now)
    case Warm(w, r, now) => s.(held := s.held[r := FromDB(s.writes[w].version, s.writes[w].at)], now := now)
    case Delete(w, now) =>
      if ClearsL2(p, s.writes[w].deletes) then Ticked(s, w, now).(l2 := None) else Ticked(s, w, now).(l1 := None)
    case Refused(w, now) => Ticked(s, w, now)
  }

  /** The actions can be played one after another from the empty pod. */
  predicate CanPlay(p: Protocol, actions: seq<Action>)
    decreases |actions|, 0
  {
    actions == [] ||
      var front := actions[..|actions| - 1];
      CanPlay(p, front) && Enabled(p, Play(p, front), actions[|actions| - 1])
  }

  function Play(p: Protocol, actions: seq<Action>): Pod
    requires CanPlay(p, actions)
    decreases |actions|, 1
  {
    if actions == [] then Empty
    else Act(p, Play(p, actions[..|actions| - 1]), actions[|actions| - 1])
  }

  predicate NotOlder(layer: Option<nat>, version: nat) {
    layer.None? || layer.value >= version
  }

  /** L2 is not stale with respect to a write that has finished its second pass. */
  ghost predicate FreshL2(s: Pod) {
    forall w :: w in s.writes && s.writes[w].deletes == 4 ==> NotOlder(s.l2, s.writes[w].version)
  }

  /** Nor is L1. */
  ghost predicate Fresh(s: Pod) {
    FreshL2(s) && forall w :: w in s.writes && s.writes[w].deletes == 4 ==> NotOlder(s.l1, s.writes[w].version)
  }

  ghost predicate Safe(p: Protocol) {
    forall actions :: CanPlay(p, actions) ==> Fresh(Play(p, actions))
  }

  ghost predicate SafeL2(p: Protocol) {
    forall actions :: CanPlay(p, actions) ==> FreshL2(Play(p, actions))
  }

  // ---------------------------------------------------------------------
  // Why it works.
  // ---------------------------------------------------------------------

  /** Later values are written no earlier. */
  ghost predicate WritesClocked(s: Pod) {
    && (forall w :: w in s.writes ==> s.writes[w].version <= s.db && s.writes[w].at <= s.now)
    && (forall v, w :: v in s.writes && w in s.writes && s.writes[v].version < s.writes[w].version ==>
         s.writes[v].at <= s.writes[w].at)
  }

  /** A value older than a write was loaded no later than that write. */
  ghost predicate LoadsClocked(s: Pod) {
    && (forall r :: r in s.held && s.held[r].FromDB? ==> s.held[r].readAt <= s.now)
    && (forall r, w :: r in s.held && s.held[r].FromDB? && w in s.writes && s.held[r].version < s.writes[w].version ==>
         s.held[r].readAt <= s.writes[w].at)
  }

  ghost predicate Clocked(s: Pod) {
    WritesClocked(s) && LoadsClocked(s)
  }

  ghost predicate OnlyLoads(s: Pod) {
    forall r :: r in s.held ==> s.held[r].FromDB?
  }

  /** The second pass has cleared L2. */
  predicate PastL2(p: Protocol, x: Write) {
    x.deletes >= if p.l2First then 3 else 4
  }

  /** What each write's deletes have achieved in L2 so far. */
  ghost predicate ClearedL2(p: Protocol, s: Pod) {
    forall w :: w in s.writes ==>
      var x := s.writes[w];
      && x.at <= x.pausedAt
      && (x.deletes >= 3 ==> x.pausedAt + p.delay <= s.now)
      && (PastL2(p, x) ==> NotOlder(s.l2, x.version))
  }

  ghost predicate ClearedL1(s: Pod) {
    forall w :: w in s.writes && s.writes[w].deletes >= 4 ==> NotOlder(s.l1, s.writes[w].version)
  }

  lemma NewWriteClocked(s: Pod, w: nat, now: int)
    requires WritesClocked(s) && s.now <= now && w !in s.writes
    ensures WritesClocked(s.(db := s.db + 1, writes := s.writes[w := Write(s.db + 1, now, 0, now)], now := now))
  {
  }

  lemma TickedClocked(s: Pod, w: nat, now: int)
    requires WritesClocked(s) && s.now <= now && w in s.writes
    ensures WritesClocked(Ticked(s, w, now))
  {
    var s' := Ticked(s, w, now);
    assert forall v :: v in s'.writes ==>
      v in s.writes && s'.writes[v].version == s.writes[v].version && s'.writes[v].at == s.writes[v].at;
  }

  lemma ActWritesClocked(p: Protocol, s: Pod, a: Action)
    requires Enabled(p, s, a) && WritesClocked(s)
    ensures WritesClocked(Act(p, s, a))
  {
    if a.WriteDB? {
      NewWriteClocked(s, a.writer, a.now);
    } else if a.Delete? || a.Refused? {
      TickedClocked(s, a.writer, a.now);
    } else {
      assert Act(p, s, a).writes == s.writes;
    }
  }

  lemma ActLoadsClocked(p: Protocol, s: Pod, a: Action)
    requires Enabled(p, s, a) && Clocked(s)
    ensures LoadsClocked(Act(p, s, a))
  {
    var s' := Act(p, s, a);
    forall r, w | r in s'.held && s'.held[r].FromDB? && w in s'.writes && s'.held[r].version < s'.writes[w].version
      ensures s'.held[r].readAt <= s'.writes[w].at
    {
    }
  }

  lemma ActOnlyLoads(p: Protocol, s: Pod, a: Action)
    requires Enabled(p, s, a) && p.atomicBackfill && OnlyLoads(s)
    ensures OnlyLoads(Act(p, s, a))
  {
  }

  /** A load older than a write cannot fill a layer any more once that write's second pass has begun. */
  lemma FillIsRecent(p: Protocol, s: Pod, r: nat, w: nat, now: int)
    requires p.boundedFills && Clocked(s) && ClearedL2(p, s) && s.now <= now
    requires r in s.held && s.held[r].FromDB? && MayFill(p, s.held[r], now)
    requires w in s.writes && s.writes[w].deletes >= 3
    ensures s.held[r].version >= s.writes[w].version
  {
  }

  lemma ActClearedL2(p: Protocol, s: Pod, a: Action)
    requires Enabled(p, s, a) && p.boundedFills && p.secondSure
    requires Clocked(s) && ClearedL2(p, s)
    ensures ClearedL2(p, Act(p, s, a))
  {
    if a.FillL2? {
      forall w | w in s.writes && s.writes[w].deletes >= 3
        ensures s.held[a.reader].version >= s.writes[w].version
      {
        FillIsRecent(p, s, a.reader, w, a.now);
      }
    }
  }

  lemma ActClearedL1(p: Protocol, s: Pod, a: Action)
    requires Enabled(p, s, a) && p.l2First && p.atomicBackfill && p.boundedFills
    requires Clocked(s) && OnlyLoads(s) && ClearedL2(p, s) && ClearedL1(s)
    ensures ClearedL1(Act(p, s, a))
  {
    if a.FillL1? {
      forall w | w in s.writes && s.writes[w].deletes >= 3
        ensures s.held[a.reader].version >= s.writes[w].version
      {
        FillIsRecent(p, s, a.reader, w, a.now);
      }
    }
  }

  /** The clocks are right in every run, whatever the protocol. */
  lemma {:induction false} PlayClocked(p: Protocol, actions: seq<Action>)
    requires CanPlay(p, actions)
    ensures Clocked(Play(p, actions))
  {
    if actions != [] {
      var front, a := actions[..|actions| - 1], actions[|actions| - 1];
      PlayClocked(p, front);
      ActWritesClocked(p, Play(p, front), a);
      ActLoadsClocked(p, Play(p, front), a);
    }
  }

  lemma {:induction false} PlayClearedL2(p: Protocol, actions: seq<Action>)
    requires p.boundedFills && p.secondSure && CanPlay(p, actions)
    ensures ClearedL2(p, Play(p, actions))
  {
    if actions != [] {
      var front, a := actions[..|actions| - 1], actions[|actions| - 1];
      PlayClearedL2(p, front);
      PlayClocked(p, front);
      ActClearedL2(p, Play(p, front), a);
    }
  }

  lemma {:induction false} PlayClearedL1(p: Protocol, actions: seq<Action>)
    requires p.l2First && p.atomicBackfill && p.boundedFills && p.secondSure && CanPlay(p, actions)
    ensures OnlyLoads(Play(p, actions)) && ClearedL1(Play(p, actions))
  {
    if actions != [] {
      var front, a := actions[..|actions| - 1], actions[|actions| - 1];
      PlayClearedL1(p, front);
      PlayClearedL2(p, front);
      PlayClocked(p, front);
      ActOnlyLoads(p, Play(p, front), a);
      ActClearedL1(p, Play(p, front), a);
    }
  }

  /** Timely fills and a second L2 delete that is never refused keep L2 fresh, in whatever order and however L1 is filled. */
  lemma L2IsSafe(p: Protocol)
    requires p.boundedFills && p.secondSure
    ensures SafeL2(p)
  {
    forall actions | CanPlay(p, actions)
      ensures FreshL2(Play(p, actions))
    {
      PlayClearedL2(p, actions);
    }
  }

  /**
   Whatever the interleaving, once the second delete pass of a write has
   finished neither layer holds, or will ever hold, a value older than that write.
   */
  lemma DoubleDeleteIsSafe(p: Protocol)
    requires p.l2First && p.atomicBackfill && p.boundedFills && p.secondSure
    ensures Safe(p)
  {
    forall actions | CanPlay(p, actions)
      ensures Fresh(Play(p, actions))
    {
      PlayClearedL2(p, actions);
      PlayClearedL1(p, actions);
    }
  }

  // ---------------------------------------------------------------------
  // Why each condition is needed.
  // ---------------------------------------------------------------------

  lemma Extend(p: Protocol, actions: seq<Action>, a: Action)
    requires CanPlay(p, actions) && Enabled(p, Play(p, actions), a)
    ensures CanPlay(p, actions + [a]) && Play(p, actions + [a]) == Act(p, Play(p, actions), a)
  {
    assert (actions + [a])[..|actions|] == actions;
  }

  /** A reader loads value 0, then write 1 comes and finishes its first delete pass. */
  lemma StaleReaderSurvivesFirstPass(p: Protocol) returns (actions: seq<Action>)
    ensures CanPlay(p, actions)
    ensures Play(p, actions) == Pod(0, 1, None, None, map[0 := FromDB(0, 0)], map[0 := Write(1, 0, 2, 0)])
  {
    actions := [];
    Extend(p, actions, LoadDB(0, 0));
    actions := actions + [LoadDB(0, 0)];
    Extend(p, actions, WriteDB(0, 0));
    actions := actions + [WriteDB(0, 0)];
    Extend(p, actions, Delete(0, 0));
    actions := actions + [Delete(0, 0)];
    Extend(p, actions, Delete(0, 0));
    actions := actions + [Delete(0, 0)];
  }

  /** One delete pass is not enough, whatever its order: the reader fills L2 with the old value afterwards. */
  lemma SinglePassLeavesStale(p: Protocol) returns (actions: seq<Action>)
    requires p.delay >= 1
    ensures CanPlay(p, actions)
    ensures Play(p, actions) == Pod(0, 1, None, Some(0), map[0 := FromDB(0, 0)], map[0 := Write(1, 0, 2, 0)])
    ensures !NotOlder(Play(p, actions).l2, 1)
  {
    actions := StaleReaderSurvivesFirstPass(p);
    Extend(p, actions, FillL2(0, 0));
    actions := actions + [FillL2(0, 0)];
  }

  lemma LateFillBreaks(p: Protocol)
    requires p.delay >= 1 && !p.boundedFills
    ensures !SafeL2(p)
  {
    var actions := StaleReaderSurvivesFirstPass(p);
    Extend(p, actions, Delete(0, p.delay));
    actions := actions + [Delete(0, p.delay)];
    Extend(p, actions, Delete(0, p.delay));
    actions := actions + [Delete(0, p.delay)];
    Extend(p, actions, FillL2(0, p.delay));
    actions := actions + [FillL2(0, p.delay)];
    assert !NotOlder(Play(p, actions).l2, Play(p, actions).writes[0].version);
  }

  /** The L2 delete of the second pass is refused. */
  lemma LostDeleteBreaks(p: Protocol)
    requires p.delay >= 1 && !p.secondSure
    ensures !SafeL2(p)
  {
    var actions := SinglePassLeavesStale(p);
    var first, second := Refused(0, p.delay), Delete(0, p.delay);
    if !p.l2First {
      first, second := second, first;
    }
    Extend(p, actions, first);
    actions := actions + [first];
    Extend(p, actions, second);
    actions := actions + [second];
    assert !NotOlder(Play(p, actions).l2, Play(p, actions).writes[0].version);
  }

  lemma L1FirstBreaks(p: Protocol)
    requires p.delay >= 1 && !p.l2First
    ensures !Safe(p)
  {
    var actions := SinglePassLeavesStale(p);
    Extend(p, actions, Delete(0, p.delay));
    actions := actions + [Delete(0, p.delay)];
    Extend(p, actions, HitL2(p.delay));
    actions := actions + [HitL2(p.delay)];
    Extend(p, actions, Delete(0, p.delay));
    actions := actions + [Delete(0, p.delay)];
    assert !NotOlder(Play(p, actions).l1, Play(p, actions).writes[0].version);
  }

  /** A second reader takes the old value out of L2 just before the second pass clears it. */
  lemma OldValueReadFromL2(p: Protocol) returns (actions: seq<Action>)
    requires p.delay >= 1 && !p.atomicBackfill
    ensures CanPlay(p, actions)
    ensures Play(p, actions) ==
      Pod(p.delay, 1, None, Some(0), map[0 := FromDB(0, 0), 1 := FromL2(0, p.delay)], map[0 := Write(1, 0, 2, 0)])
  {
    actions := SinglePassLeavesStale(p);
    Extend(p, actions, ReadL2(1, p.delay));
    actions := actions + [ReadL2(1, p.delay)];
  }

  /** No bound on the time a backfill takes would help: here it takes none. */
  lemma SplitBackfillBreaks(p: Protocol)
    requires p.delay >= 1 && !p.atomicBackfill
    ensures !Safe(p)
  {
    var actions := OldValueReadFromL2(p);
    Extend(p, actions, Delete(0, p.delay));
    actions := actions + [Delete(0, p.delay)];
    Extend(p, actions, Delete(0, p.delay));
    actions := actions + [Delete(0, p.delay)];
    Extend(p, actions, FillL1(1, p.delay));
    actions := actions + [FillL1(1, p.delay)];
    assert !NotOlder(Play(p, actions).l1, Play(p, actions).writes[0].version);
  }

  lemma SafeL2First(p: Protocol)
    requires Safe(p)
    ensures SafeL2(p)
  {
    forall actions | CanPlay(p, actions)
      ensures FreshL2(Play(p, actions))
    {
      assert Fresh(Play(p, actions));
    }
  }

  /** L2 alone stays fresh exactly when fills are timely and the second L2 delete is never refused. */
  lemma L2SafeExactly(p: Protocol)
    requires p.delay >= 1
    ensures SafeL2(p) <==> p.boundedFills && p.secondSure
  {
    if !p.boundedFills {
      LateFillBreaks(p);
    } else if !p.secondSure {
      LostDeleteBreaks(p);
    } else {
      L2IsSafe(p);
    }
  }

  /** These four conditions are exactly what delayed double delete needs; the first pass may lose its L2 delete. */
  lemma SafeExactly(p: Protocol)
    requires p.delay >= 1
    ensures Safe(p) <==> p.l2First && p.atomicBackfill && p.boundedFills && p.secondSure
  {
    if Safe(p) {
      SafeL2First(p);
    }
    L2SafeExactly(p);
    if !p.l2First {
      L1FirstBreaks(p);
    } else if !p.atomicBackfill {
      SplitBackfillBreaks(p);
    } else if p.boundedFills && p.secondSure {
      DoubleDeleteIsSafe(p);
    }
  }

  // ---------------------------------------------------------------------
  // The deletes as the program issues them. `ran` is the run so far.
  // ---------------------------------------------------------------------

  ghost predicate Leads(p: Protocol, actions: seq<Action>, s: Pod) {
    CanPlay(p, actions) && Play(p, actions) == s
  }

  lemma LeadsOn(p: Protocol, actions: seq<Action>, s: Pod, a: Action)
    requires Leads(p, actions, s) && Enabled(p, s, a)
    ensures Leads(p, actions + [a], Act(p, s, a))
  {
    Extend(p, actions, a);
  }

  class CachedKey {
    const p: Protocol
    var now: int
    var db: nat
    var l1: Option<nat>
    var l2: Option<nat>
    var held: map<nat, Held>
    var writes: map<nat, Write>
    ghost var ran: seq<Action>

    function Model(): Pod
      reads this
    {
      Pod(now, db, l1, l2, held, writes)
    }

    /** The fields are what the run so far makes of the empty pod. */
    ghost predicate Valid()
      reads this
    {
      Leads(p, ran, Model())
    }

    constructor (p: Protocol)
      ensures Valid() && this.p == p && ran == []
    {
      this.p := p;
      now, db, l1, l2, held, writes := 0, 0, None, None, map[], map[];
      ran := [];
    }

    method Become(s: Pod)
      modifies this
      ensures Model() == s && ran == old(ran)
    {
      now, db, l1, l2, held, writes := s.now, s.db, s.l1, s.l2, s.held, s.writes;
    }

    method Perform(a: Action)
      requires Valid() && Enabled(p, Model(), a)
      modifies this
      ensures Valid() && Model() == Act(p, old(Model()), a) && ran == old(ran) + [a]
    {
      LeadsOn(p, ran, Model(), a);
      var s := Act(p, Model(), a);
      Become(s);
      ran := ran + [a];
    }

    /** Anything other goroutines do until `t`. */
    method Others(w: nat, t: int)
      requires Valid() && w in writes && now <= t
      modifies this
      ensures Valid() && old(ran) <= ran && now <= t && w in writes && writes[w] == old(writes[w])
    {
      var more: nat := *;
      while more > 0
        invariant Valid() && old(ran) <= ran && now <= t && w in writes && writes[w] == old(writes[w])
      {
        var a: Action := *;
        if a.now <= t && Enabled(p, Model(), a) && !((a.Delete? || a.Refused? || a.WriteDB?) && a.writer == w) {
          Perform(a);
        }
        more := more - 1;
      }
    }

    /** The L2 half of a pass; an error of Redis is not looked at. */
    method DelL2(w: nat, t: int)
      requires Valid() && now <= t && Due(p, Model(), w, t) && ClearsL2(p, writes[w].deletes)
      modifies this
      ensures Valid() && old(ran) <= ran && writes == Ticked(old(Model()), w, t).writes && now == t
      ensures old(!MayRefuse(p, writes[w].deletes)) ==> l2 == None
    {
      var refused: bool := *;
      if refused && MayRefuse(p, writes[w].deletes) {
        Perform(Refused(w, t));
      } else {
        Perform(Delete(w, t));
      }
    }

    method DelL1(w: nat, t: int)
      requires Valid() && now <= t && Due(p, Model(), w, t) && !ClearsL2(p, writes[w].deletes)
      modifies this
      ensures Valid() && old(ran) <= ran && writes == Ticked(old(Model()), w, t).writes && now == t
      ensures l1 == None
    {
      Perform(Delete(w, t));
    }

    /** One pass of the double delete: L2, then L1. */
    method DeletePass(w: nat, t1: int, t2: int)
      requires Valid() && p.l2First && now <= t1 <= t2
      requires Due(p, Model(), w, t1) && writes[w].deletes % 2 == 0
      modifies this
      ensures Valid() && old(ran) <= ran && now == t2 && l1 == None
      ensures w in writes && writes[w].deletes == old(writes[w].deletes) + 2 && writes[w].version == old(writes[w].version)
      ensures old(writes[w].deletes) == 0 ==> writes[w].pausedAt == t2
    {
      DelL2(w, t1);
      Others(w, t2);
      DelL1(w, t2);
    }

    /** The plain invalidation: L1, then L2, and no second pass. */
    method Invalidate(w: nat, t1: int, t2: int)
      requires Valid() && !p.l2First && now <= t1 <= t2
      requires Due(p, Model(), w, t1) && writes[w].deletes == 0
      modifies this
      ensures Valid() && old(ran) <= ran && now == t2
      ensures p.firstSure ==> l2 == None
      ensures w in writes && writes[w].deletes == 2 && writes[w].version == old(writes[w].version)
    {
      DelL1(w, t1);
      Others(w, t2);
      DelL2(w, t2);
    }

    /**
     Both passes of a write: at t1 and t2, and, no less than the delay later,
     at t3 and t4.
     */
    method InvalidateWithDelay(w: nat, t1: int, t2: int, t3: int, t4: int)
      requires Valid() && p.l2First && now <= t1 <= t2 <= t3 <= t4 && t2 + p.delay <= t3
      requires w in writes && writes[w].deletes == 0
      modifies this
      ensures Valid() && old(ran) <= ran && now == t4
      ensures w in writes && writes[w].deletes == 4 && writes[w].version == old(writes[w].version)
      ensures l1 == None && (p.boundedFills && p.secondSure ==> NotOlder(l2, old(writes[w].version)))
    {
      DeletePass(w, t1, t2);
      Others(w, t3);
      DeletePass(w, t3, t4);
      if p.boundedFills && p.secondSure {
        PlayClearedL2(p, ran);
      }
    }

    /**
     A profile is written to the database and both passes follow; at any time
     `later` what the layers hold is no older.
     */
    method UpsertProfile(w: nat, t: int, t1: int, t2: int, t3: int, t4: int, later: int)
      requires Valid() && p.l2First && now <= t <= t1 <= t2 <= t3 <= t4 <= later && t2 + p.delay <= t3
      requires w !in writes
      modifies this
      ensures Valid() && old(ran) <= ran && w in writes && writes[w].version == old(db) + 1
      ensures p.boundedFills && p.secondSure ==> NotOlder(l2, old(db) + 1)
      ensures p.boundedFills && p.secondSure && p.atomicBackfill ==> NotOlder(l1, old(db) + 1)
    {
      Perform(WriteDB(w, t));
      Others(w, t1);
      InvalidateWithDelay(w, t1, t2, t3, t4);
      Others(w, later);
      if p.boundedFills && p.secondSure {
        PlayClearedL2(p, ran);
        if p.atomicBackfill {
          PlayClearedL1(p, ran);
        }
      }
    }
  }
}
