/**
 The Redis lock: SETNX with an expiry to take it, compare-and-delete to give
 it back. One key is modelled. Every call of `Lock` makes a token of its own,
 so an attempt and its token are the same thing; the tokens of the program are
 a timestamp and random digits and are taken to be unique.
*/
module DistributedLocks {
  import opened Options

  /** An expiry of None never comes: a time to live of zero means no expiry. */
  datatype Entry = Entry(token: nat, expires: Option<int>)

  predicate Live(entry: Option<Entry>, now: int) {
    entry.Some? && (entry.value.expires.None? || now < entry.value.expires.value)
  }

  function Expiry(ttl: nat, now: int): Option<int> {
    if ttl == 0 then None else Some(now + ttl)
  }

  function AfterSetNX(entry: Option<Entry>, token: nat, ttl: nat, now: int): Option<Entry> {
    if Live(entry, now) then entry else Some(Entry(token, Expiry(ttl, now)))
  }

  function AfterCompareAndDelete(entry: Option<Entry>, token: nat, now: int): Option<Entry> {
    if Live(entry, now) && entry.value.token == token then None else entry
  }

  class RedisKey {
    var entry: Option<Entry>

    constructor ()
      ensures entry == None
    {
      entry := None;
    }

    method SetNX(token: nat, ttl: nat, now: int) returns (ok: bool)
      modifies this
      ensures ok <==> old(entry.None? || (entry.value.expires.Some? && entry.value.expires.value <= now))
      ensures ok ==> entry == Some(Entry(token, if ttl == 0 then None else Some(now + ttl)))
      ensures !ok ==> entry == old(entry)
      ensures entry == AfterSetNX(old(entry), token, ttl, now)
    {
      if entry.Some? && (entry.value.expires.None? || now < entry.value.expires.value) {
        return false;
      }
      entry := Some(Entry(token, if ttl == 0 then None else Some(now + ttl)));
      return true;
    }

    method CompareAndDelete(token: nat, now: int)
      modifies this
      ensures old(entry.Some? && entry.value.token == token && (entry.value.expires.None? || now < entry.value.expires.value)) ==>
                entry == None
      ensures old(entry.Some? && entry.value.token != token) ==> entry == old(entry)
      ensures entry == AfterCompareAndDelete(old(entry), token, now)
    {
      if Live(entry, now) && entry.value.token == token {
        entry := None;
      }
    }

    /** While we sleep anybody else may take, lose or give back the lock, but not in our name. */
    method Others(token: nat)
      modifies this
      ensures entry == old(entry) || entry.None? || entry.value.token != token
    {
      var steps: nat := *;
      while steps > 0
        invariant entry == old(entry) || entry.None? || entry.value.token != token
      {
        var other: nat, ttl: nat, now: int := *, *, *;
        if other != token {
          var took := SetNX(other, ttl, now);
          if * {
            CompareAndDelete(other, now);
          }
        }
        steps := steps - 1;
      }
    }

    /**
     `polls` are the clock readings of the retry loop, the last of them past
     the deadline. The lock is taken at the first poll that finds it free;
     giving up needs a zero wait or a poll past the deadline, at which somebody
     else held it.
     */
    method Lock(token: nat, ttl: nat, waitTimeout: int, polls: seq<int>) returns (ok: bool, at: nat)
      requires entry.None? || entry.value.token != token
      requires polls != [] && (waitTimeout == 0 || polls[|polls| - 1] > polls[0] + waitTimeout)
      modifies this
      ensures at < |polls|
      ensures ok ==> entry == Some(Entry(token, if ttl == 0 then None else Some(polls[at] + ttl)))
      ensures old(entry.None? || (entry.value.expires.Some? && entry.value.expires.value <= polls[0])) ==> ok && at == 0
      ensures !ok ==> Live(entry, polls[at]) && entry.value.token != token
      ensures !ok ==> waitTimeout == 0 || polls[at] > polls[0] + waitTimeout
      ensures forall i :: 0 <= i < at ==> waitTimeout != 0 && polls[i] <= polls[0] + waitTimeout
    {
      var deadline := polls[0] + waitTimeout;
      at := 0;
      while true
        invariant at < |polls|
        invariant at == 0 ==> entry == old(entry)
        invariant at > 0 ==> Live(old(entry), polls[0])
        invariant entry.None? || entry.value.token != token
        invariant forall i :: 0 <= i < at ==> waitTimeout != 0 && polls[i] <= deadline
        decreases |polls| - at
      {
        ok := SetNX(token, ttl, polls[at]);
        if ok {
          return;
        }
        if waitTimeout == 0 || polls[at] > deadline {
          return;
        }
        Others(token);
        at := at + 1;
      }
    }
  }

  // ---------------------------------------------------------------------
  // All clients together.
  // ---------------------------------------------------------------------

  /** One call of Lock and what follows it. */
  datatype Attempt =
    | Waiting(ttl: nat, waitTimeout: int, deadline: int)
    | Holding(ttl: nat, since: int)
    | Released
    | TimedOut

  datatype World = World(now: int, entry: Option<Entry>, attempts: map<nat, Attempt>)

  datatype Action =
    | Begin(id: nat, ttl: nat, waitTimeout: int, now: int)
    | Try(id: nat, now: int)
    /** The unlock request may fail to reach Redis; the client goes on all the same. */
    | Unlock(id: nat, reaches: bool, now: int)
    /** Redis drops an expired entry. */
    | Sweep(now: int)

  predicate Enabled(w: World, a: Action) {
    && w.now <= a.now
    && match a
       case Begin(id, _, _, _) => id !in w.attempts
       case Try(id, _) => id in w.attempts && w.attempts[id].Waiting?
       case Unlock(id, _, _) => id in w.attempts && w.attempts[id].Holding?
       case Sweep(now) => !Live(w.entry, now)
  }

  /**
   `compare` says whether giving the lock back compares the token first, as
   this lock does, or deletes the key whoever holds it, as the hot-key load
   lock of the cache does.
   */
  function Act(compare: bool, w: World, a: Action): (w': World)
    requires Enabled(w, a)
    ensures w'.now == a.now
  {
    match a
    case Begin(id, ttl, waitTimeout, now) =>
      w.(now := now, attempts := w.attempts[id := Waiting(ttl, waitTimeout, now + waitTimeout)])
    case Try(id, now) =>
      var x := w.attempts[id];
      if !Live(w.entry, now) then
        w.(now := now, entry := AfterSetNX(w.entry, id, x.ttl, now), attempts := w.attempts[id := Holding(x.ttl, now)])
      else if x.waitTimeout == 0 || now > x.deadline then
        w.(now := now, attempts := w.attempts[id := TimedOut])
      else w.(now := now)
    case Unlock(id, reaches, now) =>
      w.(now := now,
         entry := if !reaches then w.entry else if compare then AfterCompareAndDelete(w.entry, id, now) else None,
         attempts := w.attempts[id := Released])
    case Sweep(now) => w.(now := now, entry := None)
  }

  ghost predicate IsRun(compare: bool, worlds: seq<World>, actions: seq<Action>) {
    && |worlds| == |actions| + 1
    && worlds[0].entry == None && worlds[0].attempts == map[]
    && forall i :: 0 <= i < |actions| ==> Enabled(worlds[i], actions[i]) && worlds[i + 1] == Act(compare, worlds[i], actions[i])
  }

  predicate Holds(w: World, id: nat) {
    id in w.attempts && w.attempts[id].Holding?
  }

  /** The time to live of a holder has not run out. */
  predicate Leased(w: World, id: nat) {
    Holds(w, id) && (w.attempts[id].ttl == 0 || w.now < w.attempts[id].since + w.attempts[id].ttl)
  }

  /** The first of two holders had lost its lease when the second came. */
  predicate Succeeded(first: Attempt, second: Attempt) {
    first.Holding? && second.Holding? && first.ttl > 0 && first.since + first.ttl <= second.since
  }

  ghost predicate Sound(w: World) {
    && (forall id :: Holds(w, id) ==> w.attempts[id].since <= w.now)
    && (forall id :: Leased(w, id) ==> w.entry == Some(Entry(id, Expiry(w.attempts[id].ttl, w.attempts[id].since))))
    && (forall i, j :: Holds(w, i) && Holds(w, j) && i != j ==>
         Succeeded(w.attempts[i], w.attempts[j]) || Succeeded(w.attempts[j], w.attempts[i]))
  }

  lemma TrySound(w: World, a: Action)
    requires Enabled(w, a) && Sound(w) && a.Try?
    ensures Sound(Act(true, w, a))
  {
    var w' := Act(true, w, a);
    if !Live(w.entry, a.now) {
      // Whoever still holds the lock has no lease any more.
      forall i | Holds(w, i)
        ensures Succeeded(w.attempts[i], w'.attempts[a.id])
      {
        if Leased(w, i) {
          assert w.entry.value.expires == Expiry(w.attempts[i].ttl, w.attempts[i].since);
        }
      }
    }
  }

  lemma ActSound(w: World, a: Action)
    requires Enabled(w, a) && Sound(w)
    ensures Sound(Act(true, w, a))
  {
    if a.Try? {
      TrySound(w, a);
    } else {
      var w' := Act(true, w, a);
      assert forall i :: Holds(w', i) ==> Holds(w, i) && w'.attempts[i] == w.attempts[i];
      assert forall i :: Leased(w', i) ==> Leased(w, i);
    }
  }

  lemma {:induction false} AlwaysSound(worlds: seq<World>, actions: seq<Action>, k: nat)
    requires IsRun(true, worlds, actions) && k < |worlds|
    ensures Sound(worlds[k])
  {
    if k > 0 {
      AlwaysSound(worlds, actions, k - 1);
      ActSound(worlds[k - 1], actions[k - 1]);
      assert worlds[k - 1 + 1] == worlds[k];
    }
  }

  /**
   In every reachable state, two attempts both believe they hold the lock only
   if the lease of one of them had run out before the other got it.
   */
  lemma MutualExclusion(worlds: seq<World>, actions: seq<Action>, k: nat, i: nat, j: nat)
    requires IsRun(true, worlds, actions) && k < |worlds| && i != j
    requires Holds(worlds[k], i) && Holds(worlds[k], j)
    requires worlds[k].attempts[i].since <= worlds[k].attempts[j].since
    ensures worlds[k].attempts[i].ttl > 0
    ensures worlds[k].attempts[i].since + worlds[k].attempts[i].ttl <= worlds[k].attempts[j].since <= worlds[k].now
  {
    AlwaysSound(worlds, actions, k);
  }

  /** Nobody's unlock, however late, takes away a lock that another attempt still has a lease on. */
  lemma LateUnlockHarmless(worlds: seq<World>, actions: seq<Action>, k: nat, id: nat)
    requires IsRun(true, worlds, actions) && k < |actions| && actions[k].Unlock?
    requires Leased(worlds[k], id) && id != actions[k].id
    ensures worlds[k + 1].entry == worlds[k].entry == Some(Entry(id, Expiry(worlds[k].attempts[id].ttl, worlds[k].attempts[id].since)))
    ensures worlds[k + 1].attempts[id] == worlds[k].attempts[id]
  {
    AlwaysSound(worlds, actions, k);
  }

  // ---------------------------------------------------------------------
  // The lock is given back and taken again.
  // ---------------------------------------------------------------------

  /** An attempt gets the lock exactly when the key has no entry or an expired one; it gives up when it may not wait on. */
  lemma TryExactly(compare: bool, worlds: seq<World>, actions: seq<Action>, k: nat)
    requires IsRun(compare, worlds, actions) && k < |actions| && actions[k].Try?
    ensures var x, entry, now := worlds[k].attempts[actions[k].id], worlds[k].entry, actions[k].now;
            var free := entry.None? || (entry.value.expires.Some? && entry.value.expires.value <= now);
            var y := worlds[k + 1].attempts[actions[k].id];
            && x.Waiting?
            && (free <==> y == Holding(x.ttl, now))
            && (!free && (x.waitTimeout == 0 || now > x.deadline) <==> y == TimedOut)
            && (free ==> worlds[k + 1].entry == Some(Entry(actions[k].id, if x.ttl == 0 then None else Some(now + x.ttl))))
            && (!free ==> worlds[k + 1].entry == entry)
  {
    assert worlds[k + 1] == Act(compare, worlds[k], actions[k]);
  }

  /** An attempt may try until `waitTimeout` after it began. */
  lemma BeginExactly(compare: bool, worlds: seq<World>, actions: seq<Action>, k: nat)
    requires IsRun(compare, worlds, actions) && k < |actions| && actions[k].Begin?
    ensures var a := actions[k];
            worlds[k + 1].attempts == worlds[k].attempts[a.id := Waiting(a.ttl, a.waitTimeout, a.now + a.waitTimeout)]
  {
    assert worlds[k + 1] == Act(compare, worlds[k], actions[k]);
  }

  /** A holder whose unlock reaches Redis within its lease frees the key. */
  lemma UnlockFrees(worlds: seq<World>, actions: seq<Action>, k: nat, id: nat)
    requires IsRun(true, worlds, actions) && k < |actions|
    requires actions[k].Unlock? && actions[k].id == id && actions[k].reaches
    requires var x := worlds[k].attempts[id];
             x.ttl == 0 || actions[k].now < x.since + x.ttl
    ensures worlds[k + 1].entry == None && worlds[k + 1].attempts[id] == Released
  {
    AlwaysSound(worlds, actions, k);
    assert Leased(worlds[k], id);
    assert worlds[k + 1] == Act(true, worlds[k], actions[k]);
  }

  lemma {:induction false} StaysFree(compare: bool, worlds: seq<World>, actions: seq<Action>, k: nat, m: nat)
    requires IsRun(compare, worlds, actions) && k <= m < |worlds| && worlds[k].entry == None
    requires forall i :: k <= i < m ==> !actions[i].Try?
    ensures worlds[m].entry == None
  {
    if k < m {
      StaysFree(compare, worlds, actions, k, m - 1);
      assert worlds[m - 1 + 1] == Act(compare, worlds[m - 1], actions[m - 1]);
    }
  }

  /** After such an unlock the next attempt that tries, whichever it is, gets the lock. */
  lemma NextTryAfterUnlock(worlds: seq<World>, actions: seq<Action>, k: nat, id: nat, m: nat)
    requires IsRun(true, worlds, actions) && k < m < |actions|
    requires actions[k].Unlock? && actions[k].id == id && actions[k].reaches
    requires var x := worlds[k].attempts[id];
             x.ttl == 0 || actions[k].now < x.since + x.ttl
    requires actions[m].Try? && forall i :: k < i < m ==> !actions[i].Try?
    ensures Holds(worlds[m + 1], actions[m].id)
  {
    UnlockFrees(worlds, actions, k, id);
    StaysFree(true, worlds, actions, k + 1, m);
    TryExactly(true, worlds, actions, m);
  }

  /** Bodies under the lock that end before their lease does never overlap. */
  lemma BodiesNeverOverlap(worlds: seq<World>, actions: seq<Action>, k: nat, i: nat, j: nat)
    requires IsRun(true, worlds, actions) && k < |worlds|
    requires forall id :: Holds(worlds[k], id) ==> Leased(worlds[k], id)
    requires Holds(worlds[k], i) && Holds(worlds[k], j)
    ensures i == j
  {
    AlwaysSound(worlds, actions, k);
  }

  lemma Extend(compare: bool, worlds: seq<World>, actions: seq<Action>, a: Action, next: World)
    returns (worlds': seq<World>, actions': seq<Action>)
    requires IsRun(compare, worlds, actions) && Enabled(worlds[|actions|], a) && next == Act(compare, worlds[|actions|], a)
    ensures IsRun(compare, worlds', actions') && worlds'[|actions'|] == next
  {
    worlds', actions' := worlds + [next], actions + [a];
  }

  /**
   A holder that outlives its lease can meet a second one: the lock taken at 0
   is taken again by another attempt when the lease ends, while the first body
   still runs.
   */
  lemma OverrunMeetsSecondHolder(compare: bool, i: nat, j: nat, ttl: nat) returns (worlds: seq<World>, actions: seq<Action>)
    requires i != j && ttl > 0
    ensures IsRun(compare, worlds, actions)
    ensures worlds[|actions|] ==
              World(ttl, Some(Entry(j, Some(ttl + ttl))), map[i := Holding(ttl, 0), j := Holding(ttl, ttl)])
  {
    var w0 := World(0, None, map[]);
    var w1 := Act(compare, w0, Begin(i, ttl, 0, 0));
    var w2 := Act(compare, w1, Try(i, 0));
    var w3 := Act(compare, w2, Begin(j, ttl, 0, ttl));
    worlds, actions := Extend(compare, [w0], [], Begin(i, ttl, 0, 0), w1);
    worlds, actions := Extend(compare, worlds, actions, Try(i, 0), w2);
    worlds, actions := Extend(compare, worlds, actions, Begin(j, ttl, 0, ttl), w3);
    worlds, actions := Extend(compare, worlds, actions, Try(j, ttl), Act(compare, w3, Try(j, ttl)));
  }

  /** Two attempts never both have a lease. */
  ghost predicate LeasesExclusive(compare: bool) {
    forall worlds, actions, k: nat, i: nat, j: nat ::
      IsRun(compare, worlds, actions) && k < |worlds| && Leased(worlds[k], i) && Leased(worlds[k], j) ==> i == j
  }

  /** Deleting without comparing lets the late first holder take the lock away from the second, and a third get it. */
  lemma PlainDeleteBreaks(i: nat, j: nat, k: nat, ttl: nat) returns (worlds: seq<World>, actions: seq<Action>)
    requires i != j && j != k && i != k && ttl > 0
    ensures IsRun(false, worlds, actions)
    ensures Leased(worlds[|actions|], j) && Leased(worlds[|actions|], k)
  {
    worlds, actions := OverrunMeetsSecondHolder(false, i, j, ttl);
    var w1 := Act(false, worlds[|actions|], Unlock(i, true, ttl));
    worlds, actions := Extend(false, worlds, actions, Unlock(i, true, ttl), w1);
    var w2 := Act(false, w1, Begin(k, ttl, 0, ttl));
    worlds, actions := Extend(false, worlds, actions, Begin(k, ttl, 0, ttl), w2);
    worlds, actions := Extend(false, worlds, actions, Try(k, ttl), Act(false, w2, Try(k, ttl)));
  }

  /** Leases exclude each other exactly because unlocking compares the token. */
  lemma ComparingIsNeeded(compare: bool)
    ensures LeasesExclusive(compare) <==> compare
  {
    if compare {
      forall worlds, actions, k: nat, i: nat, j: nat
        | IsRun(compare, worlds, actions) && k < |worlds| && Leased(worlds[k], i) && Leased(worlds[k], j)
        ensures i == j
      {
        AlwaysSound(worlds, actions, k);
      }
    } else {
      var worlds, actions := PlainDeleteBreaks(0, 1, 2, 1);
      assert IsRun(compare, worlds, actions);
      assert Leased(worlds[|actions|], 1) && Leased(worlds[|actions|], 2);
    }
  }
}
