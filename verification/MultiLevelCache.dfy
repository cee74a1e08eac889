/**
 Reading an order through the two-level cache.

 L1 is the local cache, L2 is Redis (which also holds the load locks), and the
 database does not change while the reads below run. Between any two steps of
 a call, `Disturb` lets everything else happen: entries expire or are evicted,
 other readers fill, lock and unlock. Whether a key is hot, whether somebody
 else holds its lock and whether Redis answers are all left open.

 JSON is a pair of functions handed in with the promise (`Faithful`) that for
 every order in the database decoding its parsed encoding gives it back.
*/
module MultiLevelCaches {
  import opened Options

  datatype Order = Order(
    id: nat, userId: nat, orderNo: string, amount: real, status: string, createdAt: int, updatedAt: int)

  const NullMarker := "__NULL__"
  const LockPrefix := "cache:lock:"
  const OrderPrefix := "order:"

  /** What L1 holds: a typed order, the generic object a JSON text parses to, a plain string, or nil. */
  datatype Value = Nil | Typed(order: Order) | Object(text: string) | Text(text: string)

  /** `parse` is what an L2 text becomes: generic JSON, or the text itself when it is not JSON. */
  datatype Codec = Codec(marshal: Order -> string, parse: string -> Value, decode: string -> Order)

  ghost predicate Survives(c: Codec, o: Order) {
    c.marshal(o) != NullMarker && c.parse(c.marshal(o)).Object? && c.decode(c.parse(c.marshal(o)).text) == o
  }

  ghost predicate Faithful(c: Codec, db: map<string, Order>) {
    forall k :: k in db ==> Survives(c, db[k])
  }

  /** The promise can be kept for every database: here a text is a brace and the number of an order stored under it. */
  lemma FaithfulCodecExists(db: map<string, Order>) returns (c: Codec)
    ensures Faithful(c, db)
  {
    var nobody := Order(0, 0, "", 0.0, "", 0, 0);
    c := Codec(
      o => if exists k :: k in db && db[k] == o then var k :| k in db && db[k] == o; "{" + k else "",
      s => if s != "" && s[0] == '{' then Object(s[1..]) else Text(s),
      t => if t in db then db[t] else nobody);
    forall k | k in db
      ensures Survives(c, db[k])
    {
      var text := c.marshal(db[k]);
      assert text != "" && text[0] == '{' && text[1..] in db && db[text[1..]] == db[k];
    }
  }

  predicate IsOrderKey(key: string) {
    OrderPrefix <= key
  }

  function OrderKey(orderNo: string): string {
    OrderPrefix + orderNo
  }

  /** The database route of the loader: any other key has no data. */
  function Loaded(db: map<string, Order>, key: string): Option<Order> {
    if |key| > |OrderPrefix| && IsOrderKey(key) && key[|OrderPrefix|..] in db then Some(db[key[|OrderPrefix|..]]) else None
  }

  datatype Answer = Found(order: Order) | NotFound | Failed

  /** The answer of the database asked directly. */
  function Direct(db: map<string, Order>, orderNo: string): Answer {
    if orderNo in db then Found(db[orderNo]) else NotFound
  }

  /** The result of a cache read: a value with the found flag, or an error. */
  datatype Read = Got(value: Value, found: bool) | Error

  function Interpreted(c: Codec, v: Value): Option<Order> {
    match v
    case Typed(o) => Some(o)
    case Object(t) => Some(c.decode(t))
    case _ => None
  }

  /** An L1 value tells the truth about what the database has. */
  ghost predicate TrueL1(c: Codec, v: Value, data: Option<Order>) {
    if data.None? then v == Text(NullMarker) else Interpreted(c, v) == data
  }

  ghost predicate TrueL2(c: Codec, text: string, data: Option<Order>) {
    text == if data.None? then NullMarker else c.marshal(data.value)
  }

  /** What a read may answer. */
  ghost predicate TrueRead(c: Codec, r: Read, data: Option<Order>) {
    match r
    case Got(v, true) => if data.None? then v == Nil else Interpreted(c, v) == data
    case Got(v, false) => v == Nil
    case Error => true
  }

  /** A truthful L2 text stays truthful when it is copied to L1 or handed to the caller. */
  lemma L2HitIsTrue(c: Codec, text: string, data: Option<Order>)
    requires (data.Some? ==> Survives(c, data.value)) && TrueL2(c, text, data)
    ensures text == NullMarker <==> data.None?
    ensures text != NullMarker ==> TrueL1(c, c.parse(text), data) && TrueRead(c, Got(c.parse(text), true), data)
  {
  }

  lemma OrderKeyLoads(db: map<string, Order>, orderNo: string)
    requires "" !in db
    ensures Direct(db, orderNo) ==
              (if Loaded(db, OrderKey(orderNo)).Some? then Found(Loaded(db, OrderKey(orderNo)).value) else NotFound)
  {
    assert OrderKey(orderNo)[..|OrderPrefix|] == OrderPrefix;
    assert OrderKey(orderNo)[|OrderPrefix|..] == orderNo;
  }

  lemma LockKeyIsNoOrderKey(key: string)
    ensures !IsOrderKey(LockPrefix + key)
  {
    assert (LockPrefix + key)[..|OrderPrefix|][0] == 'c';
  }

  datatype Counter = Asked | L1Hit | L2Hit | Missed

  /** How many reads began, and how many of them were counted as what. */
  datatype Counts = Counts(asked: nat, l1: nat, l2: nat, missed: nat) {
    ghost predicate Valid() {
      l1 + l2 + missed <= asked
    }

    function Plus(what: Counter): Counts {
      match what
      case Asked => this.(asked := asked + 1)
      case L1Hit => this.(l1 := l1 + 1)
      case L2Hit => this.(l2 := l2 + 1)
      case Missed => this.(missed := missed + 1)
    }

    /** No read is under way. */
    predicate Settled() {
      asked == l1 + l2 + missed
    }

    /** One read, counted exactly once, and as a miss if it did not find anything. */
    ghost predicate OneMore(before: Counts, found: bool, hasL2: bool) {
      && asked == before.asked + 1
      && l1 + l2 + missed == before.l1 + before.l2 + before.missed + 1
      && l1 >= before.l1 && l2 >= before.l2 && missed >= before.missed
      && (!found ==> missed == before.missed + 1)
      && (!hasL2 ==> l2 == before.l2)
    }
  }

  /** What a caller gets to see of an L2 text. */
  function Shown(c: Codec, text: string): Value {
    if text == NullMarker then Nil else c.parse(text)
  }

  class MultiLevelCache {
    const codec: Codec
    const db: map<string, Order>
    const hasL2: bool
    const redisMayFail: bool
    // Nobody else runs and nothing expires, so what a call does can be said step by step.
    const alone: bool
    // The local cache may turn a new entry away.
    const l1MayDrop: bool

    var l1: map<string, Value>
    var l2: map<string, string>

    var l1Total: nat
    var l1Hits: nat
    var l2Hits: nat
    var misses: nat
    // The same counters, split between this caller's reads and all others.
    var ours: Counts
    var others: Counts

    /** Every cached order, absent ones included, agrees with the database; the counters are those of all reads together. */
    ghost predicate Valid()
      reads this
    {
      && Faithful(codec, db)
      && "" !in db
      && (forall k :: k in l1 ==> IsOrderKey(k) ==> TrueL1(codec, l1[k], Loaded(db, k)))
      && (forall k :: k in l2 ==> IsOrderKey(k) ==> TrueL2(codec, l2[k], Loaded(db, k)))
      && ours.Valid() && others.Valid()
      && l1Total == ours.asked + others.asked
      && l1Hits == ours.l1 + others.l1 && l2Hits == ours.l2 + others.l2 && misses == ours.missed + others.missed
    }

    constructor (codec: Codec, db: map<string, Order>, hasL2: bool, redisMayFail: bool, l1MayDrop: bool, alone: bool)
      requires Faithful(codec, db) && "" !in db
      ensures Valid() && this.db == db && this.codec == codec && this.hasL2 == hasL2
      ensures this.redisMayFail == redisMayFail && this.l1MayDrop == l1MayDrop && this.alone == alone
      ensures ours == Counts(0, 0, 0, 0) && l1 == map[] && l2 == map[]
    {
      this.codec, this.db, this.hasL2 := codec, db, hasL2;
      this.redisMayFail, this.l1MayDrop, this.alone := redisMayFail, l1MayDrop, alone;
      l1, l2 := map[], map[];
      l1Total, l1Hits, l2Hits, misses := 0, 0, 0, 0;
      ours, others := Counts(0, 0, 0, 0), Counts(0, 0, 0, 0);
    }

    /** Entries expire, are evicted, and locks come and go. */
    method OthersEvict()
      requires Valid()
      modifies this
      ensures Valid() && ours == old(ours)
    {
      var key: string := *;
      if {
        case true => l1 := l1 - {key};
        case true => l2 := l2 - {key};
        case true =>
          LockKeyIsNoOrderKey(key);
          l2 := l2[LockPrefix + key := "1"];
      }
    }

    /** Another reader fills a layer with what the database has. */
    method OthersFill()
      requires Valid()
      modifies this
      ensures Valid() && ours == old(ours)
    {
      var key: string := *;
      var data := Loaded(db, key);
      if {
        case data.None? => l1 := l1[key := Text(NullMarker)];
        case data.None? => l2 := l2[key := NullMarker];
        case data.Some? => l1 := l1[key := Typed(data.value)];
        case data.Some? => l1 := l1[key := codec.parse(codec.marshal(data.value))];
        case data.Some? => l2 := l2[key := codec.marshal(data.value)];
      }
    }

    /** Another read begins, or is counted as a hit or a miss. */
    method OthersCount()
      requires Valid()
      modifies this
      ensures Valid() && ours == old(ours)
    {
      if {
        case true => l1Total, others := l1Total + 1, others.(asked := others.asked + 1);
        case !others.Settled() => l1Hits, others := l1Hits + 1, others.(l1 := others.l1 + 1);
        case !others.Settled() => l2Hits, others := l2Hits + 1, others.(l2 := others.l2 + 1);
        case !others.Settled() => misses, others := misses + 1, others.(missed := others.missed + 1);
      }
    }

    /** Anything the rest of the system may do meanwhile. */
    method Disturb()
      requires Valid()
      modifies this
      ensures Valid() && ours == old(ours)
      ensures alone ==> l1 == old(l1) && l2 == old(l2) && others == old(others)
    {
      var steps: nat := *;
      while steps > 0 && !alone
        invariant Valid() && ours == old(ours)
        invariant alone ==> l1 == old(l1) && l2 == old(l2) && others == old(others)
      {
        if {
          case true => OthersEvict();
          case true => OthersFill();
          case true => OthersCount();
        }
        steps := steps - 1;
      }
    }

    /** A Redis call fails now and then, unless it is known not to. */
    method RedisFails() returns (failed: bool)
      ensures failed ==> redisMayFail
    {
      failed := *;
      failed := failed && redisMayFail;
    }

    method PutL2(key: string, text: string)
      requires Valid() && (IsOrderKey(key) ==> TrueL2(codec, text, Loaded(db, key)))
      modifies this
      ensures Valid() && ours == old(ours)
      ensures hasL2 && !redisMayFail ==> key in l2 && l2[key] == text
      ensures alone ==> l1 == old(l1) && others == old(others)
      ensures alone && !hasL2 ==> l2 == old(l2)
      ensures alone && hasL2 ==> l2 == old(l2)[key := text] || (redisMayFail && l2 == old(l2))
    {
      Disturb();
      var failed := RedisFails();
      if hasL2 && !failed {
        l2 := l2[key := text];
      }
    }

    /**
     The local cache may turn the entry away. Unless the caller waits, it also
     may not have taken it yet; it then does so in some later `OthersFill`.
     */
    method PutL1(key: string, value: Value, wait: bool)
      requires Valid() && (IsOrderKey(key) ==> TrueL1(codec, value, Loaded(db, key)))
      modifies this
      ensures Valid() && ours == old(ours)
      ensures wait && !l1MayDrop ==> key in l1 && l1[key] == value
      ensures alone ==> l2 == old(l2) && others == old(others)
      ensures alone ==> l1 == old(l1)[key := value] || ((l1MayDrop || !wait) && l1 == old(l1))
    {
      Disturb();
      var absent: bool := *;
      if absent && (l1MayDrop || !wait) {
        return;
      }
      l1 := l1[key := value];
    }

    /** Writes L1 before L2. */
    method Set(key: string, order: Order)
      requires Valid() && (IsOrderKey(key) ==> Loaded(db, key) == Some(order))
      modifies this
      ensures Valid() && ours == old(ours)
      ensures hasL2 && !redisMayFail ==> key in l2 && l2[key] == codec.marshal(order)
      ensures alone && !l1MayDrop ==> l1 == old(l1)[key := Typed(order)]
    {
      PutL1(key, Typed(order), true);
      PutL2(key, codec.marshal(order));
    }

    method SetNull(key: string)
      requires Valid() && (IsOrderKey(key) ==> Loaded(db, key) == None)
      modifies this
      ensures Valid() && ours == old(ours)
      ensures hasL2 && !redisMayFail ==> key in l2 && l2[key] == "__NULL__"
      ensures alone && !l1MayDrop ==> l1 == old(l1)[key := Text("__NULL__")]
    {
      PutL1(key, Text(NullMarker), true);
      PutL2(key, NullMarker);
    }

    method LoadFromDB(key: string) returns (r: Read)
      requires Valid()
      modifies this
      ensures Valid() && ours == old(ours) && r.Got? && r.found && TrueRead(codec, r, Loaded(db, key))
      ensures r.value != Nil && !l1MayDrop ==> key in l1 && l1[key] == r.value
      ensures alone ==> others == old(others) && l2 - {key} == old(l2) - {key} && l1 - {key} == old(l1) - {key}
      ensures r.value == (if Loaded(db, key).None? then Nil else Typed(Loaded(db, key).value))
      ensures alone && hasL2 && !redisMayFail ==>
        key in l2 && l2[key] == if Loaded(db, key).None? then "__NULL__" else codec.marshal(Loaded(db, key).value)
    {
      Disturb();
      var data := Loaded(db, key);
      if data == None {
        PutL2(key, NullMarker);
        PutL1(key, Text(NullMarker), false);
        return Got(Nil, true);
      }
      PutL2(key, codec.marshal(data.value));
      PutL1(key, Typed(data.value), true);
      return Got(Typed(data.value), true);
    }

    /** The text of `key` in L2; None when it is missing or Redis does not answer. */
    method GetL2(key: string) returns (text: Option<string>)
      requires Valid()
      modifies this
      ensures Valid() && ours == old(ours)
      ensures text.Some? && IsOrderKey(key) ==> TrueL2(codec, text.value, Loaded(db, key))
      ensures alone ==> l1 == old(l1) && l2 == old(l2) && others == old(others)
      ensures alone ==> text == (if key in l2 then Some(l2[key]) else None) || (redisMayFail && text == None)
    {
      Disturb();
      var failed := RedisFails();
      text := if key in l2 && !failed then Some(l2[key]) else None;
    }

    method LoadWithLock(key: string) returns (r: Read)
      requires Valid() && IsOrderKey(key)
      modifies this
      ensures Valid() && ours == old(ours) && TrueRead(codec, r, Loaded(db, key))
      ensures r.Error? ==> redisMayFail
      ensures r.Got? && !r.found ==> hasL2
      ensures alone ==> others == old(others)
      ensures alone && !redisMayFail && hasL2 && "cache:lock:" + key in old(l2) ==>
        && l1 == old(l1) && l2 == old(l2)
        && r == (if key in l2 then Got(Shown(codec, l2[key]), true) else Got(Nil, false))
      ensures alone && !redisMayFail && !(hasL2 && "cache:lock:" + key in old(l2)) ==>
        && r == Got(if Loaded(db, key).None? then Nil else Typed(Loaded(db, key).value), true)
        && (r.value != Nil && !l1MayDrop ==> key in l1 && l1[key] == r.value)
        && (hasL2 ==> "cache:lock:" + key !in l2)
    {
      if !hasL2 {
        r := LoadFromDB(key);
        return;
      }
      var lockKey := LockPrefix + key;
      LockKeyIsNoOrderKey(key);
      Disturb();
      var failed := RedisFails();
      if failed {
        return Error;
      }
      if lockKey !in l2 {
        l2 := l2[lockKey := "1"];
        r := LoadFromDB(key);
        DelL2(lockKey);
        return;
      }
      // Somebody else is loading: wait, then look at L2 once more.
      var text := GetL2(key);
      if text.Some? {
        L2HitIsTrue(codec, text.value, Loaded(db, key));
        return Got(Shown(codec, text.value), true);
      }
      return Got(Nil, false);
    }

    /** One of the atomic counters, for a read of ours. */
    method Count(what: Counter)
      requires Valid() && (what == Asked || !ours.Settled())
      modifies this
      ensures Valid() && ours == old(ours).Plus(what) && l1 == old(l1) && l2 == old(l2) && others == old(others)
      ensures l1Total == old(l1Total) + (if what == Asked then 1 else 0) && l1Hits == old(l1Hits) + (if what == L1Hit then 1 else 0)
      ensures l2Hits == old(l2Hits) + (if what == L2Hit then 1 else 0) && misses == old(misses) + (if what == Missed then 1 else 0)
    {
      ours := ours.Plus(what);
      match what
      case Asked => l1Total := l1Total + 1;
      case L1Hit => l1Hits := l1Hits + 1;
      case L2Hit => l2Hits := l2Hits + 1;
      case Missed => misses := misses + 1;
    }

    /** An L2 hit is copied to L1. */
    method Backfill(key: string, text: string) returns (r: Read)
      requires Valid() && IsOrderKey(key) && TrueL2(codec, text, Loaded(db, key))
      modifies this
      ensures Valid() && ours == old(ours) && r.Got? && r.found && TrueRead(codec, r, Loaded(db, key))
      ensures r.value != Nil && !l1MayDrop ==> key in l1 && l1[key] == r.value
      ensures r.value == Shown(codec, text)
      ensures alone ==> l2 == old(l2) && others == old(others)
      ensures alone && !l1MayDrop ==> l1 == old(l1)[key := if text == "__NULL__" then Text(text) else codec.parse(text)]
    {
      L2HitIsTrue(codec, text, Loaded(db, key));
      if text == NullMarker {
        PutL1(key, Text(NullMarker), true);
        return Got(Nil, true);
      }
      var parsed := codec.parse(text);
      PutL1(key, parsed, true);
      return Got(parsed, true);
    }

    method Get(key: string, hot: bool) returns (r: Read)
      requires Valid() && IsOrderKey(key)
      modifies this
      ensures Valid() && TrueRead(codec, r, Loaded(db, key))
      ensures ours.OneMore(old(ours), r.Got? && r.found, hasL2)
      ensures r.Error? ==> redisMayFail && hot
      ensures !hot ==> r.found && (r.value != Nil && !l1MayDrop ==> key in l1 && l1[key] == r.value)
      ensures r.Got? && !r.found ==> hot && hasL2
      ensures alone && key in old(l1) ==>
        && l1Hits == old(l1Hits) + 1 && l2Hits == old(l2Hits) && misses == old(misses)
        && r == Got(if old(l1)[key] == Text("__NULL__") then Nil else old(l1)[key], true)
        && l1 == old(l1) && l2 == old(l2)
      ensures alone && !redisMayFail && key !in old(l1) && hasL2 && key in old(l2) ==>
        && l2Hits == old(l2Hits) + 1 && l1Hits == old(l1Hits) && misses == old(misses)
        && r == Got(if old(l2)[key] == "__NULL__" then Nil else codec.parse(old(l2)[key]), true) && l2 == old(l2)
      ensures alone && key !in old(l1) && !(hasL2 && key in old(l2)) ==>
        misses == old(misses) + 1 && l1Hits == old(l1Hits) && l2Hits == old(l2Hits)
      ensures alone && !redisMayFail && key !in old(l1) && !(hasL2 && key in old(l2)) ==>
        r == if hot && hasL2 && "cache:lock:" + key in old(l2) then Got(Nil, false)
             else Got(if Loaded(db, key).None? then Nil else Typed(Loaded(db, key).value), true)
    {
      Count(Asked);
      Disturb();
      if key in l1 {
        var value := l1[key];
        Count(L1Hit);
        return Got(if value == Text(NullMarker) then Nil else value, true);
      }
      var hit := false;
      if hasL2 {
        hit, r := TryL2(key);
      }
      if !hit {
        r := LoadMissing(key, hot);
      }
    }

    /** A hit in L2 is counted and copied to L1. */
    method TryL2(key: string) returns (hit: bool, r: Read)
      requires Valid() && IsOrderKey(key) && !ours.Settled()
      modifies this
      ensures Valid() && (!hit ==> ours == old(ours))
      ensures hit ==> ours == old(ours).Plus(L2Hit) && r.Got? && r.found && TrueRead(codec, r, Loaded(db, key))
      ensures hit ==> (r.value != Nil && !l1MayDrop ==> key in l1 && l1[key] == r.value)
      ensures alone ==> l2 == old(l2) && others == old(others) && (!hit ==> l1 == old(l1))
      ensures alone && hit ==> key in l2 && r.value == if l2[key] == "__NULL__" then Nil else codec.parse(l2[key])
      ensures alone && !redisMayFail ==> hit == (key in l2)
    {
      var text := GetL2(key);
      hit, r := false, Error;
      if text.Some? {
        Count(L2Hit);
        r := Backfill(key, text.value);
        hit := true;
      }
    }

    /** A miss is counted, and the database asked, under a lock if the key is hot. */
    method LoadMissing(key: string, hot: bool) returns (r: Read)
      requires Valid() && IsOrderKey(key) && !ours.Settled()
      modifies this
      ensures Valid() && ours == old(ours).Plus(Missed) && TrueRead(codec, r, Loaded(db, key))
      ensures r.Error? ==> redisMayFail && hot
      ensures r.Got? && !r.found ==> hot && hasL2
      ensures !hot ==> r.value != Nil && !l1MayDrop ==> key in l1 && l1[key] == r.value
      ensures alone ==> others == old(others)
      ensures alone && !redisMayFail && !(hasL2 && key in old(l2)) ==>
        r == if hot && hasL2 && "cache:lock:" + key in old(l2) then Got(Nil, false)
             else Got(if Loaded(db, key).None? then Nil else Typed(Loaded(db, key).value), true)
    {
      Count(Missed);
      if hot {
        r := LoadWithLock(key);
      } else {
        r := LoadFromDB(key);
      }
    }

    /** The hits of both layers, the misses and all reads; they add up whenever no read is under way. */
    method Stats() returns (hits: nat, missed: nat, total: nat)
      requires Valid()
      ensures hits + missed <= total
      ensures ours.Settled() && others.Settled() ==> hits + missed == total
      ensures missed == misses && total == l1Total
    {
      hits, missed, total := l1Hits + l2Hits, misses, l1Total;
    }

    /** The database asked directly, filling the cache on the way. */
    method DbQuery(orderNo: string) returns (a: Answer)
      requires Valid()
      modifies this
      ensures Valid() && ours == old(ours) && a == Direct(db, orderNo)
      ensures hasL2 && !redisMayFail ==>
        "order:" + orderNo in l2 && l2["order:" + orderNo] == if orderNo in db then codec.marshal(db[orderNo]) else "__NULL__"
      ensures alone && !l1MayDrop ==>
        l1 == old(l1)["order:" + orderNo := if orderNo in db then Typed(db[orderNo]) else Text("__NULL__")]
    {
      OrderKeyLoads(db, orderNo);
      Disturb();
      if orderNo !in db {
        SetNull(OrderKey(orderNo));
        return NotFound;
      }
      var order := db[orderNo];
      Set(OrderKey(orderNo), order);
      return Found(order);
    }

    /**
     Reading through the cache gives exactly what the database asked directly
     gives, unless a Redis error on the lock of a hot key is passed on.
     */
    method GetOrder(orderNo: string, hot: bool) returns (a: Answer)
      requires Valid()
      modifies this
      ensures Valid() && ours.asked == old(ours).asked + 1 && (old(ours).Settled() ==> ours.Settled())
      ensures a == Direct(db, orderNo) || (redisMayFail && hot && a == Failed)
      ensures alone && "order:" + orderNo in old(l1) ==> l1 == old(l1) && l2 == old(l2)
      ensures alone && !redisMayFail && hasL2 && "order:" + orderNo !in old(l1) && "order:" + orderNo in old(l2) ==> l2 == old(l2)
    {
      OrderKeyLoads(db, orderNo);
      assert OrderKey(orderNo)[..|OrderPrefix|] == OrderPrefix;
      var r := Get(OrderKey(orderNo), hot);
      if r.Error? {
        return Failed;
      }
      if r.found && r.value != Nil {
        match r.value
        case Typed(order) => return Found(order);
        case Object(text) => return Found(codec.decode(text));
        case _ =>
      }
      if r.found && r.value == Nil {
        return NotFound;
      }
      a := DbQuery(orderNo);
    }

    /** Redis may refuse, and nobody looks. */
    method DelL2(key: string)
      requires Valid()
      modifies this
      ensures Valid() && ours == old(ours) && l1 == old(l1)
      ensures l2 == old(l2) - {key} || (redisMayFail && l2 == old(l2))
      ensures others == old(others)
    {
      var failed := RedisFails();
      if !failed {
        l2 := l2 - {key};
      }
    }

    /** One pass of the delayed double delete, if nobody else runs meanwhile. */
    method DeletePass(key: string)
      requires Valid()
      modifies this
      ensures Valid() && ours == old(ours) && l1 == old(l1) - {key}
      ensures l2 == (if hasL2 then old(l2) - {key} else old(l2)) || (redisMayFail && l2 == old(l2))
    {
      if hasL2 {
        DelL2(key);
      }
      l1 := l1 - {key};
    }

    /** The plain invalidation after an asynchronous write, if nobody else runs meanwhile. */
    method Invalidate(key: string)
      requires Valid()
      modifies this
      ensures Valid() && ours == old(ours) && l1 == old(l1) - {key}
      ensures l2 == (if hasL2 then old(l2) - {key} else old(l2)) || (redisMayFail && l2 == old(l2))
    {
      l1 := l1 - {key};
      if hasL2 {
        DelL2(key);
      }
    }
  }
}
