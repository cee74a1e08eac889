/**
 The orders table under INSERT .. ON DUPLICATE KEY UPDATE, keyed by the unique
 order number. A synchronous write and the Kafka event of the same order both
 end in this upsert, and events may be delivered again and in another order.
*/
module OrderStore {

  datatype Order = Order(orderNo: string, userId: nat, amount: real, status: string, createdAt: int, updatedAt: int)

  /** A row without its auto-increment id. */
  datatype Row = Row(userId: nat, amount: real, status: string, createdAt: int, updatedAt: int)

  type Table = map<string, Row>

  function NewRow(o: Order): Row {
    Row(o.userId, o.amount, o.status, o.createdAt, o.updatedAt)
  }

  /** An existing row keeps its user and creation time. */
  function Upserted(t: Table, o: Order): Table {
    if o.orderNo in t then t[o.orderNo := t[o.orderNo].(amount := o.amount, status := o.status, updatedAt := o.updatedAt)]
    else t[o.orderNo := NewRow(o)]
  }

  function Replayed(t: Table, writes: seq<Order>): Table {
    if writes == [] then t else Upserted(Replayed(t, writes[..|writes| - 1]), writes[|writes| - 1])
  }

  class Orders {
    var rows: Table

    constructor ()
      ensures rows == map[]
    {
      rows := map[];
    }

    method DbWrite(o: Order)
      modifies this
      ensures rows == Upserted(old(rows), o)
      ensures rows.Keys == old(rows).Keys + {o.orderNo} && forall no :: no in old(rows) && no != o.orderNo ==> rows[no] == old(rows)[no]
      ensures var row := rows[o.orderNo];
              && row.amount == o.amount && row.status == o.status && row.updatedAt == o.updatedAt
              && row.userId == (if o.orderNo in old(rows) then old(rows)[o.orderNo].userId else o.userId)
              && row.createdAt == (if o.orderNo in old(rows) then old(rows)[o.orderNo].createdAt else o.createdAt)
    {
      if o.orderNo in rows {
        var row := rows[o.orderNo];
        rows := rows[o.orderNo := Row(row.userId, o.amount, o.status, row.createdAt, o.updatedAt)];
      } else {
        rows := rows[o.orderNo := NewRow(o)];
      }
    }

    /** The writes of both channels, in the order in which they reach the database. */
    method DbWrites(writes: seq<Order>)
      modifies this
      ensures rows == Replayed(old(rows), writes)
    {
      var k := 0;
      while k < |writes|
        invariant 0 <= k <= |writes|
        invariant rows == Replayed(old(rows), writes[..k])
      {
        assert writes[..k + 1][..k] == writes[..k];
        DbWrite(writes[k]);
        k := k + 1;
      }
      assert writes[..k] == writes;
    }

    /** A committed insert is found again; an unknown number is not. */
    method DbQuery(orderNo: string) returns (found: bool, row: Row)
      ensures found == (orderNo in rows)
      ensures found ==> row == rows[orderNo]
    {
      if orderNo in rows {
        return true, rows[orderNo];
      }
      return false, Row(0, 0.0, "", 0, 0);
    }
  }

  ghost predicate FirstWrite(writes: seq<Order>, no: string, i: nat) {
    i < |writes| && writes[i].orderNo == no && forall j :: 0 <= j < i ==> writes[j].orderNo != no
  }

  ghost predicate LastWrite(writes: seq<Order>, no: string, i: nat) {
    i < |writes| && writes[i].orderNo == no && forall j :: i < j < |writes| ==> writes[j].orderNo != no
  }

  /**
   After any writes, a row new to the table has the user and creation time of
   its first write and the rest of its last one; an old row keeps the former.
   */
  lemma {:induction false} FirstAndLast(t: Table, writes: seq<Order>, no: string, i: nat, j: nat)
    requires FirstWrite(writes, no, i) && LastWrite(writes, no, j)
    ensures no in Replayed(t, writes)
    ensures var row, last := Replayed(t, writes)[no], writes[j];
            && row.amount == last.amount && row.status == last.status && row.updatedAt == last.updatedAt
            && row.userId == (if no in t then t[no].userId else writes[i].userId)
            && row.createdAt == (if no in t then t[no].createdAt else writes[i].createdAt)
  {
    var n := |writes| - 1;
    var front := writes[..n];
    if j < n {
      FirstAndLast(t, front, no, i, j);
    } else if i < n {
      var k := LatestBefore(front, no, i);
      FirstAndLast(t, front, no, i, k);
    } else {
      Untouched(t, front, no);
    }
  }

  lemma {:induction false} LatestBefore(writes: seq<Order>, no: string, i: nat) returns (k: nat)
    requires i < |writes| && writes[i].orderNo == no
    ensures LastWrite(writes, no, k)
  {
    var n := |writes| - 1;
    if writes[n].orderNo == no {
      k := n;
    } else {
      k := LatestBefore(writes[..n], no, i);
    }
  }

  lemma {:induction false} EarliestBefore(writes: seq<Order>, no: string, i: nat) returns (k: nat)
    requires i < |writes| && writes[i].orderNo == no
    ensures FirstWrite(writes, no, k) && k <= i
  {
    if j :| 0 <= j < i && writes[j].orderNo == no {
      k := EarliestBefore(writes, no, j);
    } else {
      k := i;
    }
  }

  lemma {:induction false} Untouched(t: Table, writes: seq<Order>, no: string)
    requires forall i :: 0 <= i < |writes| ==> writes[i].orderNo != no
    ensures no in Replayed(t, writes) <==> no in t
    ensures no in t ==> Replayed(t, writes)[no] == t[no]
  {
    if writes != [] {
      Untouched(t, writes[..|writes| - 1], no);
    }
  }

  ghost predicate SameWrites(a: seq<Order>, b: seq<Order>) {
    forall o :: o in a <==> o in b
  }

  /** One payload per order number. */
  ghost predicate OnePayload(writes: seq<Order>) {
    forall i, j :: 0 <= i < |writes| && 0 <= j < |writes| && writes[i].orderNo == writes[j].orderNo ==> writes[i] == writes[j]
  }

  /** The row of one order after any writes that agree on it. */
  lemma RowOf(t: Table, writes: seq<Order>, o: Order)
    requires OnePayload(writes) && o in writes
    ensures o.orderNo in Replayed(t, writes)
    ensures Replayed(t, writes)[o.orderNo] ==
              Row(if o.orderNo in t then t[o.orderNo].userId else o.userId, o.amount, o.status,
                  if o.orderNo in t then t[o.orderNo].createdAt else o.createdAt, o.updatedAt)
  {
    var k :| 0 <= k < |writes| && writes[k] == o;
    var i := EarliestBefore(writes, o.orderNo, k);
    var j := LatestBefore(writes, o.orderNo, k);
    FirstAndLast(t, writes, o.orderNo, i, j);
  }

  lemma {:induction false} SameRow(t: Table, a: seq<Order>, b: seq<Order>, no: string)
    requires OnePayload(a) && OnePayload(b) && SameWrites(a, b)
    ensures no in Replayed(t, a) <==> no in Replayed(t, b)
    ensures no in Replayed(t, a) ==> Replayed(t, a)[no] == Replayed(t, b)[no]
  {
    if k :| 0 <= k < |a| && a[k].orderNo == no {
      RowOf(t, a, a[k]);
      RowOf(t, b, a[k]);
    } else {
      forall i | 0 <= i < |b|
        ensures b[i].orderNo != no
      {
        assert b[i] in a;
      }
      Untouched(t, a, no);
      Untouched(t, b, no);
    }
  }

  /** With one payload per order, duplicates and the order of delivery make no difference. */
  lemma ReplayIndependence(t: Table, a: seq<Order>, b: seq<Order>)
    requires OnePayload(a) && SameWrites(a, b)
    ensures Replayed(t, a) == Replayed(t, b)
  {
    forall i, j | 0 <= i < |b| && 0 <= j < |b| && b[i].orderNo == b[j].orderNo
      ensures b[i] == b[j]
    {
      assert b[i] in a && b[j] in a;
    }
    var ta, tb := Replayed(t, a), Replayed(t, b);
    forall no | no in ta || no in tb
      ensures no in ta && no in tb && ta[no] == tb[no]
    {
      SameRow(t, a, b, no);
    }
    assert ta.Keys == tb.Keys;
  }

  /** And only then: two payloads for one order number leave different rows in different orders. */
  lemma ReplayIndependenceExactly(writes: seq<Order>)
    ensures OnePayload(writes) <==>
              forall a, b :: SameWrites(a, writes) && SameWrites(b, writes) ==> Replayed(map[], a) == Replayed(map[], b)
  {
    if OnePayload(writes) {
      forall a, b | SameWrites(a, writes) && SameWrites(b, writes)
        ensures Replayed(map[], a) == Replayed(map[], b)
      {
        ReplayIndependence(map[], writes, a);
        ReplayIndependence(map[], writes, b);
      }
    } else {
      var i, j :| 0 <= i < |writes| && 0 <= j < |writes| && writes[i].orderNo == writes[j].orderNo && writes[i] != writes[j];
      var a := [writes[i]] + writes + [writes[i]];
      var b := [writes[j]] + writes + [writes[j]];
      var no := writes[i].orderNo;
      FirstAndLast(map[], a, no, 0, |a| - 1);
      FirstAndLast(map[], b, no, 0, |b| - 1);
      assert Replayed(map[], a) != Replayed(map[], b);
      assert SameWrites(a, writes) && SameWrites(b, writes);
    }
  }
}
