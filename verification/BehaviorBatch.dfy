/**
 The multi-row INSERT that writes a batch of behaviour entries: numbered
 placeholders in the text, and the arguments they refer to. `Placeholders`
 reads the numbers back out of the finished SQL text.
*/
module BehaviorBatch {
  import opened Decimals

  datatype Entry = Entry(userId: nat, eventType: string, eventData: string)

  datatype Arg = Number(n: nat) | Text(s: string)

  const Insert :=
    "INSERT INTO " + "user_behavior_log " + "(user_id, " + "event_type, " + "event_data, " + "created_at) " + "VALUES "

  /** A statement to run, or nothing to do. */
  datatype Statement = Skip | Exec(query: string, args: seq<Arg>)

  function Join(strs: seq<string>, sep: string): string {
    if strs == [] then ""
    else if |strs| == 1 then strs[0]
    else Join(strs[..|strs| - 1], sep) + sep + strs[|strs| - 1]
  }

  method JoinStrings(strs: seq<string>, sep: string) returns (result: string)
    ensures result == Join(strs, sep)
  {
    if |strs| == 0 {
      return "";
    }
    result := strs[0];
    assert strs[..1] == [strs[0]];
    var i := 1;
    while i < |strs|
      invariant 1 <= i <= |strs|
      invariant result == Join(strs[..i], sep)
    {
      assert strs[..i + 1][..i] == strs[..i];
      result := result + sep + strs[i];
      i := i + 1;
    }
    assert strs[..i] == strs;
  }

  /** A placeholder as the driver reads it. */
  function Hole(n: nat): string {
    "$" + Digits(n)
  }

  /** The text of one row whose first placeholder is number p. */
  function Row(p: nat): string {
    "(" + Hole(p) + "," + Hole(p + 1) + "," + Hole(p + 2) + "::jsonb,NOW())"
  }

  /** The first placeholder of row i. */
  function First(i: nat): nat {
    3 * i + 1
  }

  function Rows(n: nat): (rows: seq<string>)
    ensures |rows| == n && forall i :: 0 <= i < n ==> rows[i] == Row(First(i))
  {
    seq(n, i requires 0 <= i => Row(First(i)))
  }

  /** Row i as it is written; the third placeholder is cast. */
  lemma RowText(n: nat, i: nat)
    requires i < n
    ensures Rows(n)[i] ==
              "(" + ("$" + Digits(3 * i + 1)) + "," + ("$" + Digits(3 * i + 2)) + "," + ("$" + Digits(3 * i + 3)) + "::jsonb,NOW())"
  {
    assert First(i) + 2 == 3 * i + 3;
  }

  function Fields(e: Entry): seq<Arg> {
    [Number(e.userId), Text(e.eventType), Text(e.eventData)]
  }

  /** The three arguments from 3i on are the fields of entry i. */
  ghost predicate Bound(args: seq<Arg>, entries: seq<Entry>) {
    && |args| == 3 * |entries|
    && forall i :: 0 <= i < |entries| ==> args[3 * i..3 * i + 3] == Fields(entries[i])
  }

  lemma MoreArgs(args: seq<Arg>, entries: seq<Entry>, k: nat)
    requires k < |entries| && Bound(args, entries[..k])
    ensures Bound(args + Fields(entries[k]), entries[..k + 1])
  {
    var args' := args + Fields(entries[k]);
    forall i | 0 <= i <= k
      ensures args'[3 * i..3 * i + 3] == Fields(entries[..k + 1][i])
    {
      if i < k {
        assert args'[3 * i..3 * i + 3] == args[3 * i..3 * i + 3];
        assert entries[..k][i] == entries[..k + 1][i];
      }
    }
  }

  lemma BoundByField(args: seq<Arg>, entries: seq<Entry>)
    requires Bound(args, entries)
    ensures forall i :: 0 <= i < |entries| ==>
              && args[3 * i] == Number(entries[i].userId)
              && args[3 * i + 1] == Text(entries[i].eventType)
              && args[3 * i + 2] == Text(entries[i].eventData)
  {
    forall i | 0 <= i < |entries|
      ensures args[3 * i] == Number(entries[i].userId)
      ensures args[3 * i + 1] == Text(entries[i].eventType)
      ensures args[3 * i + 2] == Text(entries[i].eventData)
    {
      var three := args[3 * i..3 * i + 3];
      assert three == Fields(entries[i]);
      assert three[0] == args[3 * i] && three[1] == args[3 * i + 1] && three[2] == args[3 * i + 2];
    }
  }

  method LogBehaviorBatch(ready: bool, entries: seq<Entry>) returns (st: Statement)
    ensures st.Skip? <==> !ready || entries == []
    ensures st.Exec? ==> Bound(st.args, entries)
    ensures st.Exec? ==> |st.args| == 3 * |entries| && forall i :: 0 <= i < |entries| ==>
      && st.args[3 * i] == Number(entries[i].userId)
      && st.args[3 * i + 1] == Text(entries[i].eventType)
      && st.args[3 * i + 2] == Text(entries[i].eventData)
    ensures st.Exec? ==>
      "INSERT INTO " + "user_behavior_log " + "(user_id, " + "event_type, " + "event_data, " + "created_at) " + "VALUES " <= st.query
    ensures st.Exec? ==> st.query == Insert + Join(Rows(|entries|), ",")
    ensures st.Exec? ==> Placeholders(st.query) == UpTo(|st.args|)
  {
    if !ready || |entries| == 0 {
      return Skip;
    }
    var values: seq<string> := [];
    var args: seq<Arg> := [];
    var placeholderIdx := 1;
    var k := 0;
    while k < |entries|
      invariant 0 <= k <= |entries|
      invariant placeholderIdx == First(k) && values == Rows(k) && Bound(args, entries[..k])
    {
      var e := entries[k];
      values := values + ["(" + Hole(placeholderIdx) + "," + Hole(placeholderIdx + 1) + "," + Hole(placeholderIdx + 2) + "::jsonb,NOW())"];
      assert values == Rows(k + 1);
      MoreArgs(args, entries, k);
      args := args + [Number(e.userId), Text(e.eventType), Text(e.eventData)];
      placeholderIdx := placeholderIdx + 3;
      k := k + 1;
    }
    assert entries[..k] == entries;
    var joined := JoinStrings(values, ",");
    AllRowsRead(k);
    BoundByField(args, entries);
    assert Insert <= Insert + joined;
    st := Exec(Insert + joined, args);
  }

  // ---------------------------------------------------------------------
  // Reading the placeholders back.
  // ---------------------------------------------------------------------

  /** The length of the longest run of digits at the start. */
  function Run(s: string): (k: nat)
    ensures k <= |s| && AllDigits(s[..k])
    ensures k < |s| ==> !IsDigit(s[k])
  {
    if s == "" || !IsDigit(s[0]) then 0
    else
      var k := 1 + Run(s[1..]);
      assert s[..k] == [s[0]] + s[1..][..k - 1];
      k
  }

  /** Every `$` followed by the digits after it, from left to right. */
  function Placeholders(s: string): seq<nat>
    decreases |s|
  {
    if s == "" then []
    else if s[0] != '$' then Placeholders(s[1..])
    else
      var k := Run(s[1..]);
      [Value(s[1..][..k])] + Placeholders(s[1..][k..])
  }

  function UpTo(n: nat): (s: seq<nat>)
    ensures |s| == n && forall i :: 0 <= i < n ==> s[i] == i + 1
  {
    seq(n, i => i + 1)
  }

  lemma {:induction false} RunConcat(a: string, b: string)
    requires b == "" || !IsDigit(b[0])
    ensures Run(a + b) == Run(a)
  {
    if a == "" {
      assert a + b == b;
    } else {
      assert (a + b)[1..] == a[1..] + b;
      RunConcat(a[1..], b);
    }
  }

  /** Text can be read piece by piece where a new piece does not start with a digit. */
  lemma {:induction false} PlaceholdersConcat(a: string, b: string)
    requires b == "" || !IsDigit(b[0])
    ensures Placeholders(a + b) == Placeholders(a) + Placeholders(b)
    decreases |a|
  {
    if a == "" {
      assert a + b == b;
    } else {
      assert (a + b)[1..] == a[1..] + b;
      if a[0] != '$' {
        PlaceholdersConcat(a[1..], b);
      } else {
        RunConcat(a[1..], b);
        var k := Run(a[1..]);
        assert (a[1..] + b)[..k] == a[1..][..k];
        assert (a[1..] + b)[k..] == a[1..][k..] + b;
        PlaceholdersConcat(a[1..][k..], b);
      }
    }
  }

  lemma {:induction false} NoPlaceholders(s: string)
    requires '$' !in s
    ensures Placeholders(s) == []
    decreases |s|
  {
    if s != "" {
      assert '$' !in s[1..];
      NoPlaceholders(s[1..]);
    }
  }

  lemma {:induction false} RunOfDigits(s: string)
    requires AllDigits(s)
    ensures Run(s) == |s|
  {
    if s != "" {
      RunOfDigits(s[1..]);
    }
  }

  lemma HoleReads(n: nat)
    ensures Placeholders(Hole(n)) == [n]
  {
    var d := Digits(n);
    var s := Hole(n);
    assert s[0] == '$' && s[1..] == d;
    RunOfDigits(d);
    assert d[..|d|] == d && d[|d|..] == "";
    ValueOfDigits(n);
  }

  lemma HoleAfter(text: string, n: nat)
    ensures Placeholders(text + Hole(n)) == Placeholders(text) + [n]
  {
    PlaceholdersConcat(text, Hole(n));
    HoleReads(n);
  }

  lemma TextAfter(text: string, more: string)
    requires '$' !in more && (more == "" || !IsDigit(more[0]))
    ensures Placeholders(text + more) == Placeholders(text)
  {
    PlaceholdersConcat(text, more);
    NoPlaceholders(more);
  }

  lemma CommaHole(text: string, n: nat)
    ensures Placeholders(text + "," + Hole(n)) == Placeholders(text) + [n]
  {
    TextAfter(text, ",");
    HoleAfter(text + ",", n);
  }

  lemma RowReads(p: nat)
    ensures Placeholders(Row(p)) == [p, p + 1, p + 2]
  {
    var t1 := "(" + Hole(p);
    var t2 := t1 + "," + Hole(p + 1);
    var t3 := t2 + "," + Hole(p + 2);
    NoPlaceholders("(");
    HoleAfter("(", p);
    CommaHole(t1, p + 1);
    CommaHole(t2, p + 2);
    TextAfter(t3, "::jsonb,NOW())");
  }

  /** Text that reads as the three placeholders of row i. */
  ghost predicate IsRow(row: string, i: nat) {
    row != "" && row[0] == '(' && Placeholders(row) == [First(i), First(i) + 1, First(i) + 2]
  }

  lemma RowIsRow(i: nat)
    ensures IsRow(Row(First(i)), i)
  {
    RowReads(First(i));
  }

  lemma RowAfter(front: string, row: string, n: nat)
    requires Placeholders(front) == UpTo(3 * n) && IsRow(row, n)
    ensures Placeholders(front + "," + row) == UpTo(3 * (n + 1))
  {
    TextAfter(front, ",");
    PlaceholdersConcat(front + ",", row);
    assert UpTo(3 * (n + 1)) == UpTo(3 * n) + [First(n), First(n) + 1, First(n) + 2];
  }

  /** The placeholders of any number of rows are 1, 2, 3, .. in order. */
  lemma {:induction false} RowsRead(values: seq<string>)
    requires forall i :: 0 <= i < |values| ==> IsRow(values[i], i)
    ensures Placeholders(Join(values, ",")) == UpTo(3 * |values|)
  {
    var n := |values|;
    if n == 1 {
      assert UpTo(3) == [1, 2, 3];
    } else if n > 1 {
      RowsRead(values[..n - 1]);
      RowAfter(Join(values[..n - 1], ","), values[n - 1], n - 1);
    }
  }

  lemma InsertHasNoPlaceholder()
    ensures '$' !in Insert
  {
    assert '$' !in "INSERT INTO " && '$' !in "user_behavior_log " && '$' !in "(user_id, ";
    assert '$' !in "event_type, " && '$' !in "event_data, " && '$' !in "created_at) " && '$' !in "VALUES ";
  }

  lemma PrefixReads(prefix: string, rows: string)
    requires '$' !in prefix && (rows == "" || rows[0] == '(')
    ensures Placeholders(prefix + rows) == Placeholders(rows)
  {
    PlaceholdersConcat(prefix, rows);
    NoPlaceholders(prefix);
  }

  lemma QueryHoles(values: seq<string>)
    requires forall i :: 0 <= i < |values| ==> IsRow(values[i], i)
    ensures Placeholders(Insert + Join(values, ",")) == UpTo(3 * |values|)
  {
    RowsRead(values);
    if values != [] {
      JoinStart(values);
    }
    InsertHasNoPlaceholder();
    PrefixReads(Insert, Join(values, ","));
  }

  lemma AllRowsRead(n: nat)
    ensures Placeholders(Insert + Join(Rows(n), ",")) == UpTo(3 * n)
  {
    forall i | 0 <= i < n
      ensures IsRow(Rows(n)[i], i)
    {
      RowIsRow(i);
    }
    QueryHoles(Rows(n));
  }

  lemma {:induction false} JoinStart(values: seq<string>)
    requires values != [] && IsRow(values[0], 0)
    ensures var s := Join(values, ","); s != "" && s[0] == '('
  {
    if |values| > 1 {
      JoinStart(values[..|values| - 1]);
    }
  }
}
