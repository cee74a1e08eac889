/**
 Splitting an SQL script at the semicolons outside single quotes. The script is
 a sequence of characters; comments and backslashes have no meaning here, as in
 the program.
*/
module SqlSplitter {

  /** White space as Go's unicode.IsSpace has it. */
  predicate IsSpace(c: char) {
    var x := c as int;
    || 9 <= x <= 13 || x == 0x20 || x == 0x85 || x == 0xA0 || x == 0x1680
    || 0x2000 <= x <= 0x200A || x == 0x2028 || x == 0x2029 || x == 0x202F || x == 0x205F || x == 0x3000
  }

  function TrimLeft(s: string): string {
    if s != "" && IsSpace(s[0]) then TrimLeft(s[1..]) else s
  }

  function TrimRight(s: string): string {
    if s != "" && IsSpace(s[|s| - 1]) then TrimRight(s[..|s| - 1]) else s
  }

  function TrimSpace(s: string): string {
    TrimRight(TrimLeft(s))
  }

  /** The white space of Go's unicode.IsSpace, character by character. */
  lemma WhiteSpaceExactly(c: char)
    ensures IsSpace(c) <==>
              c in {'\t', '\n', '\U{0B}', '\U{0C}', '\r', ' ', '\U{85}', '\U{A0}', '\U{1680}',
                    '\U{2000}', '\U{2001}', '\U{2002}', '\U{2003}', '\U{2004}', '\U{2005}', '\U{2006}',
                    '\U{2007}', '\U{2008}', '\U{2009}', '\U{200A}',
                    '\U{2028}', '\U{2029}', '\U{202F}', '\U{205F}', '\U{3000}'}
  {
  }

  ghost predicate Blank(s: string) {
    forall i :: 0 <= i < |s| ==> IsSpace(s[i])
  }

  /** `t` is `s` without the white space around it. */
  ghost predicate Trims(s: string, t: string) {
    && (exists l, r :: s == l + t + r && Blank(l) && Blank(r))
    && (t != "" ==> !IsSpace(t[0]) && !IsSpace(t[|t| - 1]))
  }

  lemma {:induction false} LeftPart(s: string) returns (l: string)
    ensures s == l + TrimLeft(s) && Blank(l)
    ensures TrimLeft(s) != "" ==> !IsSpace(TrimLeft(s)[0])
  {
    if s != "" && IsSpace(s[0]) {
      var rest := LeftPart(s[1..]);
      l := [s[0]] + rest;
    } else {
      l := "";
    }
  }

  lemma {:induction false} RightPart(s: string) returns (r: string)
    ensures s == TrimRight(s) + r && Blank(r)
    ensures TrimRight(s) != "" ==> !IsSpace(TrimRight(s)[|TrimRight(s)| - 1])
  {
    if s != "" && IsSpace(s[|s| - 1]) {
      var rest := RightPart(s[..|s| - 1]);
      r := rest + [s[|s| - 1]];
    } else {
      r := "";
    }
  }

  lemma {:induction false} SkipLeft(l: string, s: string)
    requires Blank(l)
    ensures TrimLeft(l + s) == TrimLeft(s)
  {
    if l == "" {
      assert l + s == s;
    } else {
      assert (l + s)[1..] == l[1..] + s;
      SkipLeft(l[1..], s);
    }
  }

  lemma {:induction false} SkipRight(s: string, r: string)
    requires Blank(r)
    ensures TrimRight(s + r) == TrimRight(s)
  {
    if r == "" {
      assert s + r == s;
    } else {
      assert (s + r)[..|s + r| - 1] == s + r[..|r| - 1];
      SkipRight(s, r[..|r| - 1]);
    }
  }

  /** What is trimmed is the one text with only white space around it and none at its ends. */
  lemma TrimSpaceExactly(s: string, t: string)
    ensures TrimSpace(s) == t <==> Trims(s, t)
  {
    if TrimSpace(s) == t {
      var l := LeftPart(s);
      var r := RightPart(TrimLeft(s));
      assert s == l + t + r;
      assert t != "" ==> t[0] == TrimLeft(s)[0];
    }
    if Trims(s, t) {
      var l, r :| s == l + t + r && Blank(l) && Blank(r);
      assert s == l + (t + r);
      SkipLeft(l, t + r);
      if t == "" {
        assert t + r == r + "";
        SkipLeft(r, "");
        assert TrimSpace(s) == TrimRight("") == "";
      } else {
        assert TrimLeft(t + r) == t + r;
        SkipRight(t, r);
      }
    }
  }

  /** After `s` we are inside a string literal: its quotes are odd in number. */
  predicate Inside(s: string) {
    multiset(s)['\''] % 2 == 1
  }

  /** Every semicolon of `s` is inside a string literal. */
  ghost predicate NoBareSemicolon(s: string) {
    forall i :: 0 <= i < |s| && s[i] == ';' ==> Inside(s[..i])
  }

  /** What can stand before a semicolon that ends a statement. */
  ghost predicate IsPiece(s: string) {
    NoBareSemicolon(s) && !Inside(s)
  }

  ghost predicate ArePieces(pieces: seq<string>) {
    forall i :: 0 <= i < |pieces| ==> IsPiece(pieces[i])
  }

  /** The pieces, each ended by a semicolon. */
  function Terminated(pieces: seq<string>): string {
    if pieces == [] then "" else pieces[0] + ";" + Terminated(pieces[1..])
  }

  /** The script is made of these pieces and this remainder. */
  ghost predicate Divides(sql: string, pieces: seq<string>, rest: string) {
    sql == Terminated(pieces) + rest && ArePieces(pieces) && NoBareSemicolon(rest)
  }

  /** What the remainder adds: itself trimmed, unless nothing is left. */
  function Tail(rest: string): seq<string> {
    if TrimSpace(rest) == "" then [] else [TrimSpace(rest)]
  }

  /** The remainder adds nothing exactly when it is blank, and otherwise itself without the white space around it. */
  lemma TailExactly(rest: string)
    ensures Tail(rest) == [] <==> Blank(rest)
    ensures Tail(rest) != [] ==> |Tail(rest)| == 1 && Tail(rest)[0] != "" && Trims(rest, Tail(rest)[0])
  {
    TrimSpaceExactly(rest, TrimSpace(rest));
    TrimSpaceExactly(rest, "");
    if Blank(rest) {
      assert rest == rest + "" + "" && Blank("");
    }
    if TrimSpace(rest) == "" {
      var l, r :| rest == l + "" + r && Blank(l) && Blank(r);
      BlankAround(l, r);
    }
  }

  lemma BlankAround(l: string, r: string)
    requires Blank(l) && Blank(r)
    ensures Blank(l + "" + r)
  {
    assert l + "" + r == l + r;
  }

  /** The positions of the single quotes. */
  ghost function QuotesIn(s: string): set<nat> {
    set i: nat | i < |s| && s[i] == '\''
  }

  lemma {:induction false} QuotesCounted(s: string)
    ensures multiset(s)['\''] == |QuotesIn(s)|
  {
    if s != "" {
      var n := |s| - 1;
      QuotesCounted(s[..n]);
      assert s == s[..n] + [s[n]];
      assert QuotesIn(s) == if s[n] == '\'' then QuotesIn(s[..n]) + {n} else QuotesIn(s[..n]);
    }
  }

  /** A piece has evenly many single quotes, and oddly many before each of its semicolons. */
  lemma PieceExactly(s: string)
    ensures IsPiece(s) <==>
              && |QuotesIn(s)| % 2 == 0
              && forall i :: 0 <= i < |s| && s[i] == ';' ==> |QuotesIn(s[..i])| % 2 == 1
  {
    QuotesCounted(s);
    forall i | 0 <= i < |s| && s[i] == ';'
      ensures Inside(s[..i]) <==> |QuotesIn(s[..i])| % 2 == 1
    {
      QuotesCounted(s[..i]);
    }
  }

  lemma {:induction false} TerminatedAppend(pieces: seq<string>, p: string)
    ensures Terminated(pieces + [p]) == Terminated(pieces) + p + ";"
  {
    if pieces == [] {
      assert [p][1..] == [];
      assert Terminated([p]) == p + ";" + "";
    } else {
      assert (pieces + [p])[1..] == pieces[1..] + [p];
      TerminatedAppend(pieces[1..], p);
    }
  }

  lemma InsideAppend(s: string, c: char)
    ensures Inside(s + [c]) == (if c == '\'' then !Inside(s) else Inside(s))
  {
    assert multiset(s + [c]) == multiset(s) + multiset{c};
  }

  lemma NoBareAppend(s: string, c: char)
    requires NoBareSemicolon(s) && (c == ';' ==> Inside(s))
    ensures NoBareSemicolon(s + [c])
  {
    forall i | 0 <= i < |s + [c]| && (s + [c])[i] == ';'
      ensures Inside((s + [c])[..i])
    {
      assert (s + [c])[..i] == s[..i];
      assert i == |s| ==> s[..i] == s;
    }
  }

  /** What reaches past the semicolon that ends a piece has that semicolon bare. */
  lemma ReachesPast(p: string, q: string, x: string, y: string)
    requires IsPiece(p) && p + ";" + x == q + y && |q| > |p|
    ensures !NoBareSemicolon(q)
  {
    var s := p + ";" + x;
    assert q == s[..|q|];
    assert q[|p|] == s[|p|] == ';' && q[..|p|] == s[..|p|] == p;
  }

  lemma NoLonger(p: string, q: string, x: string, y: string)
    requires IsPiece(p) && NoBareSemicolon(q) && p + ";" + x == q + y
    ensures |q| <= |p|
  {
    if |q| > |p| {
      ReachesPast(p, q, x, y);
    }
  }

  lemma PieceInRest(pieces: seq<string>, rest: string, other: string)
    requires pieces != [] && ArePieces(pieces) && Terminated(pieces) + rest == other
    ensures !NoBareSemicolon(other)
  {
    var x := Terminated(pieces[1..]) + rest;
    assert pieces[0] + ";" + x == Terminated(pieces) + rest;
    ReachesPast(pieces[0], other, x, "");
  }

  /** A script divides in one way only. */
  lemma {:induction false} DivisionIsUnique(sql: string, pieces1: seq<string>, rest1: string, pieces2: seq<string>, rest2: string)
    requires Divides(sql, pieces1, rest1) && Divides(sql, pieces2, rest2)
    ensures pieces1 == pieces2 && rest1 == rest2
    decreases |pieces1| + |pieces2|
  {
    if pieces1 == [] || pieces2 == [] {
      assert "" + rest1 == rest1 && "" + rest2 == rest2;
      if pieces2 != [] {
        PieceInRest(pieces2, rest2, rest1);
      } else if pieces1 != [] {
        PieceInRest(pieces1, rest1, rest2);
      }
    } else {
      var p, q := pieces1[0], pieces2[0];
      var x, y := Terminated(pieces1[1..]) + rest1, Terminated(pieces2[1..]) + rest2;
      assert sql == p + ";" + x == p + (";" + x);
      assert sql == q + ";" + y == q + (";" + y);
      NoLonger(p, q, x, ";" + y);
      NoLonger(q, p, y, ";" + x);
      assert p == sql[..|p|] == q;
      assert x == sql[|p| + 1..] == y;
      DivisionIsUnique(x, pieces1[1..], rest1, pieces2[1..], rest2);
    }
  }

  /** Splits exactly at the semicolons outside literals and keeps the trimmed remainder, if any. */
  method SplitSQL(sql: string) returns (statements: seq<string>)
    ensures exists pieces, rest :: Divides(sql, pieces, rest) && statements == pieces + Tail(rest)
    ensures forall pieces, rest :: Divides(sql, pieces, rest) ==> statements == pieces + Tail(rest)
  {
    statements := [];
    var current := "";
    var inString := false;
    var i := 0;
    while i < |sql|
      invariant 0 <= i <= |sql|
      invariant Divides(sql[..i], statements, current)
      invariant inString == Inside(current)
    {
      var ch := sql[i];
      InsideAppend(current, ch);
      assert sql[..i + 1] == sql[..i] + [ch];
      if ch == '\'' {
        inString := !inString;
      }
      if ch == ';' && !inString {
        TerminatedAppend(statements, current);
        statements := statements + [current];
        current := "";
      } else {
        NoBareAppend(current, ch);
        current := current + [ch];
      }
      i := i + 1;
    }
    assert sql[..i] == sql;
    ghost var pieces, rest := statements, current;
    forall p, r | Divides(sql, p, r)
      ensures p == pieces && r == rest
    {
      DivisionIsUnique(sql, p, r, pieces, rest);
    }
    var remaining := TrimSpace(current);
    if remaining != "" {
      statements := statements + [remaining];
    }
  }
}
