/**
 Order numbers: "ORD", the user, a five-digit sequence part and a three-digit
 random part. The sequence part comes from a process-wide 64-bit counter.
*/
module OrderNumbers {
  import opened Decimals
  import opened Options

  const Wrap: nat := 0x1_0000_0000_0000_0000

  function OrderNo(user: nat, counter: nat, random: nat): string {
    "ORD" + Digits(user) + Padded(counter % 100000, 5) + Padded(random % 1000, 3)
  }

  datatype Parts = Parts(user: nat, sequence: nat, random: nat)

  /** Reads an order number back: the last three digits, the five before them, and the rest. */
  function Parse(s: string): Option<Parts> {
    if |s| < 12 || s[..3] != "ORD" || !AllDigits(s[3..]) then None
    else
      var d := s[3..];
      var n := |d|;
      Some(Parts(Value(d[..n - 8]), Value(d[n - 8..n - 3]), Value(d[n - 3..])))
  }

  lemma FixedWidths(counter: nat, random: nat)
    ensures |Padded(counter % 100000, 5)| == 5 && |Padded(random % 1000, 3)| == 3
  {
    assert Power10(5) == 100000 && Power10(3) == 1000;
    DigitsFit(counter % 100000, 5);
    DigitsFit(random % 1000, 3);
  }

  /** Where the parts of a number stand. */
  lemma Cut(u: string, c: string, r: string)
    requires |c| == 5 && |r| == 3
    ensures var d := ("ORD" + u + c + r)[3..]; var n := |d|;
            n == |u| + 8 && d == u + c + r && d[..n - 8] == u && d[n - 8..n - 3] == c && d[n - 3..] == r
    ensures ("ORD" + u + c + r)[..3] == "ORD"
  {
  }

  /** Printing loses nothing but the reduction of the two counters. */
  lemma RoundTrip(user: nat, counter: nat, random: nat)
    ensures Parse(OrderNo(user, counter, random)) == Some(Parts(user, counter % 100000, random % 1000))
  {
    var u, c, r := Digits(user), Padded(counter % 100000, 5), Padded(random % 1000, 3);
    FixedWidths(counter, random);
    Cut(u, c, r);
    ValueOfDigits(user);
    ValueOfPadded(counter % 100000, 5);
    ValueOfPadded(random % 1000, 3);
  }

  /**
   Nothing but the three parts is printed: the user's numeral without leading
   zeros, then five digits and three. The counterpart of `RoundTrip`.
   */
  lemma PrintedExactly(user: nat, counter: nat, random: nat)
    ensures var no := OrderNo(user, counter, random);
            && |no| == |Digits(user)| + 11 && no[..3] == "ORD"
            && Canonical(no[3..|no| - 8]) && AllDigits(no[|no| - 8..])
            && Value(no[3..|no| - 8]) == user
            && Value(no[|no| - 8..|no| - 3]) == counter % 100000
            && Value(no[|no| - 3..]) == random % 1000
  {
    var u, c, r := Digits(user), Padded(counter % 100000, 5), Padded(random % 1000, 3);
    FixedWidths(counter, random);
    CutWhole(u, c, r);
    DigitsCanonical(user);
    ValueOfDigits(user);
    ValueOfPadded(counter % 100000, 5);
    ValueOfPadded(random % 1000, 3);
  }

  lemma CutWhole(u: string, c: string, r: string)
    requires |c| == 5 && |r| == 3
    ensures var no := "ORD" + u + c + r; var n := |no|;
            && n == |u| + 11 && no[..3] == "ORD" && no[3..n - 8] == u
            && no[n - 8..n - 3] == c && no[n - 3..] == r && no[n - 8..] == c + r
  {
  }

  /** Two numbers with the same random part are equal exactly when user and reduced counter are. */
  lemma SameNumber(user1: nat, counter1: nat, user2: nat, counter2: nat, random: nat)
    ensures (OrderNo(user1, counter1, random) == OrderNo(user2, counter2, random)) <==>
              user1 == user2 && counter1 % 100000 == counter2 % 100000
  {
    RoundTrip(user1, counter1, random);
    RoundTrip(user2, counter2, random);
  }

  class Generator {
    var orderSeq: nat
    const random: nat

    /** The counter starts at the low 16 bits of the clock. */
    constructor (clock: nat, random: nat)
      ensures orderSeq == clock % 0x1_0000 && this.random == random
    {
      orderSeq := clock % 0x1_0000;
      this.random := random;
    }

    method GenerateOrderNo(user: nat) returns (no: string)
      requires orderSeq < Wrap
      modifies this
      ensures orderSeq == (old(orderSeq) + 1) % 0x1_0000_0000_0000_0000
      ensures no == OrderNo(user, (old(orderSeq) + 1) % Wrap, random)
    {
      orderSeq := (orderSeq + 1) % Wrap;
      var sequence := orderSeq % 100000;
      var randPart := random % 1000;
      no := "ORD" + Digits(user) + Padded(sequence, 5) + Padded(randPart, 3);
    }
  }

  /** The counter value used by the k-th call (from 0) of a process started at `seed`. */
  function Counter(seed: nat, k: nat): nat {
    (seed + k + 1) % Wrap
  }

  lemma Congruent(a: nat, b: nat)
    requires a <= b
    ensures a % 100000 == b % 100000 <==> (b - a) % 100000 == 0
  {
  }

  /**
   Until the counter wraps, calls i and j of one process get the same number
   exactly when they are for the same user and a multiple of 100000 apart: so
   never when fewer than 100000 apart, and always, for one user, when exactly
   that far apart.
   */
  lemma {:induction false} CollisionDistance(seed: nat, random: nat, user1: nat, user2: nat, i: nat, j: nat)
    requires i <= j && seed + j + 1 < Wrap
    ensures (OrderNo(user1, Counter(seed, i), random) == OrderNo(user2, Counter(seed, j), random)) <==>
              user1 == user2 && (j - i) % 100000 == 0
  {
    SameNumber(user1, Counter(seed, i), user2, Counter(seed, j), random);
    assert Counter(seed, i) == seed + i + 1 && Counter(seed, j) == seed + j + 1;
    Congruent(seed + i + 1, seed + j + 1);
  }

  lemma UniqueWithin100000(seed: nat, random: nat, user1: nat, user2: nat, i: nat, j: nat)
    requires i < j < i + 100000 && seed + j + 1 < Wrap
    ensures OrderNo(user1, Counter(seed, i), random) != OrderNo(user2, Counter(seed, j), random)
  {
    CollisionDistance(seed, random, user1, user2, i, j);
  }

  /**
   The wrap itself is no multiple of 100000. A call before it and a call after
   it print the same number exactly when they are for the same user and their
   distance leaves the remainder 51616.
   */
  lemma {:induction false} WrapCollision(seed: nat, random: nat, user1: nat, user2: nat, i: nat, j: nat)
    requires seed + i + 1 < Wrap <= seed + j + 1 < 2 * Wrap
    ensures (OrderNo(user1, Counter(seed, i), random) == OrderNo(user2, Counter(seed, j), random)) <==>
              user1 == user2 && (j - i) % 100000 == 51616
  {
    SameNumber(user1, Counter(seed, i), user2, Counter(seed, j), random);
    assert Counter(seed, i) == seed + i + 1;
    OnceWrapped(seed + j + 1);
    AcrossWrap(seed + i + 1, seed + j + 1);
  }

  lemma OnceWrapped(x: nat)
    requires Wrap <= x < 2 * Wrap
    ensures x % Wrap == x - Wrap
  {
  }

  lemma AcrossWrap(a: nat, b: nat)
    requires a < Wrap <= b
    ensures a % 100000 == (b - Wrap) % 100000 <==> (b - a) % 100000 == 51616
  {
    // 48384 makes up the wrap's remainder.
    SameResidue(b - Wrap, b + 48384, 184467440737096);
    Congruent(a, b + 48384);
    Completes(b - a);
  }

  lemma SameResidue(x: nat, y: nat, laps: nat)
    requires y == x + laps * 100000
    ensures x % 100000 == y % 100000
  {
  }

  lemma Completes(d: nat)
    ensures (d + 48384) % 100000 == 0 <==> d % 100000 == 51616
  {
  }
}
