/**
 Round-robin choice of a read replica by an atomic uint32 counter. The counter
 wraps, although the comment beside it speaks of 64 bits.
*/
module ReplicaPool {
  import opened Options

  const Wrap: nat := 0x1_0000_0000

  class RWDB {
    const replicas: nat
    var nextIdx: nat

    constructor (replicas: nat)
      ensures this.replicas == replicas && nextIdx == 0
    {
      this.replicas := replicas;
      nextIdx := 0;
    }

    /** The replica to read from; None is the master. */
    method Replica() returns (pick: Option<nat>)
      requires nextIdx < Wrap
      modifies this
      ensures replicas == 0 ==> pick == None && nextIdx == old(nextIdx)
      ensures replicas > 0 ==> nextIdx == (old(nextIdx) + 1) % 0x1_0000_0000 && pick == Some(nextIdx % replicas)
      ensures pick.Some? ==> pick.value < replicas && pick.value == Pick(nextIdx, 0, replicas)
    {
      if replicas == 0 {
        return None;
      }
      nextIdx := (nextIdx + 1) % Wrap;
      return Some(nextIdx % replicas);
    }
  }

  /** The replica of the k-th pick of a run whose first pick uses counter value `first`. */
  function Pick(first: nat, k: nat, n: nat): (r: nat)
    requires n > 0
    ensures r < n
  {
    (first + k) % Wrap % n
  }

  /** How often replica r is chosen in the first m picks. */
  function Served(first: nat, m: nat, n: nat, r: nat): nat
    requires n > 0
  {
    if m == 0 then 0 else Served(first, m - 1, n, r) + (if Pick(first, m - 1, n) == r then 1 else 0)
  }

  function Next(r: nat, n: nat): nat
    requires r < n
  {
    if r + 1 == n then 0 else r + 1
  }

  lemma {:induction false} NextResidue(c: nat, n: nat)
    requires n > 0
    ensures (c + 1) % n == Next(c % n, n)
  {
    var q, r := c / n, c % n;
    assert c == q * n + r;
    if r + 1 == n {
      assert c + 1 == (q + 1) * n + 0;
      Residue(c + 1, q + 1, 0, n);
    } else {
      Residue(c + 1, q, r + 1, n);
    }
  }

  lemma Residue(x: nat, q: nat, r: nat, n: nat)
    requires n > 0 && r < n && x == q * n + r
    ensures x % n == r
  {
    var q' := x / n;
    assert x == q' * n + x % n;
    assert (q - q') * n == x % n - r;
    Small(q - q', n);
  }

  lemma Small(d: int, n: int)
    requires n > 0 && -n < d * n < n
    ensures d == 0
  {
  }

  /** How far replica r lies ahead of replica p, going round. */
  function Ahead(p: nat, r: nat, n: nat): (d: nat)
    requires p < n && r < n
    ensures d < n
  {
    if r >= p then r - p else r - p + n
  }

  /** From pick to pick the choice moves on by one. */
  ghost predicate Rotates(first: nat, m: nat, n: nat)
    requires n > 0
  {
    forall k :: 0 <= k < m ==> k + 1 < m ==> Pick(first, k + 1, n) == Next(Pick(first, k, n), n)
  }

  /** After m rotating picks every replica has had `laps` turns, and those in the first `pos` places one more. */
  lemma {:induction false} RotationLaps(first: nat, m: nat, n: nat) returns (laps: nat, pos: nat)
    requires n > 0 && Rotates(first, m, n)
    ensures pos < n
    ensures m > 0 ==> Next(Ahead(Pick(first, 0, n), Pick(first, m - 1, n), n), n) == pos
    ensures m == 0 ==> pos == 0 && laps == 0
    ensures forall r :: 0 <= r < n ==>
      Served(first, m, n, r) == laps + (if Ahead(Pick(first, 0, n), r, n) < pos then 1 else 0)
    ensures m < n ==> laps == 0 && pos == m
  {
    if m == 0 {
      laps, pos := 0, 0;
    } else {
      laps, pos := RotationLaps(first, m - 1, n);
      var p, last := Pick(first, 0, n), Pick(first, m - 1, n);
      if m > 1 {
        assert Pick(first, m - 2 + 1, n) == Next(Pick(first, m - 2, n), n);
      }
      assert Ahead(p, last, n) == pos;
      assert forall r :: 0 <= r < n ==> (Ahead(p, r, n) == pos <==> r == last);
      if pos + 1 == n {
        laps, pos := laps + 1, 0;
      } else {
        pos := pos + 1;
      }
    }
  }

  /** Two numbers of turns differ by at most d. */
  ghost predicate Balanced(first: nat, m: nat, n: nat, d: nat)
    requires n > 0
  {
    forall i, j :: 0 <= i < n && 0 <= j < n ==> Served(first, m, n, i) <= Served(first, m, n, j) + d
  }

  lemma BeforeWrap(first: nat, k: nat, n: nat)
    requires n > 0 && first + k < Wrap
    ensures Pick(first, k, n) == (first + k) % n
  {
  }

  lemma AfterWrap(first: nat, k: nat, n: nat)
    requires n > 0 && first + k >= Wrap > first
    ensures Pick(first, k, n) == Pick(0, k - (Wrap - first), n)
  {
    var x: nat := first + k - Wrap;
    assert (x + Wrap) % Wrap == x % Wrap;
  }

  lemma {:induction false} RotatesWithoutWrap(first: nat, m: nat, n: nat)
    requires n > 0 && first + m <= Wrap
    ensures Rotates(first, m, n)
  {
    forall k | 0 <= k < m && k + 1 < m
      ensures Pick(first, k + 1, n) == Next(Pick(first, k, n), n)
    {
      BeforeWrap(first, k, n);
      BeforeWrap(first, k + 1, n);
      NextResidue(first + k, n);
    }
  }

  /** Without a wrap of the counter, any two replicas get equally many reads up to one. */
  lemma FairWithoutWrap(first: nat, m: nat, n: nat)
    requires n > 0 && first + m <= Wrap
    ensures Balanced(first, m, n, 1)
  {
    RotatesWithoutWrap(first, m, n);
    var laps, pos := RotationLaps(first, m, n);
  }

  /** A run that passes the wrap is a run up to it and a run from zero. */
  lemma {:induction false} SplitAtWrap(first: nat, m: nat, n: nat, r: nat)
    requires n > 0 && first < Wrap && first + m >= Wrap
    ensures Served(first, m, n, r) == Served(first, Wrap - first, n, r) + Served(0, m - (Wrap - first), n, r)
  {
    var a := Wrap - first;
    if m > a {
      SplitAtWrap(first, m - 1, n, r);
      AfterWrap(first, m - 1, n);
    }
  }

  /** Every wrap costs at most one more. */
  lemma {:induction false} FairAcrossWraps(first: nat, m: nat, n: nat, wraps: nat)
    requires n > 0 && first < Wrap && first + m <= (wraps + 1) * Wrap
    ensures Balanced(first, m, n, wraps + 1)
    decreases wraps
  {
    if first + m <= Wrap {
      FairWithoutWrap(first, m, n);
    } else {
      var a := Wrap - first;
      FairWithoutWrap(first, a, n);
      FairAcrossWraps(0, m - a, n, wraps - 1);
      forall i, j | 0 <= i < n && 0 <= j < n
        ensures Served(first, m, n, i) <= Served(first, m, n, j) + (wraps + 1)
      {
        SplitAtWrap(first, m, n, i);
        SplitAtWrap(first, m, n, j);
      }
    }
  }

  /** When the number of replicas divides 2^32, the rotation goes on smoothly over every wrap. */
  lemma {:induction false} DivisorRotates(first: nat, m: nat, n: nat)
    requires n > 0 && Wrap % n == 0
    ensures Rotates(first, m, n)
  {
    forall k | 0 <= k < m && k + 1 < m
      ensures Pick(first, k + 1, n) == Next(Pick(first, k, n), n)
    {
      var c := (first + k) % Wrap;
      NextResidue(c, n);
      assert (first + (k + 1)) % Wrap == if c + 1 == Wrap then 0 else c + 1;
    }
  }

  /** Two wraps of the last few counter values: the first replicas are chosen twice, the last one not at all. */
  lemma UnfairRun(n: nat) returns (first: nat, m: nat)
    requires n > 0 && Wrap % n != 0
    ensures first < Wrap && !Balanced(first, m, n, 1)
  {
    // The residue of the largest counter value is not the last one.
    NextResidue(Wrap - 1, n);
    var rho := (Wrap - 1) % n;
    assert rho < n - 1 && rho < Wrap;
    first, m := Wrap - (rho + 1), 2 * (rho + 1);
    var q := (Wrap - 1) / n;
    assert first == q * n;
    Residue(first, q, 0, n);
    ShortRun(first, rho + 1, n);
    Residue(0, 0, 0, n);
    ShortRun(0, rho + 1, n);
    SplitAtWrap(first, m, n, 0);
    SplitAtWrap(first, m, n, n - 1);
    assert Served(first, m, n, 0) == 2 && Served(first, m, n, n - 1) == 0;
  }

  /** Fewer picks than replicas, starting at replica 0, give one turn each to the first ones. */
  lemma {:induction false} ShortRun(first: nat, m: nat, n: nat)
    requires n > 0 && 0 < m < n && first + m <= Wrap && first % n == 0
    ensures Served(first, m, n, 0) == 1 && Served(first, m, n, n - 1) == 0
  {
    RotatesWithoutWrap(first, m, n);
    BeforeWrap(first, 0, n);
    var laps, pos := RotationLaps(first, m, n);
  }

  /** A difference of at most one holds over all runs exactly when the number of replicas divides 2^32. */
  lemma FairExactly(n: nat)
    requires n > 0
    ensures (forall first: nat, m: nat :: first < Wrap ==> Balanced(first, m, n, 1)) <==> Wrap % n == 0
  {
    if Wrap % n == 0 {
      forall first: nat, m: nat | first < Wrap
        ensures Balanced(first, m, n, 1)
      {
        DivisorRotates(first, m, n);
        var laps, pos := RotationLaps(first, m, n);
      }
    } else {
      var first, m := UnfairRun(n);
    }
  }
}
