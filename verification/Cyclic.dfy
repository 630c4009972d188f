/** Quotients and remainders by a variable divisor, and counting by pigeonholes. */
module Cyclic {

  lemma ScaleLe(a: int, b: int, n: nat)
    requires a <= b
    ensures a * n <= b * n
  {
  }

  /** A number in [0, n) above a multiple of n is the remainder, and the multiplier the quotient. */
  lemma DivMod(q: int, r: int, n: int)
    requires 0 <= r < n
    ensures (q * n + r) % n == r && (q * n + r) / n == q
  {
    DivModUnique((q * n + r) / n, (q * n + r) % n, q, r, n);
  }

  lemma DivModUnique(q: int, r: int, q': int, r': int, n: int)
    requires 0 <= r < n && 0 <= r' < n && q * n + r == q' * n + r'
    ensures q == q' && r == r'
  {
    if q < q' {
      ScaleLe(q + 1, q', n);
    } else if q' < q {
      ScaleLe(q' + 1, q, n);
    }
  }

  lemma QuotientStep(x: int, n: int)
    requires n > 0
    ensures (x + n) / n == x / n + 1 && (x + n) % n == x % n
  {
    DivMod(x / n + 1, x % n, n);
    assert (x / n + 1) * n + x % n == x + n;
  }

  lemma QuotientMonotone(x: int, y: int, n: int)
    requires n > 0 && x <= y
    ensures x / n <= y / n
  {
    QuotientOrder(x / n, x % n, y / n, y % n, n);
  }

  lemma QuotientOrder(q: int, r: int, q': int, r': int, n: nat)
    requires 0 <= r < n && 0 <= r' < n && q * n + r <= q' * n + r'
    ensures q <= q'
  {
    if q' < q { ScaleLe(q' + 1, q, n); }
  }

  /** Adding whole turns does not move a position. */
  lemma AddTurns(x: int, turns: int, n: int)
    requires n > 0
    ensures (x + turns * n) % n == x % n
  {
    var q, r := x / n, x % n;
    assert x + turns * n == (q + turns) * n + r;
    DivMod(q + turns, r, n);
  }

  /** Positions may be reduced before they are added. */
  lemma AddReduced(x: int, y: int, n: int)
    requires n > 0
    ensures (x % n + y) % n == (x + y) % n
  {
    AddTurns(x % n + y, x / n, n);
    assert x % n + y + (x / n) * n == x + y;
  }

  // Named products, quotients and remainders, so that a proof can hide them and reason from the laws below.

  function Prod(a: int, b: int): int {
    a * b
  }

  function Quo(x: int, n: nat): int
    requires n > 0
  {
    x / n
  }

  function Rem(x: int, n: nat): (r: nat)
    requires n > 0
    ensures r < n
  {
    x % n
  }

  lemma ProdLaws(a: int, b: int, c: int)
    ensures Prod(a, b) == Prod(b, a)
    ensures Prod(a + c, b) == Prod(a, b) + Prod(c, b)
    ensures Prod(2 * a, b) == 2 * Prod(a, b)
    ensures Prod(1, b) == b && Prod(0, b) == 0
  {
    assert (a + c) * b == a * b + c * b;
  }

  lemma ProdNonNegative(a: nat, b: nat)
    ensures Prod(a, b) >= 0
  {
  }

  lemma ProdRegroup(a: int, b: int, c: int)
    ensures Prod(a, Prod(b, c)) == Prod(Prod(a, c), b)
  {
    assert a * (b * c) == (a * c) * b;
  }

  /** A positive multiple of n is at least n. */
  lemma PositiveMultiple(m: int, n: nat)
    requires Prod(m, n) > 0
    ensures m >= 1 && Prod(m, n) >= n
  {
    if m <= 0 { ScaleLe(m, 0, n); } else { ScaleLe(1, m, n); }
  }

  lemma Decompose(x: int, n: nat)
    requires n > 0
    ensures x == Prod(Quo(x, n), n) + Rem(x, n)
    ensures x >= 0 ==> Quo(x, n) >= 0
  {
    if x >= 0 { QuotientMonotone(0, x, n); }
  }

  lemma RemQuoIs(q: int, r: nat, n: nat)
    requires r < n
    ensures Rem(Prod(q, n) + r, n) == r && Quo(Prod(q, n) + r, n) == q
  {
    DivMod(q, r, n);
  }

  lemma RemTurns(x: int, turns: int, n: nat)
    requires n > 0
    ensures Rem(x + Prod(turns, n), n) == Rem(x, n)
  {
    AddTurns(x, turns, n);
  }

  lemma RemReduced(x: int, y: int, n: nat)
    requires n > 0
    ensures Rem(Rem(x, n) + y, n) == Rem(x + y, n)
  {
    AddReduced(x, y, n);
  }

  lemma RemSmall(r: nat, n: nat)
    requires r < n
    ensures Rem(r, n) == r && Quo(r, n) == 0
  {
    DivMod(0, r, n);
  }

  /** The position `offset` steps after `start` on a circle of n. */
  function Position(start: nat, offset: nat, n: nat): (i: nat)
    requires n > 0
    ensures i < n
  {
    (start + offset) % n
  }

  /** The offset at which a cyclic walk from `start` meets position i. */
  function OffsetOf(start: nat, i: nat, n: nat): (k: nat)
    requires i < n
    ensures k < n
  {
    (i + n - start % n) % n
  }

  lemma OffsetMeets(start: nat, i: nat, n: nat)
    requires i < n
    ensures Position(start, OffsetOf(start, i, n), n) == i
  {
    var s := start % n;
    var x := i + n - s;
    AddReduced(x, s, n);
    assert x + s == i + 1 * n;
    AddTurns(i, 1, n);
    DivMod(0, i, n);
    AddReduced(start, OffsetOf(start, i, n), n);
  }

  /** Two offsets that meet the same position within one turn are equal. */
  lemma SameStep(start: int, k: nat, k': nat, n: nat)
    requires k < n && k' < n && (start + k) % n == (start + k') % n
    ensures k == k'
  {
    AddReduced(start + k, -start, n);
    AddReduced(start + k', -start, n);
    DivMod(0, k, n);
    DivMod(0, k', n);
  }

  function Range(n: nat): (s: set<nat>)
    ensures forall i: nat :: i in s <==> i < n
  {
    if n == 0 then {} else Range(n - 1) + {n - 1}
  }

  lemma {:induction false} RangeSize(n: nat)
    ensures |Range(n)| == n
  {
    if n > 0 { RangeSize(n - 1); }
  }

  function Elements<T>(s: seq<T>): set<T> {
    set x | x in s
  }

  lemma {:induction false} ElementsBound<T>(s: seq<T>)
    ensures |Elements(s)| <= |s|
  {
    if s == [] {
      assert Elements(s) == {};
    } else {
      ElementsBound(s[1..]);
      assert Elements(s) == {s[0]} + Elements(s[1..]);
    }
  }

  lemma {:induction false} DistinctSize<T>(s: seq<T>)
    requires forall i, j :: 0 <= i < j < |s| ==> s[i] != s[j]
    ensures |Elements(s)| == |s|
  {
    if s == [] {
      assert Elements(s) == {};
    } else {
      DistinctSize(s[1..]);
      assert Elements(s) == {s[0]} + Elements(s[1..]);
    }
  }

  lemma SubsetSize<T>(a: set<T>, b: set<T>)
    requires a <= b
    ensures |a| <= |b|
    ensures |a| == |b| ==> a == b
  {
    assert b == a + (b - a);
    if |a| == |b| { assert b - a == {}; }
  }

  /** Fewer than n choices leave one of n positions unchosen. */
  lemma SomeoneLeft(chosen: seq<nat>, n: nat) returns (left: nat)
    requires |chosen| < n
    ensures left < n && left !in chosen
  {
    ElementsBound(chosen);
    RangeSize(n);
    if Range(n) <= Elements(chosen) {
      SubsetSize(Range(n), Elements(chosen));
      assert false;
    }
    left :| left in Range(n) && left !in Elements(chosen);
  }

  /** n different positions below n are all of them. */
  lemma AllMet(met: seq<nat>, n: nat)
    requires |met| == n && (forall i :: 0 <= i < n ==> met[i] < n)
    requires forall i, j :: 0 <= i < j < n ==> met[i] != met[j]
    ensures forall i: nat | i < n :: i in met
  {
    DistinctSize(met);
    RangeSize(n);
    assert Elements(met) <= Range(n);
    SubsetSize(Elements(met), Range(n));
    forall i: nat | i < n ensures i in met {
      assert i in Elements(met);
    }
  }
}
