/** The balancers: which member a walk over the pool ends at, and when it is sure to end at an available one. */
module Balance {
  import opened Lookups
  import opened Cyclic

  /** A resolver from the outside: a plain one, a decorator that can be unwrapped, or a circuit breaker. */
  datatype Resolver = Leaf | Wrapper(inner: Resolver) | Guard(accepts: bool, inner: Resolver)

  /** The first breaker met from the outside. */
  function Outer(r: Resolver): (breaker: Option<Resolver>)
    ensures breaker.Some? ==> breaker.value.Guard?
  {
    match r
    case Leaf => None
    case Wrapper(inner) => Outer(inner)
    case Guard(_, _) => Some(r)
  }

  /** The last one, which no other breaker is inside of. */
  function Inner(r: Resolver): (breaker: Option<Resolver>)
    ensures breaker.Some? ==> breaker.value.Guard?
  {
    match r
    case Leaf => None
    case Wrapper(inner) => Inner(inner)
    case Guard(_, inner) => if Inner(inner).Some? then Inner(inner) else Some(r)
  }

  function Guards(r: Resolver): nat {
    match r
    case Leaf => 0
    case Wrapper(inner) => Guards(inner)
    case Guard(_, inner) => 1 + Guards(inner)
  }

  /** What a balancer hears about a member: nothing, or whether its breaker accepts. */
  function Verdict(r: Resolver): Option<bool> {
    if Outer(r).Some? then Some(Outer(r).value.accepts) else None
  }

  predicate Available(r: Resolver) {
    Verdict(r) != Some(false)
  }

  method FindBreaker(resolver: Resolver) returns (breaker: Option<Resolver>)
    ensures breaker == Outer(resolver)
  {
    var r := resolver;
    while true
      invariant Outer(r) == Outer(resolver)
      decreases r
    {
      match r
      case Guard(_, _) => return Some(r);
      case Wrapper(inner) => r := inner;
      case Leaf => return None;
    }
  }

  lemma {:induction false} BreakersFound(r: Resolver)
    ensures Outer(r).Some? <==> Guards(r) > 0
    ensures Inner(r).Some? <==> Guards(r) > 0
    ensures Outer(r).Some? ==> Guards(Outer(r).value) == Guards(r)
    ensures Inner(r).Some? ==> Guards(Inner(r).value) == 1
  {
    match r
    case Leaf =>
    case Wrapper(inner) => BreakersFound(inner);
    case Guard(_, inner) => BreakersFound(inner);
  }

  /** The breaker found is the innermost one, as the code's comment promises, exactly if there are no two. */
  lemma {:induction false} InnermostExactly(r: Resolver)
    ensures Outer(r) == Inner(r) <==> Guards(r) <= 1
  {
    BreakersFound(r);
    match r
    case Leaf =>
    case Wrapper(inner) => InnermostExactly(inner);
    case Guard(_, inner) => BreakersFound(inner);
  }

  /** A breaker that does not accept, around a resolver whose innermost one does: the balancer passes it over. */
  lemma OutermostDecides(r: Resolver)
    requires Inner(r).Some? && Inner(r).value.accepts
    ensures var wrapped := Guard(false, r);
            Outer(wrapped) != Inner(wrapped) && Inner(wrapped).value.accepts && !Available(wrapped)
  {
    BreakersFound(r);
    InnermostExactly(Guard(false, r));
  }

  ghost predicate AnyAvailable(members: seq<Resolver>) {
    exists i :: 0 <= i < |members| && Available(members[i])
  }

  /** Walking the positions in order, i is where the walk stops: the first available member, or the last position. */
  ghost predicate StopsAt(members: seq<Resolver>, walk: seq<nat>, i: nat) {
    exists k: nat :: k < |walk| && walk[k] == i && StopsAfter(members, walk, k)
  }

  ghost predicate StopsAfter(members: seq<Resolver>, walk: seq<nat>, k: nat)
    requires k < |walk|
  {
    && (forall j: nat | j < k :: walk[j] < |members| && !Available(members[walk[j]]))
    && walk[k] < |members|
    && (Available(members[walk[k]]) || k == |walk| - 1)
  }

  function LinearWalk(start: nat, n: nat): (walk: seq<nat>)
    requires n > 0
    ensures |walk| == n
  {
    seq(n, k requires 0 <= k < n => Position(start, k, n))
  }

  /** The position after steps of 0, 1, 2, … on a circle of n. */
  function TrianglePosition(start: nat, k: nat, n: nat): (i: nat)
    requires n > 0
    ensures i < n
  {
    if k == 0 then Rem(start, n) else Rem(TrianglePosition(start, k - 1, n) + k, n)
  }

  function TriangleWalk(start: nat, n: nat): (walk: seq<nat>)
    requires n > 0
    ensures |walk| == n
  {
    seq(n, k requires 0 <= k < n => TrianglePosition(start, k, n))
  }

  class RoundRobinBalancer {
    var idx: nat

    constructor ()
      ensures idx == 0
    {
      idx := 0;
    }

    method Choose(members: seq<Resolver>) returns (chosen: Option<nat>)
      modifies this
      ensures idx == old(idx) + (if members == [] then 0 else 1)
      ensures chosen.None? <==> members == []
      ensures chosen.Some? ==> Takes(members, old(idx), chosen.value)
    {
      var n := |members|;
      if n == 0 { return None; }
      var i := 0;
      hide Position, Rem, Outer;
      var start := Rem(idx, n);
      idx := idx + 1;
      ghost var walk := LinearWalk(start, n);
      var at := 0;
      while i < n
        invariant 0 <= i <= n
        invariant forall j: nat | j < i :: !Available(members[walk[j]])
        invariant i > 0 ==> at == walk[i - 1]
        invariant idx == old(idx) + 1
      {
        at := Position(start, i, n);
        var breaker := FindBreaker(members[at]);
        if breaker.None? || breaker.value.accepts {
          assert StopsAfter(members, walk, i);
          break;
        }
        i := i + 1;
      }
      assert i == n ==> StopsAfter(members, walk, n - 1);
      chosen := Some(at);
    }
  }

  class RandomBalancer {
    /** `random` is the draw below the number of members. */
    method Choose(members: seq<Resolver>, random: nat) returns (chosen: Option<nat>)
      requires members != [] ==> random < |members|
      ensures chosen.None? <==> members == []
      ensures chosen.Some? ==> StopsAt(members, TriangleWalk(random, |members|), chosen.value)
    {
      var n := |members|;
      if n == 0 { return None; }
      var at := Rem(random, n);
      ghost var walk := TriangleWalk(random, n);
      RemSmall(random, n);
      hide Rem, Outer;
      var i := 0;
      while i < n
        invariant 0 <= i <= n
        invariant at == if i == 0 then random else TrianglePosition(random, i - 1, n)
        invariant forall j: nat | j < i :: !Available(members[walk[j]])
      {
        at := Rem(at + i, n);
        assert at == TrianglePosition(random, i, n) == walk[i];
        var breaker := FindBreaker(members[at]);
        if breaker.None? || breaker.value.accepts {
          assert StopsAfter(members, walk, i);
          break;
        }
        i := i + 1;
      }
      assert i == n ==> StopsAfter(members, walk, n - 1);
      chosen := Some(at);
    }
  }

  /** Where a walk stops is settled: at most one member is chosen. */
  lemma StopsOnce(members: seq<Resolver>, walk: seq<nat>, i: nat, j: nat)
    requires StopsAt(members, walk, i) && StopsAt(members, walk, j)
    ensures i == j
  {
    var k: nat :| k < |walk| && walk[k] == i && StopsAfter(members, walk, k);
    var l: nat :| l < |walk| && walk[l] == j && StopsAfter(members, walk, l);
  }

  /** A walk that meets an available member stops at an available one. */
  lemma MeetsAvailable(members: seq<Resolver>, walk: seq<nat>, i: nat, chosen: nat)
    requires StopsAt(members, walk, chosen)
    requires i < |members| && Available(members[i]) && i in walk
    ensures chosen < |members| && Available(members[chosen])
  {
    var m :| 0 <= m < |walk| && walk[m] == i;
    var k: nat :| k < |walk| && walk[k] == chosen && StopsAfter(members, walk, k);
  }

  /** Round robin always finds an available member, and takes the one its ticket names when that is available. */
  lemma RoundRobinFinds(members: seq<Resolver>, ticket: nat, chosen: nat)
    requires |members| > 0 && StopsAt(members, LinearWalk(Rem(ticket, |members|), |members|), chosen)
    ensures chosen < |members|
    ensures AnyAvailable(members) ==> Available(members[chosen])
    ensures Available(members[Rem(ticket, |members|)]) ==> chosen == Rem(ticket, |members|)
  {
    var n := |members|;
    var walk := LinearWalk(Rem(ticket, n), n);
    RemSmall(Rem(ticket, n), n);
    assert walk[0] == Rem(ticket, n);
    var k: nat :| k < |walk| && walk[k] == chosen && StopsAfter(members, walk, k);
    if AnyAvailable(members) {
      var i :| 0 <= i < |members| && Available(members[i]);
      OffsetMeets(Rem(ticket, n), i, n);
      assert walk[OffsetOf(Rem(ticket, n), i, n)] == i;
      MeetsAvailable(members, walk, i, chosen);
    }
  }

  /** The member j steps after the ticket's own does not accept. */
  predicate PassedOver(members: seq<Resolver>, ticket: nat, j: nat)
    requires |members| > 0
  {
    !Available(members[(ticket % |members| + j) % |members|])
  }

  lemma LinearAt(ticket: nat, j: nat, n: nat)
    requires j < n
    ensures LinearWalk(Rem(ticket, n), n)[j] == (ticket % n + j) % n
  {
  }

  /** The choice is the first available member from the ticket's own on, cyclically, else the one before it. */
  lemma RoundRobinOrder(members: seq<Resolver>, ticket: nat, chosen: nat) returns (k: nat)
    requires Takes(members, ticket, chosen)
    ensures var n := |members|;
      && k < n && chosen == (ticket % n + k) % n && (!PassedOver(members, ticket, k) || k == n - 1)
      && forall j: nat | j < k :: PassedOver(members, ticket, j)
  {
    hide Available, LinearWalk, Rem;
    var n := |members|;
    var walk := LinearWalk(Rem(ticket, n), n);
    k :| k < |walk| && walk[k] == chosen && StopsAfter(members, walk, k);
    LinearAt(ticket, k, n);
    forall j: nat | j < k ensures PassedOver(members, ticket, j) { LinearAt(ticket, j, n); }
  }

  // ---- Triangular probing

  function Triangle(k: nat): nat {
    if k == 0 then 0 else Triangle(k - 1) + k
  }

  lemma {:induction false} TriangleDoubled(k: nat)
    ensures 2 * Triangle(k) == Prod(k, k + 1)
  {
    if k > 0 {
      TriangleDoubled(k - 1);
      assert k * (k + 1) == (k - 1) * k + 2 * k;
    }
  }

  lemma {:induction false} TrianglePositionIs(start: nat, k: nat, n: nat)
    requires n > 0
    ensures TrianglePosition(start, k, n) == Rem(start + Triangle(k), n)
  {
    hide Rem;
    if k > 0 {
      TrianglePositionIs(start, k - 1, n);
      RemReduced(start + Triangle(k - 1), k, n);
      assert start + Triangle(k - 1) + k == start + Triangle(k);
    }
  }

  /** The member j triangular steps after the start does not accept. */
  predicate TriangleOver(members: seq<Resolver>, start: nat, j: nat)
    requires |members| > 0
  {
    !Available(members[(start + Triangle(j)) % |members|])
  }

  lemma TriangleAt(start: nat, j: nat, n: nat)
    requires j < n
    ensures TriangleWalk(start, n)[j] == (start + Triangle(j)) % n
  {
    TrianglePositionIs(start, j, n);
  }

  /** The random choice is the first available one of start, start + 1, start + 3, start + 6, …, else the last. */
  lemma RandomOrder(members: seq<Resolver>, start: nat, chosen: nat) returns (k: nat)
    requires start < |members| && StopsAt(members, TriangleWalk(start, |members|), chosen)
    ensures var n := |members|;
      && k < n && chosen == (start + Triangle(k)) % n && (!TriangleOver(members, start, k) || k == n - 1)
      && forall j: nat | j < k :: TriangleOver(members, start, j)
  {
    hide Available, TriangleWalk, Triangle;
    var n := |members|;
    var walk := TriangleWalk(start, n);
    k :| k < |walk| && walk[k] == chosen && StopsAfter(members, walk, k);
    TriangleAt(start, k, n);
    forall j: nat | j < k ensures TriangleOver(members, start, j) { TriangleAt(start, j, n); }
  }

  predicate PowerOfTwo(n: nat) {
    n == 1 || (n > 0 && n % 2 == 0 && PowerOfTwo(n / 2))
  }

  lemma PowerDoubles(n: nat)
    requires PowerOfTwo(n)
    ensures n > 0 && PowerOfTwo(2 * n)
  {
    assert 2 * n / 2 == n;
  }

  lemma OddTimesOdd(a: int, b: int)
    requires a % 2 == 1 && b % 2 == 1
    ensures Prod(a, b) % 2 == 1
  {
    var x, y := a / 2, b / 2;
    assert (2 * x + 1) * (2 * y + 1) == 2 * (2 * (x * y) + x + y) + 1;
  }

  /** A power of two that divides a product with an odd factor divides the other factor. */
  lemma {:induction false} OddFactorDropped(n: nat, a: int, b: int, q: int) returns (m: int)
    requires PowerOfTwo(n) && b % 2 == 1 && Prod(a, b) == Prod(q, n)
    ensures a == Prod(m, n)
  {
    hide Prod;
    if n == 1 {
      m := a;
      ProdLaws(1, a, 0);
    } else {
      var half, a' := n / 2, a / 2;
      ProdLaws(half, q, 0);
      ProdLaws(2 * half, q, 0);
      if a % 2 == 1 { OddTimesOdd(a, b); }
      ProdLaws(a', b, 0);
      m := OddFactorDropped(half, a', b, q);
      ProdLaws(half, m, 0);
      ProdLaws(2 * half, m, 0);
    }
  }

  lemma DifferenceFactors(i: int, j: int)
    ensures Prod(j - i, j + i + 1) == Prod(j, j + 1) - Prod(i, i + 1)
  {
    assert (j - i) * (j + i + 1) == j * (j + 1) - i * (i + 1);
  }

  /** Twice the distance of two triangular numbers is a product of an odd and an even factor. */
  lemma TriangleDifference(i: nat, j: nat)
    ensures 2 * (Triangle(j) - Triangle(i)) == Prod(j - i, j + i + 1)
  {
    TriangleDoubled(i);
    TriangleDoubled(j);
    DifferenceFactors(i, j);
  }

  lemma Congruent(x: nat, y: nat, n: nat) returns (q: int)
    requires n > 0 && Rem(x, n) == Rem(y, n)
    ensures y - x == Prod(q, n)
  {
    hide Prod, Quo, Rem;
    Decompose(x, n);
    Decompose(y, n);
    q := Quo(y, n) - Quo(x, n);
    ProdLaws(q, n, Quo(x, n));
  }

  /** On a circle of a power of two, the triangular walk never meets a position twice. */
  lemma TriangleDistinct(start: nat, n: nat, i: nat, j: nat)
    requires PowerOfTwo(n) && i < j < n
    ensures n > 0 && TrianglePosition(start, i, n) != TrianglePosition(start, j, n)
  {
    hide Prod, Rem, TrianglePosition, Triangle, PowerOfTwo;
    PowerDoubles(n);
    if TrianglePosition(start, i, n) == TrianglePosition(start, j, n) {
      TrianglePositionIs(start, i, n);
      TrianglePositionIs(start, j, n);
      var q := Congruent(start + Triangle(i), start + Triangle(j), n);
      TriangleDifference(i, j);
      ProdLaws(n, q, 0);
      ProdLaws(2 * n, q, 0);
      FactorReaches(j - i, j + i + 1, q, 2 * n);
    }
  }

  /** If a power of two divides the product of an odd and an even number, the even one is no smaller. */
  lemma FactorReaches(a: nat, b: nat, q: int, n: nat)
    requires PowerOfTwo(n) && a > 0 && b > 0 && (a + b) % 2 == 1 && Prod(a, b) == Prod(q, n)
    ensures a >= n || b >= n
  {
    hide Prod;
    ProdLaws(a, b, 0);
    var m: int;
    if a % 2 == 1 {
      m := OddFactorDropped(n, b, a, q);
    } else {
      m := OddFactorDropped(n, a, b, q);
    }
    PositiveMultiple(m, n);
  }

  /** In this pool and from this start, an available member is chosen if there is one. */
  ghost predicate Finds(members: seq<Resolver>, start: nat, chosen: nat) {
    start < |members| && AnyAvailable(members) && StopsAt(members, TriangleWalk(start, |members|), chosen) ==>
      chosen < |members| && Available(members[chosen])
  }

  ghost predicate AlwaysFinds(n: nat) {
    forall members: seq<Resolver>, start: nat, chosen: nat :: |members| == n ==> Finds(members, start, chosen)
  }

  lemma PowerOfTwoMeets(members: seq<Resolver>, start: nat, chosen: nat)
    requires PowerOfTwo(|members|)
    ensures Finds(members, start, chosen)
  {
    hide PowerOfTwo, TrianglePosition, StopsAt;
    var n := |members|;
    if start < n && AnyAvailable(members) && StopsAt(members, TriangleWalk(start, n), chosen) {
      var walk := TriangleWalk(start, n);
      forall i, j | 0 <= i < j < n ensures walk[i] != walk[j] { TriangleDistinct(start, n, i, j); }
      AllMet(walk, n);
      var i :| 0 <= i < |members| && Available(members[i]);
      MeetsAvailable(members, walk, i, chosen);
    }
  }

  lemma PowerOfTwoFinds(n: nat)
    requires PowerOfTwo(n)
    ensures AlwaysFinds(n)
  {
    hide PowerOfTwo, Finds;
    forall members: seq<Resolver>, start: nat, chosen: nat | |members| == n ensures Finds(members, start, chosen) {
      PowerOfTwoMeets(members, start, chosen);
    }
  }

  /** What is not a power of two has an odd factor above one. */
  lemma {:induction false} OddFactor(n: nat) returns (p: nat, m: nat)
    requires n > 0 && !PowerOfTwo(n)
    ensures p > 1 && p % 2 == 1 && m > 0 && n == Prod(m, p)
  {
    hide Prod;
    if n % 2 == 1 {
      p, m := n, 1;
      ProdLaws(0, n, 0);
    } else {
      p, m := OddFactor(n / 2);
      ProdLaws(m, p, 0);
      m := 2 * m;
    }
  }

  lemma {:induction false} TriangleShift(i: nat, p: nat)
    ensures Triangle(i + p) == Triangle(i) + Prod(i, p) + Triangle(p)
  {
    hide Prod;
    ProdLaws(i - 1, p, 1);
    if i > 0 { TriangleShift(i - 1, p); }
  }

  /** The triangular numbers at an odd p and just below it are multiples of p. */
  lemma TriangleAtOdd(p: nat) returns (h: nat)
    requires p % 2 == 1
    ensures p == 2 * h + 1 && Triangle(p) == Prod(h + 1, p) && Triangle(p - 1) == Prod(h, p)
  {
    hide Prod;
    h := p / 2;
    TriangleDoubled(p - 1);
    ProdLaws(h, p, 1);
  }

  /** Modulo an odd p the triangular numbers repeat with period p. */
  lemma {:induction false} TrianglePeriod(i: nat, p: nat)
    requires p % 2 == 1
    ensures Rem(Triangle(i), p) == Rem(Triangle(Rem(i, p)), p)
  {
    hide Prod, Rem;
    if i < p {
      RemSmall(i, p);
    } else {
      hide Triangle;
      var k := i - p;
      TrianglePeriod(k, p);
      TriangleShift(k, p);
      var h := TriangleAtOdd(p);
      ProdLaws(k, p, h + 1);
      RemTurns(Triangle(k), k + h + 1, p);
      ProdLaws(0, p, 0);
      RemTurns(k, 1, p);
    }
  }

  /** The last of a period repeats the first, so p - 1 of them give all residues. */
  lemma EarlierResidue(i: nat, p: nat) returns (k: nat)
    requires p > 1 && p % 2 == 1
    ensures k < p - 1 && Rem(Triangle(i), p) == Rem(Triangle(k), p)
  {
    hide Prod, Rem, Triangle;
    TrianglePeriod(i, p);
    k := Rem(i, p);
    if k == p - 1 {
      var h := TriangleAtOdd(p);
      RemTurns(0, h, p);
      k := 0;
      assert Triangle(0) == 0 by { TriangleDoubled(0); ProdLaws(0, 1, 0); }
    }
  }

  /** So they miss a residue. */
  lemma MissedResidue(p: nat) returns (r: nat)
    requires p > 1 && p % 2 == 1
    ensures r < p && forall i: nat :: Rem(Triangle(i), p) != r
  {
    hide Rem, Triangle;
    var residues := seq(p - 1, k requires 0 <= k < p - 1 => Rem(Triangle(k), p));
    r := SomeoneLeft(residues, p);
    forall i: nat ensures Rem(Triangle(i), p) != r {
      var k := EarlierResidue(i, p);
      assert residues[k] == Rem(Triangle(k), p);
    }
  }

  /** Reducing by a multiple of p first does not change the remainder by p. */
  lemma RemOfRem(x: int, m: nat, p: nat)
    requires p > 0 && m > 0 && Prod(m, p) > 0
    ensures Rem(Rem(x, Prod(m, p)), p) == Rem(x, p)
  {
    hide Prod, Rem, Quo;
    var n := Prod(m, p);
    Decompose(x, n);
    var q := Quo(x, n);
    ProdRegroup(q, m, p);
    ProdLaws(m, p, 0);
    ProdLaws(Prod(q, p), m, 0);
    ProdRegroup(q, p, m);
    ProdLaws(Prod(q, m), p, 0);
    RemTurns(Rem(x, n), Prod(q, m), p);
  }

  /** Any other size has a position that no walk from 0 meets, so a pool available only there is not served. */
  lemma OtherSizesMiss(n: nat)
    requires n > 0 && !PowerOfTwo(n)
    ensures !AlwaysFinds(n)
  {
    hide Prod, Rem, Triangle, TrianglePosition;
    var p, m := OddFactor(n);
    var r := MissedResidue(p);
    PositiveMultiple(m, p);
    var members := seq(n, i => if i == r then Leaf else Guard(false, Leaf));
    var walk := TriangleWalk(0, n);
    forall k: nat | k < n ensures !Available(members[walk[k]]) {
      TrianglePositionIs(0, k, n);
      RemOfRem(Triangle(k), m, p);
      RemSmall(r, p);
    }
    assert Available(members[r]);
    assert StopsAfter(members, walk, n - 1) && StopsAt(members, walk, walk[n - 1]);
    assert !Finds(members, 0, walk[n - 1]);
  }

  /** The random balancer is sure to find an available member exactly when the pool's size is a power of two. */
  lemma RandomFindsExactly(n: nat)
    requires n > 0
    ensures AlwaysFinds(n) <==> PowerOfTwo(n)
  {
    if PowerOfTwo(n) { PowerOfTwoFinds(n); } else { OtherSizesMiss(n); }
  }

  /** With three members the walk from 0 meets 0 and 1 only. */
  lemma ThreeMissesOne()
    ensures TriangleWalk(0, 3) == [0, 1, 0]
  {
    hide Rem, Prod;
    RemSmall(0, 3);
    RemSmall(1, 3);
    RemQuoIs(1, 0, 3);
    ProdLaws(0, 3, 0);
    assert TrianglePosition(0, 1, 3) == Rem(TrianglePosition(0, 0, 3) + 1, 3) == 1;
    assert TrianglePosition(0, 2, 3) == Rem(TrianglePosition(0, 1, 3) + 2, 3) == 0;
  }

  // ---- Fairness of the tickets

  /** How many of the tickets below x name member i. */
  function Named(x: nat, n: nat, i: nat): nat
    requires n > 0
  {
    if x == 0 then 0 else Named(x - 1, n, i) + if Rem(x - 1, n) == i then 1 else 0
  }

  lemma {:induction false} NamedIs(q: nat, r: nat, n: nat, i: nat, x: nat)
    requires i < n && r < n && x == Prod(q, n) + r
    ensures Named(x, n, i) == q + if i < r then 1 else 0
    decreases q, r
  {
    hide Prod, Rem;
    ProdLaws(q - 1, n, 1);
    ProdNonNegative(q, n);
    if q > 0 { ProdNonNegative(q - 1, n); }
    if r > 0 {
      NamedIs(q, r - 1, n, i, x - 1);
      RemQuoIs(q, r - 1, n);
    } else if q > 0 {
      RemQuoIs(q - 1, n - 1, n);
      NamedIs(q - 1, n - 1, n, i, x - 1);
    }
  }

  /** Of any m successive tickets every member gets floor(m / n) or ceil(m / n). */
  lemma TicketsFair(first: nat, m: nat, n: nat, i: nat)
    requires i < n
    ensures var share := Named(first + m, n, i) - Named(first, n, i);
            share == Quo(m, n) || (Rem(m, n) != 0 && share == Quo(m, n) + 1)
  {
    hide Prod, Rem, Quo, Named;
    Decompose(first, n);
    Decompose(m, n);
    var a, b, c, d := Quo(first, n), Rem(first, n), Quo(m, n), Rem(m, n);
    NamedIs(a, b, n, i, first);
    ProdLaws(a, n, c);
    ProdLaws(a + c, n, 1);
    if b + d < n {
      NamedIs(a + c, b + d, n, i, first + m);
    } else {
      NamedIs(a + c + 1, b + d - n, n, i, first + m);
    }
  }

  /** The member that round robin takes for a ticket. */
  ghost predicate Takes(members: seq<Resolver>, ticket: nat, i: nat) {
    |members| > 0 && StopsAt(members, LinearWalk(Rem(ticket, |members|), |members|), i)
  }

  function Count(choices: seq<nat>, i: nat): nat {
    if choices == [] then 0 else Count(choices[..|choices| - 1], i) + if choices[|choices| - 1] == i then 1 else 0
  }

  /** Choice k was made with the k-th ticket from `first`, among n members that all were available then. */
  ghost predicate AllFree(pools: nat -> seq<Resolver>, first: nat, choices: seq<nat>, n: nat) {
    n > 0 && forall k: nat :: k < |choices| ==> Served(pools(k), first + k, choices[k], n)
  }

  ghost predicate Served(members: seq<Resolver>, ticket: nat, choice: nat, n: nat) {
    && |members| == n && Takes(members, ticket, choice)
    && forall i :: 0 <= i < n ==> Available(members[i])
  }

  lemma {:induction false} ChoicesAreTickets(
    pools: nat -> seq<Resolver>, first: nat, choices: seq<nat>, n: nat, i: nat)
    requires AllFree(pools, first, choices, n)
    ensures Count(choices, i) == Named(first + |choices|, n, i) - Named(first, n, i)
  {
    hide Rem, Served;
    if choices != [] {
      var k := |choices| - 1;
      var before := choices[..k];
      assert forall j: nat | j < k :: before[j] == choices[j];
      ChoicesAreTickets(pools, first, before, n, i);
      OwnTicket(pools(k), first + k, choices[k], n);
    }
  }

  lemma OwnTicket(members: seq<Resolver>, ticket: nat, choice: nat, n: nat)
    requires n > 0 && Served(members, ticket, choice, n)
    ensures choice == Rem(ticket, n)
  {
    hide LinearWalk, StopsAt;
    RoundRobinFinds(members, ticket, choice);
  }

  /** While every member is available, any m successive choices take each of them floor(m / n) or ceil(m / n) times. */
  lemma ChoicesFair(pools: nat -> seq<Resolver>, first: nat, choices: seq<nat>, n: nat, i: nat)
    requires AllFree(pools, first, choices, n) && i < n
    ensures var m, times := |choices|, Count(choices, i);
            times == Quo(m, n) || (Rem(m, n) != 0 && times == Quo(m, n) + 1)
  {
    hide Rem, Quo, Named, Served;
    ChoicesAreTickets(pools, first, choices, n, i);
    TicketsFair(first, |choices|, n, i);
  }
}
