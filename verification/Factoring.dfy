/** Splitting the handshake challenge pq (mtproto/probe.go). */
module Factoring {
  import opened Arithmetic
  import opened Bytes
  import opened Wrappers

  function RhoStep(x: nat, c: nat, n: nat): nat
    requires n > 0
  {
    (x * x + c) % n
  }

  /** The value of a walker after i steps from its starting point 2. */
  function Orbit(c: nat, n: nat, i: nat): nat
    requires n > 0
  {
    if i == 0 then 2 else RhoStep(Orbit(c, n, i - 1), c, n)
  }

  function Distance(x: nat, y: nat): nat {
    if x < y then y - x else x - y
  }

  /** The gcd computed in the i-th round, when the walkers are at i and 2i. */
  function GcdAt(c: nat, n: nat, i: nat): nat
    requires n > 0
  {
    Gcd(Distance(Orbit(c, n, i), Orbit(c, n, 2 * i)), n)
  }

  /** Round i is the first one whose gcd is not 1, the round at which the inner loop stops. */
  ghost predicate StopsAt(c: nat, n: nat, i: nat)
    requires n > 0
  {
    && i >= 1
    && GcdAt(c, n, i) != 1
    && forall j :: 1 <= j < i ==> GcdAt(c, n, j) == 1
  }

  /** Constant c makes the search stop on a proper divisor of n. */
  ghost predicate Splits(c: nat, n: nat)
    requires n > 0
  {
    exists i :: StopsAt(c, n, i) && GcdAt(c, n, i) != n
  }

  lemma OrbitInRange(c: nat, n: nat, i: nat)
    requires n >= 3
    ensures Orbit(c, n, i) < n
  {
  }

  lemma {:induction false} OrbitRepeats(c: nat, n: nat, s: nat, t: nat, k: nat)
    requires n > 0 && Orbit(c, n, s) == Orbit(c, n, t)
    ensures Orbit(c, n, s + k) == Orbit(c, n, t + k)
  {
    if k > 0 {
      OrbitRepeats(c, n, s, t, k - 1);
    }
  }

  /** Once a value recurs after p steps, every later value recurs after any number of laps. */
  lemma {:induction false} OrbitPeriodic(c: nat, n: nat, s: nat, p: nat, i: nat, laps: nat)
    requires n > 0 && s <= i && Orbit(c, n, s) == Orbit(c, n, s + p)
    ensures Orbit(c, n, i) == Orbit(c, n, i + laps * p)
  {
    hide Orbit;
    if laps > 0 {
      OrbitPeriodic(c, n, s, p, i, laps - 1);
      var j := i + (laps - 1) * p;
      assert j >= s && i + laps * p == j + p by {
        MulMonotone(p, 0, laps - 1);
      }
      OrbitRepeats(c, n, s, s + p, j - s);
    } else {
      assert laps * p == 0;
    }
  }

  /** The first positive multiple of the period p that is not before s. */
  lemma LapAfter(s: nat, p: nat) returns (laps: nat)
    requires p > 0
    ensures 1 <= laps * p && s <= laps * p <= s + p
  {
    laps := s / p + 1;
    assert laps * p == s - s % p + p;
  }

  /** Floyd's argument: the walkers meet within n rounds. */
  lemma WalkersMeet(c: nat, n: nat) returns (i: nat)
    requires n >= 3
    ensures 1 <= i <= n && Orbit(c, n, i) == Orbit(c, n, 2 * i)
  {
    hide RhoStep;
    var values: seq<nat> := seq(n + 1, k requires 0 <= k => Orbit(c, n, k));
    forall k | 0 <= k < |values| ensures values[k] < n {
      OrbitInRange(c, n, k);
    }
    var s, t := Pigeonhole(values, n);
    assert Orbit(c, n, s) == Orbit(c, n, t) by {
      assert values[s] == Orbit(c, n, s) && values[t] == Orbit(c, n, t);
    }
    var p := t - s;
    var laps := LapAfter(s, p);
    i := laps * p;
    OrbitPeriodic(c, n, s, p, i, laps);
  }

  /** The inner loop stops, and within n rounds, for every c and every n of at least 3. */
  lemma SearchStops(c: nat, n: nat) returns (i: nat)
    requires n >= 3
    ensures 1 <= i <= n && GcdAt(c, n, i) != 1
  {
    i := WalkersMeet(c, n);
    GcdZero(n);
  }

  /** For n = 1 no round ever stops the inner loop: the source's search does not end on that input. */
  lemma SearchNeverStopsAtOne(c: nat, i: nat)
    requires i >= 1
    ensures GcdAt(c, 1, i) == 1
  {
    GcdZero(1);
    assert Orbit(c, 1, i) == 0 && Orbit(c, 1, 2 * i) == 0;
  }

  /** On an odd number, whatever the constant, the inner loop stops exactly when the number is not 1. */
  lemma SearchStopsExactly(c: nat, n: nat)
    requires n % 2 == 1
    ensures (exists i :: StopsAt(c, n, i)) <==> n != 1
  {
    if n == 1 {
      forall i | StopsAt(c, n, i) ensures false {
        SearchNeverStopsAtOne(c, i);
      }
    } else {
      var bound := SearchStops(c, n);
      var i := FirstStop(c, n, 1, bound);
    }
  }

  lemma {:induction false} FirstStop(c: nat, n: nat, from: nat, bound: nat) returns (i: nat)
    requires n > 0 && 1 <= from <= bound && GcdAt(c, n, bound) != 1
    requires forall j :: 1 <= j < from ==> GcdAt(c, n, j) == 1
    ensures StopsAt(c, n, i)
    decreases bound - from
  {
    hide GcdAt;
    if GcdAt(c, n, from) != 1 {
      i := from;
    } else {
      i := FirstStop(c, n, from + 1, bound);
    }
  }

  // Which constants split a product of two primes.

  ghost predicate Meets(c: nat, p: nat, i: nat)
    requires p > 0
  {
    Orbit(c, p, i) == Orbit(c, p, 2 * i)
  }

  /** The walkers modulo p meet for the first time in round i. */
  ghost predicate MeetsFirst(c: nat, p: nat, i: nat)
    requires p > 0
  {
    i >= 1 && Meets(c, p, i) && forall j :: 1 <= j < i ==> !Meets(c, p, j)
  }

  lemma ModOfMod(y: nat, n: nat, p: nat)
    requires n > 0 && p > 0 && n % p == 0
    ensures (y % n) % p == y % p
  {
    var k := n / p;
    assert y == y % n + p * (k * (y / n)) by {
      assert y == n * (y / n) + y % n && n == p * k;
      assert p * k * (y / n) == p * (k * (y / n));
    }
    ModAddMultiple(y % n, k * (y / n), p);
  }

  lemma AddModulo(x: nat, c: nat, p: nat)
    requires p > 0
    ensures (x % p + c) % p == (x + c) % p
  {
    assert x + c == x % p + c + p * (x / p);
    ModAddMultiple(x % p + c, x / p, p);
  }

  lemma StepModulo(x: nat, c: nat, n: nat, p: nat)
    requires n > 0 && p > 0 && n % p == 0
    ensures RhoStep(x, c, n) % p == RhoStep(x % p, c, p)
  {
    var square, reduced := x * x, (x % p) * (x % p);
    ModOfMod(square + c, n, p);
    ModMulBoth(x, x, p);
    AddModulo(square, c, p);
    AddModulo(reduced, c, p);
  }

  /** Reduced modulo a divisor of n, the walk modulo n is the walk modulo the divisor. */
  lemma {:induction false} OrbitModulo(c: nat, n: nat, p: nat, i: nat)
    requires n > 0 && p >= 3 && n % p == 0
    ensures Orbit(c, n, i) % p == Orbit(c, p, i)
  {
    hide RhoStep;
    if i > 0 {
      OrbitModulo(c, n, p, i - 1);
      StepModulo(Orbit(c, n, i - 1), c, n, p);
    }
  }

  lemma MultipleOf(x: nat, y: nat, p: nat)
    requires p > 0 && x % p == y % p
    ensures (x - y) % p == 0
  {
    var k := x / p - y / p;
    assert x - y == p * k;
    MulMod(p, k);
  }

  lemma DifferenceModulo(low: nat, d: nat, p: nat)
    requires p > 0
    ensures d % p == 0 <==> (low + d) % p == low % p
  {
    if d % p == 0 {
      assert d == p * (d / p);
      ModAddMultiple(low, d / p, p);
    } else if (low + d) % p == low % p {
      MultipleOf(low + d, low, p);
    }
  }

  lemma DistanceModulo(x: nat, y: nat, p: nat)
    requires p > 0
    ensures Distance(x, y) % p == 0 <==> x % p == y % p
  {
    DifferenceModulo(if x < y then x else y, Distance(x, y), p);
  }

  lemma Transitive(n: nat, g: nat, p: nat)
    requires g > 0 && p > 0 && n % g == 0 && g % p == 0
    ensures n % p == 0
  {
    DividesCombination(p, g, 0, n / g);
    assert n == (n / g) * g + 0;
  }

  lemma NoPrimeDividesAnother(p: nat, q: nat)
    requires Prime(p) && Prime(q) && p != q
    ensures p % q != 0
  {
    if p % q == 0 {
      PrimeDivisor(p, q);
    }
  }

  /** The gcd with a product of two primes is 1 or the product exactly when neither or both divide. */
  lemma GcdWithProduct(d: nat, p: nat, q: nat)
    requires Prime(p) && Prime(q) && p != q
    ensures p * q > 0
    ensures Gcd(d, p * q) == 1 <==> d % p != 0 && d % q != 0
    ensures Gcd(d, p * q) == p * q <==> d % p == 0 && d % q == 0
  {
    MulMonotone(p, 1, q);
    MulMonotone(q, 2, p);
    MulMonotone(p, 2, q);
    var g := Gcd(d, p * q);
    GcdDivides(d, p * q);
    FourDivisors(p, q, g);
    MulMod(p, q);
    MulMod(q, p);
    assert p * q == q * p;
    if d % p == 0 {
      GcdIsGreatest(d, p * q, p);
    } else if g % p == 0 {
      Transitive(d, g, p);
    }
    if d % q == 0 {
      GcdIsGreatest(d, p * q, q);
    } else if g % q == 0 {
      Transitive(d, g, q);
    }
    NoPrimeDividesAnother(p, q);
    NoPrimeDividesAnother(q, p);
  }

  lemma GcdAtMeets(c: nat, p: nat, q: nat, i: nat)
    requires Prime(p) && Prime(q) && p != q && p >= 3 && q >= 3
    ensures p * q > 0
    ensures GcdAt(c, p * q, i) == 1 <==> !Meets(c, p, i) && !Meets(c, q, i)
    ensures GcdAt(c, p * q, i) == p * q <==> Meets(c, p, i) && Meets(c, q, i)
  {
    hide Prime, Distance, Gcd;
    var n := p * q;
    MulMonotone(p, 1, q);
    MulMod(p, q);
    MulMod(q, p);
    assert n == q * p;
    var x, y := Orbit(c, n, i), Orbit(c, n, 2 * i);
    GcdWithProduct(Distance(x, y), p, q);
    DistanceModulo(x, y, p);
    DistanceModulo(x, y, q);
    OrbitModulo(c, n, p, i);
    OrbitModulo(c, n, p, 2 * i);
    OrbitModulo(c, n, q, i);
    OrbitModulo(c, n, q, 2 * i);
  }

  /** The walkers modulo p and the walkers modulo q first meet in the same round. */
  ghost predicate SameRound(c: nat, p: nat, q: nat)
    requires p > 0 && q > 0
  {
    exists i: nat :: MeetsFirst(c, p, i) && MeetsFirst(c, q, i)
  }

  /** The first round at which either pair meets is the one the search stops at. */
  lemma StopIsFirstMeeting(c: nat, p: nat, q: nat, i: nat)
    requires Prime(p) && Prime(q) && p != q && p >= 3 && q >= 3
    ensures p * q > 0
    ensures StopsAt(c, p * q, i) <==>
              && i >= 1 && (Meets(c, p, i) || Meets(c, q, i))
              && forall j :: 1 <= j < i ==> !Meets(c, p, j) && !Meets(c, q, j)
  {
    hide Prime, GcdAt, Meets;
    GcdAtMeets(c, p, q, i);
    forall j: nat
      ensures GcdAt(c, p * q, j) == 1 <==> !Meets(c, p, j) && !Meets(c, q, j)
    {
      GcdAtMeets(c, p, q, j);
    }
  }

  /**
   * A constant splits a product of two odd primes exactly when the walkers modulo one prime and
   * modulo the other do not meet for the first time in the same round.
   */
  lemma SplitsProduct(c: nat, p: nat, q: nat)
    requires Prime(p) && Prime(q) && p != q && p >= 3 && q >= 3
    ensures p * q > 0
    ensures Splits(c, p * q) <==> !SameRound(c, p, q)
  {
    hide Prime, GcdAt, Meets;
    var n := p * q;
    MulMonotone(p, 3, q);
    var bound := SearchStops(c, n);
    var first := FirstStop(c, n, 1, bound);
    StopIsFirstMeeting(c, p, q, first);
    GcdAtMeets(c, p, q, first);
    if SameRound(c, p, q) {
      var i: nat :| MeetsFirst(c, p, i) && MeetsFirst(c, q, i);
      forall j: nat | StopsAt(c, n, j) ensures GcdAt(c, n, j) == n {
        StopIsFirstMeeting(c, p, q, j);
        assert !(i < j) && !(j < i);
        GcdAtMeets(c, p, q, j);
      }
    } else {
      assert GcdAt(c, n, first) != n by {
        assert !(MeetsFirst(c, p, first) && MeetsFirst(c, q, first));
      }
    }
  }

  /**
   * On the square of a prime the gcd is 1 when the walkers modulo the prime differ, and the
   * square when those modulo it meet.
   */
  lemma GcdAtSquare(c: nat, p: nat, n: nat, i: nat)
    requires Prime(p) && p >= 3 && n == p * p && n >= 3
    ensures GcdAt(c, n, i) == 1 <==> !Meets(c, p, i)
    ensures GcdAt(c, n, i) == n <==> Meets(c, n, i)
    ensures Meets(c, n, i) ==> Meets(c, p, i)
  {
    hide Gcd, Orbit, Distance, Prime;
    MulMod(p, p);
    var x, y := Orbit(c, n, i), Orbit(c, n, 2 * i);
    OrbitInRange(c, n, i);
    OrbitInRange(c, n, 2 * i);
    OrbitModulo(c, n, p, i);
    OrbitModulo(c, n, p, 2 * i);
    DistanceModulo(x, y, p);
    DistanceBelow(x, y, n);
    GcdWithSquare(Distance(x, y), p);
  }

  lemma DistanceBelow(x: nat, y: nat, n: nat)
    requires x < n && y < n
    ensures Distance(x, y) % n == 0 <==> x == y
  {
  }

  lemma GcdWithSquare(d: nat, p: nat)
    requires Prime(p)
    ensures p * p > 0
    ensures Gcd(d, p * p) == 1 <==> d % p != 0
    ensures Gcd(d, p * p) == p * p <==> d % (p * p) == 0
  {
    var n := p * p;
    MulMonotone(p, 2, p);
    MulMod(p, p);
    var g := Gcd(d, n);
    GcdDivides(d, n);
    hide Gcd;
    if d % n == 0 {
      assert n % n == 0;
      GcdIsGreatest(d, n, n);
      DividesAtMost(n, g);
      DividesAtMost(g, n);
    }
    if d % p == 0 {
      GcdIsGreatest(d, n, p);
    } else {
      FourDivisors(p, p, g);
      if g % p == 0 {
        Transitive(d, g, p);
      }
    }
  }

  /**
   * A constant splits the square of an odd prime exactly when the walkers modulo the prime and
   * modulo the square do not meet for the first time in the same round.
   */
  lemma SplitsSquare(c: nat, p: nat)
    requires Prime(p) && p >= 3
    ensures p * p > 0
    ensures Splits(c, p * p) <==> !SameRound(c, p, p * p)
  {
    hide Prime, GcdAt, Meets;
    var n := p * p;
    MulMonotone(p, 3, p);
    var bound := SearchStops(c, n);
    var first := FirstStop(c, n, 1, bound);
    forall j: nat
      ensures GcdAt(c, n, j) == 1 <==> !Meets(c, p, j)
      ensures GcdAt(c, n, j) == n <==> Meets(c, n, j)
      ensures Meets(c, n, j) ==> Meets(c, p, j)
    {
      GcdAtSquare(c, p, n, j);
    }
    assert MeetsFirst(c, p, first);
    forall j: nat | StopsAt(c, n, j) || MeetsFirst(c, p, j) ensures j == first {
      assert !(j < first) && !(first < j);
    }
    if GcdAt(c, n, first) == n {
      assert MeetsFirst(c, n, first);
    }
  }

  /** What decides whether a constant splits a product of two odd primes, equal or not. */
  ghost predicate Separates(c: nat, p: nat, q: nat)
    requires p > 0 && q > 0
  {
    !SameRound(c, p, if p == q then p * q else q)
  }

  lemma NextRound(c: nat, n: nat, i: nat)
    requires n > 0
    ensures Orbit(c, n, i + 1) == RhoStep(Orbit(c, n, i), c, n)
    ensures Orbit(c, n, 2 * (i + 1)) == RhoStep(RhoStep(Orbit(c, n, 2 * i), c, n), c, n)
  {
    assert 2 * (i + 1) == 2 * i + 1 + 1;
    assert Orbit(c, n, 2 * i + 1) == RhoStep(Orbit(c, n, 2 * i), c, n);
  }

  lemma GcdAtDivides(c: nat, n: nat, i: nat)
    requires n > 0
    ensures 0 < GcdAt(c, n, i) <= n && n % GcdAt(c, n, i) == 0
  {
    GcdDivides(Distance(Orbit(c, n, i), Orbit(c, n, 2 * i)), n);
    DividesAtMost(GcdAt(c, n, i), n);
  }

  /** One run of the inner loop; `rounds` counts its iterations. */
  method Search(c: nat, n: nat) returns (d: nat, rounds: nat)
    requires n >= 3
    ensures 1 <= rounds <= n
    ensures StopsAt(c, n, rounds) && d == GcdAt(c, n, rounds)
    ensures 1 < d <= n && n % d == 0
  {
    ghost var meeting := SearchStops(c, n);
    var x, y := 2, 2;
    d, rounds := 1, 0;
    while d == 1
      invariant 0 <= rounds <= meeting
      invariant x == Orbit(c, n, rounds) && y == Orbit(c, n, 2 * rounds)
      invariant rounds == 0 ==> d == 1
      invariant rounds > 0 ==> d == GcdAt(c, n, rounds)
      invariant forall j :: 1 <= j < rounds ==> GcdAt(c, n, j) == 1
      decreases meeting - rounds
    {
      assert rounds < meeting;
      NextRound(c, n, rounds);
      x := RhoStep(x, c, n);
      y := RhoStep(RhoStep(y, c, n), c, n);
      d := Gcd(Distance(x, y), n);
      rounds := rounds + 1;
    }
    GcdAtDivides(c, n, rounds);
  }

  /**
   * pollardRho: n itself when the primality oracle says prime, 2 for even n, otherwise the
   * first proper divisor some constant 1..19 stops on, and nothing when none does.
   */
  method PollardRho(n: nat, probablyPrime: bool) returns (factor: Option<nat>)
    requires n >= 2
    ensures probablyPrime ==> factor == Some(n)
    ensures factor.Some? ==> 1 < factor.value <= n && n % factor.value == 0
    ensures factor == Some(n) ==> probablyPrime || n == 2
    ensures !probablyPrime && n % 2 == 0 ==> factor == Some(2)
    ensures !probablyPrime && n % 2 == 1 ==>
              (factor.Some? <==> exists c :: 1 <= c < 20 && Splits(c, n))
  {
    if probablyPrime {
      return Some(n);
    }
    if n % 2 == 0 {
      return Some(2);
    }
    for c := 1 to 20
      invariant forall k :: 1 <= k < c ==> !Splits(k, n)
    {
      var d, rounds := Search(c, n);
      if d != n {
        assert Splits(c, n);
        return Some(d);
      }
      forall i | StopsAt(c, n, i) ensures i == rounds {
        assert !(i < rounds) && !(rounds < i);
      }
    }
    return None;
  }

  lemma CofactorProper(n: nat, d: nat)
    requires 1 < d < n && n % d == 0
    ensures d * (n / d) == n && 1 < n / d < n
  {
    var q := n / d;
    assert d * q == n;
    if q <= 1 {
      MulMonotone(d, q, 1);
    }
    if q >= n {
      MulMonotone(q, 2, d);
    }
  }

  /**
   * factorPQ, for every challenge other than 1: nothing, or the minimal big-endian numerals
   * of two proper factors in order. Nothing is returned exactly in the listed cases.
   */
  method FactorPQ(pq: seq<byte>, probablyPrime: bool) returns (r: Option<(seq<byte>, seq<byte>)>)
    requires FromBE(pq) != 1
    ensures r.Some? ==>
              var (p, q) := (FromBE(r.value.0), FromBE(r.value.1));
              p * q == FromBE(pq) && 1 < p <= q < FromBE(pq)
    ensures r.Some? ==>
              r.value.0 == BigBytes(FromBE(r.value.0)) && r.value.1 == BigBytes(FromBE(r.value.1))
    ensures r.None? <==>
              var n := FromBE(pq);
              n == 0 || probablyPrime || n == 2 || (n % 2 == 1 && forall c :: 1 <= c < 20 ==> !Splits(c, n))
  {
    var n := FromBE(pq);
    if n == 0 {
      return None;
    }
    var factor := PollardRho(n, probablyPrime);
    if factor.None? || factor.value == n {
      return None;
    }
    var d := factor.value;
    var other := n / d;
    CofactorProper(n, d);
    if other < d {
      assert other * d == n;
      return Some((BigBytes(other), BigBytes(d)));
    }
    return Some((BigBytes(d), BigBytes(other)));
  }

  /** Two numbers above 1 with the product of two primes are these primes. */
  lemma OnlyFactors(p: nat, q: nat, d: nat, e: nat)
    requires Prime(p) && Prime(q) && d > 1 && e > 1 && d * e == p * q
    ensures (d == p && e == q) || (d == q && e == p)
  {
    MulMod(d, e);
    FourDivisors(p, q, d);
    if d == p * q {
      MulMonotone(d, 2, e);
    } else if d == p {
      CancelEqual(p, e, q);
    } else {
      assert p * q == q * p;
      CancelEqual(q, e, p);
    }
  }

  lemma CancelEqual(k: nat, a: nat, b: nat)
    requires k > 0 && k * a == k * b
    ensures a == b
  {
    assert k * (a - b) == 0;
  }

  /**
   * factorPQ on a product of two odd primes that the primality test does not take for a prime:
   * the two primes in order, or nothing exactly when no constant separates their walks.
   */
  method FactorProduct(pq: seq<byte>, ghost p: nat, ghost q: nat) returns (r: Option<(seq<byte>, seq<byte>)>)
    requires Prime(p) && Prime(q) && 3 <= p <= q && FromBE(pq) == p * q
    ensures r.Some? ==> r.value == (BigBytes(p), BigBytes(q))
    ensures r.None? <==> forall c :: 1 <= c < 20 ==> !Separates(c, p, q)
  {
    hide Splits, SameRound, Prime, BigBytes, FromBE;
    MulMonotone(p, 3, q);
    OddProduct(p, q);
    forall c | 1 <= c < 20
      ensures Splits(c, FromBE(pq)) <==> Separates(c, p, q)
    {
      if p == q {
        SplitsSquare(c, p);
      } else {
        SplitsProduct(c, p, q);
      }
    }
    r := FactorPQ(pq, false);
    if r.Some? {
      OnlyFactors(p, q, FromBE(r.value.0), FromBE(r.value.1));
    }
  }

  lemma OddPrime(p: nat)
    requires Prime(p) && p >= 3
    ensures p % 2 == 1
  {
    assert p % 2 != 0;
  }

  lemma OddTimesOdd(j: nat, k: nat)
    ensures (2 * j + 1) * (2 * k + 1) == 1 + 2 * (2 * (j * k) + j + k)
  {
  }

  lemma OddProduct(p: nat, q: nat)
    requires Prime(p) && Prime(q) && p >= 3 && q >= 3
    ensures (p * q) % 2 == 1
  {
    hide Prime;
    OddPrime(p);
    OddPrime(q);
    var j, k := p / 2, q / 2;
    OddTimesOdd(j, k);
    var m := 2 * (j * k) + j + k;
    assert p == 2 * j + 1 && q == 2 * k + 1;
    DivModUnique(p * q, 2, m, 1);
  }

  // What one step computes, and numbers the search never gives up on.

  /** A step squares and adds the constant: differences grow by the factor x + y. */
  lemma StepDifference(x: nat, y: nat, c: nat, n: nat)
    requires n > 0
    ensures (RhoStep(x, c, n) - RhoStep(y, c, n) - (x - y) * (x + y)) % n == 0
    ensures RhoStep(0, c, n) == c % n
  {
    var s, t := x * x + c, y * y + c;
    assert (x - y) * (x + y) == s - t;
    assert s % n == s - n * (s / n) && t % n == t - n * (t / n);
    assert RhoStep(x, c, n) - RhoStep(y, c, n) - (x - y) * (x + y) == n * (t / n - s / n);
    MulMod(n, t / n - s / n);
  }

  /** The first rounds from 2 with constant 1 and 2, before any reduction. */
  lemma FirstValues(c: nat, n: nat)
    requires n > 0
    ensures Orbit(c, n, 1) == (4 + c) % n
    ensures Orbit(c, n, 2) == RhoStep(Orbit(c, n, 1), c, n)
    ensures Orbit(c, n, 3) == RhoStep(Orbit(c, n, 2), c, n)
    ensures Orbit(c, n, 4) == RhoStep(Orbit(c, n, 3), c, n)
  {
    hide RhoStep;
    assert RhoStep(2, c, n) == (4 + c) % n by {
      StepOf(2, c, n);
    }
    assert Orbit(c, n, 1) == RhoStep(Orbit(c, n, 0), c, n);
  }

  lemma StepOf(x: nat, c: nat, n: nat)
    requires n > 0
    ensures RhoStep(x, c, n) == (x * x + c) % n
  {
  }

  /** With constant 1 the first round of a large number has the walkers 21 apart. */
  lemma FirstRound(n: nat)
    requires n > 26
    ensures GcdAt(1, n, 1) == Gcd(21, n)
  {
    hide Gcd, RhoStep;
    FirstValues(1, n);
    StepOf(5, 1, n);
    assert Orbit(1, n, 2 * 1) == 26;
  }

  /** A gcd above 1 in the first round that is not the number itself splits it. */
  lemma FirstRoundSplits(c: nat, n: nat)
    requires n > 0 && GcdAt(c, n, 1) != 1 && GcdAt(c, n, 1) != n
    ensures Splits(c, n)
  {
    hide GcdAt;
    assert StopsAt(c, n, 1);
  }

  /** Every odd multiple of three except three itself is split by one of the first two constants. */
  lemma MultiplesOfThree(n: nat)
    requires n % 2 == 1 && n % 3 == 0 && n > 3
    ensures Splits(1, n) || Splits(2, n)
  {
    hide Gcd, Splits, GcdAt;
    if n > 26 {
      FirstRound(n);
      GcdDivides(21, n);
      GcdIsGreatest(21, n, 3);
      DividesAtMost(Gcd(21, n), 21);
      FirstRoundSplits(1, n);
    } else if n == 9 {
      SmallWalks();
      FirstRoundSplits(1, 9);
    } else if n == 15 {
      SmallWalks();
      FirstRoundSplits(1, 15);
    } else {
      assert n == 21;
      SmallWalks();
      assert StopsAt(2, 21, 2);
      assert Splits(2, 21) by {
        SplitsAt(2, 21, 2);
      }
    }
  }

  lemma SplitsAt(c: nat, n: nat, i: nat)
    requires n > 0 && StopsAt(c, n, i) && GcdAt(c, n, i) != n
    ensures Splits(c, n)
  {
  }

  lemma SmallWalks()
    ensures GcdAt(1, 9, 1) == 3 && GcdAt(1, 15, 1) == 3
    ensures GcdAt(2, 21, 1) == 1 && GcdAt(2, 21, 2) == 3
  {
    hide Gcd, Orbit;
    SmallGcds();
    Walks9();
    Walks15();
    Walks21();
  }

  lemma Walks9()
    ensures Orbit(1, 9, 1) == 5 && Orbit(1, 9, 2 * 1) == 8
  {
    hide RhoStep, Orbit;
    FirstValues(1, 9);
    StepOf(5, 1, 9);
  }

  lemma Walks15()
    ensures Orbit(1, 15, 1) == 5 && Orbit(1, 15, 2 * 1) == 11
  {
    hide RhoStep, Orbit;
    FirstValues(1, 15);
    StepOf(5, 1, 15);
  }

  lemma Walks21()
    ensures Orbit(2, 21, 1) == 6 && Orbit(2, 21, 2) == Orbit(2, 21, 2 * 1) == 17 && Orbit(2, 21, 2 * 2) == 11
  {
    hide RhoStep, Orbit;
    FirstValues(2, 21);
    StepOf(6, 2, 21);
    StepOf(17, 2, 21);
    StepOf(18, 2, 21);
  }

  lemma SmallGcds()
    ensures Gcd(3, 9) == 3 && Gcd(6, 15) == 3 && Gcd(11, 21) == 1 && Gcd(6, 21) == 3
  {
    assert Gcd(3, 0) == 3 && Gcd(1, 0) == 1;
    assert Gcd(9, 3) == 3 && Gcd(6, 3) == 3 && Gcd(10, 1) == 1;
    assert Gcd(3, 9) == 3 && Gcd(15, 6) == 3 && Gcd(11, 10) == 1 && Gcd(21, 6) == 3 && Gcd(21, 11) == 1;
  }

  /** factorPQ on three times an odd prime: always the two primes in order. */
  method FactorTriple(pq: seq<byte>, ghost q: nat) returns (r: Option<(seq<byte>, seq<byte>)>)
    requires Prime(q) && q >= 3 && FromBE(pq) == 3 * q
    ensures r == Some((BigBytes(3), BigBytes(q)))
  {
    hide Splits, BigBytes, FromBE;
    assert Prime(3);
    OddPrime(q);
    MulMod(3, q);
    MultiplesOfThree(3 * q);
    r := FactorPQ(pq, false);
    OnlyFactors(3, q, FromBE(r.value.0), FromBE(r.value.1));
  }

  /** For instance fifteen. */
  method FactorFifteen() returns (r: Option<(seq<byte>, seq<byte>)>)
    ensures r == Some(([3], [5]))
  {
    assert Prime(5);
    assert FromBE([15]) == 15 by {
      assert [15][..0] == [];
    }
    r := FactorTriple([15], 5);
    assert BigBytes(3) == [] + [3] && BigBytes(5) == [] + [5];
  }
}
