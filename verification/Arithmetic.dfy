/** Integer facts used by the number-theoretic parts: divisibility, gcd, powers modulo m. */
module Arithmetic {

  lemma MulMonotone(a: int, x: int, y: int)
    requires 0 <= a && x <= y
    ensures a * x <= a * y
  {
  }

  /** The quotient and remainder are the only ones: n = d*q + r with 0 <= r < d. */
  lemma DivModUnique(n: int, d: int, q: int, r: int)
    requires d > 0 && n == d * q + r && 0 <= r < d
    ensures n / d == q && n % d == r
  {
    var k := q - n / d;
    assert d * k == n % d - r;
    if k >= 1 {
      MulMonotone(d, 1, k);
    } else if k <= -1 {
      MulMonotone(d, k, -1);
    }
  }

  lemma DivideTwice(v: nat, a: nat, b: nat)
    requires a > 0 && b > 0
    ensures a * b > 0 && v / a / b == v / (a * b)
  {
    DivideParts(v, a, b, v / a, v % a, v / a / b, v / a % b);
  }

  lemma DivideParts(v: nat, a: nat, b: nat, q: nat, r: nat, k: nat, s: nat)
    requires v == a * q + r && q == b * k + s && r < a && s < b
    ensures a * b > 0 && v / (a * b) == k
  {
    Digits(v, a, b, k, s, r);
    LowDigits(a, b, s, r);
    DivModUnique(v, a * b, k, a * s + r);
  }

  lemma Digits(v: nat, a: nat, b: nat, k: nat, s: nat, r: nat)
    requires v == a * (b * k + s) + r
    ensures v == a * b * k + (a * s + r)
  {
  }

  lemma LowDigits(a: nat, b: nat, s: nat, r: nat)
    requires s < b && r < a
    ensures 0 <= a * s + r < a * b
  {
    MulMonotone(a, s + 1, b);
    MulMonotone(a, 0, s);
    OneMore(a, s);
  }

  lemma OneMore(a: int, s: int)
    ensures a * (s + 1) == a * s + a
  {
  }

  lemma MulMod(d: int, k: int)
    requires d > 0
    ensures (d * k) % d == 0
  {
    DivModUnique(d * k, d, k, 0);
  }

  lemma DividesCombination(d: nat, a: int, b: int, q: int)
    requires d > 0 && a % d == 0 && b % d == 0
    ensures (q * a + b) % d == 0
  {
    var j, k := a / d, b / d;
    assert q * a + b == d * (q * j + k) by {
      assert a == d * j && b == d * k;
      assert q * (d * j) == d * (q * j);
    }
    MulMod(d, q * j + k);
  }

  lemma DividesAtMost(d: nat, n: nat)
    requires d > 0 && n > 0 && n % d == 0
    ensures d <= n
  {
  }

  function Gcd(a: nat, b: nat): nat
    decreases b
  {
    if b == 0 then a else Gcd(b, a % b)
  }

  lemma {:induction false} GcdDivides(a: nat, b: nat)
    requires a + b > 0
    ensures Gcd(a, b) > 0 && a % Gcd(a, b) == 0 && b % Gcd(a, b) == 0
    decreases b
  {
    if b > 0 {
      GcdDivides(b, a % b);
      DividesCombination(Gcd(a, b), b, a % b, a / b);
      assert a == (a / b) * b + a % b;
    } else {
      MulMod(a, 1);
    }
  }

  lemma {:induction false} GcdIsGreatest(a: nat, b: nat, d: nat)
    requires a + b > 0 && d > 0 && a % d == 0 && b % d == 0
    ensures Gcd(a, b) % d == 0
    decreases b
  {
    if b > 0 {
      DividesCombination(d, b, a, -(a / b));
      assert a % b == -(a / b) * b + a;
      GcdIsGreatest(b, a % b, d);
    }
  }

  lemma ModScale(k: nat, a: nat, b: nat)
    requires k > 0 && b > 0
    ensures k * b > 0 && (k * a) % (k * b) == k * (a % b)
  {
    var q, r := a / b, a % b;
    assert a == b * q + r;
    assert k * a == (k * b) * q + k * r by {
      assert k * (b * q + r) == k * (b * q) + k * r;
      assert k * (b * q) == (k * b) * q;
    }
    MulMonotone(k, 1, b);
    assert 0 <= k * r < k * b by {
      MulMonotone(k, 0, r);
      MulMonotone(k, r + 1, b);
    }
    DivModUnique(k * a, k * b, q, k * r);
  }

  lemma {:induction false} GcdScale(k: nat, a: nat, b: nat)
    requires k > 0
    ensures k * a >= 0 && k * b >= 0 && Gcd(k * a, k * b) == k * Gcd(a, b)
    decreases b
  {
    MulMonotone(k, 0, a);
    MulMonotone(k, 0, b);
    if b > 0 {
      ModScale(k, a, b);
      GcdScale(k, b, a % b);
    } else {
      assert k * b == 0;
    }
  }

  /** Gauss: a divisor of a product that shares nothing with one factor divides the other. */
  lemma CoprimeDivides(g: nat, p: nat, q: nat)
    requires g > 0 && p > 0 && q > 0 && Gcd(g, p) == 1 && (p * q) % g == 0
    ensures q % g == 0
  {
    GcdScale(q, g, p);
    MulMod(g, q);
    assert q * g == g * q && q * p == p * q;
    MulMonotone(g, 1, q);
    GcdIsGreatest(q * g, q * p, g);
  }

  ghost predicate Prime(p: nat) {
    p >= 2 && forall d :: 2 <= d < p ==> p % d != 0
  }

  /** Cancelling a common factor on both sides of a divisibility. */
  lemma CancelFactor(p: nat, m: nat, q: nat)
    requires p > 0 && m > 0 && (p * q) % (p * m) == 0
    ensures q % m == 0
  {
    ModScale(p, q, m);
    assert p * (q % m) == 0;
    if q % m > 0 {
      MulMonotone(p, 1, q % m);
    }
  }

  lemma PrimeDivisor(p: nat, d: nat)
    requires Prime(p) && d > 0 && p % d == 0
    ensures d == 1 || d == p
  {
    DividesAtMost(d, p);
  }

  /** The only divisors of a product of two primes are 1, the primes and the product. */
  lemma FourDivisors(p: nat, q: nat, g: nat)
    requires Prime(p) && Prime(q) && g > 0 && (p * q) % g == 0
    ensures g == 1 || g == p || g == q || g == p * q
  {
    assert p >= 2 && q >= 2;
    hide Gcd, Prime;
    var h := Gcd(g, p);
    GcdDivides(g, p);
    PrimeDivisor(p, h);
    if h == 1 {
      CoprimeDivides(g, p, q);
      PrimeDivisor(q, g);
    } else {
      var m := g / p;
      assert g == p * m && m > 0;
      CancelFactor(p, m, q);
      PrimeDivisor(q, m);
    }
  }

  /** gcd(0, n) = n, the value that ends the search when the two walkers meet. */
  lemma GcdZero(n: nat)
    requires n > 0
    ensures Gcd(0, n) == n
  {
    assert 0 % n == 0;
    assert Gcd(n, 0) == n;
  }

  /** Any n+1 values below n repeat. */
  lemma {:induction false} Pigeonhole(s: seq<nat>, n: nat) returns (i: nat, j: nat)
    requires |s| > n && forall k :: 0 <= k < |s| ==> s[k] < n
    ensures i < j < |s| && s[i] == s[j]
    decreases n
  {
    var first := s[0];
    if n == 0 {
      assert false;
    }
    if m :| 0 <= m < |s| && s[m] == n - 1 {
      if l :| 0 <= l < |s| && l != m && s[l] == n - 1 {
        i, j := if l < m then l else m, if l < m then m else l;
      } else {
        i, j := Pigeonhole(s[..m] + s[m + 1..], n - 1);
        i, j := if i < m then i else i + 1, if j < m then j else j + 1;
      }
    } else {
      i, j := Pigeonhole(s, n - 1);
    }
  }

  // Powers and congruences.

  function Pow(b: int, e: nat): int {
    if e == 0 then 1 else b * Pow(b, e - 1)
  }

  lemma {:induction false} PowNonNegative(b: nat, e: nat)
    ensures Pow(b, e) >= 0
  {
    if e > 0 {
      PowNonNegative(b, e - 1);
      MulMonotone(b, 0, Pow(b, e - 1));
    }
  }

  lemma {:induction false} PowAdd(b: int, d: nat, e: nat)
    ensures Pow(b, d + e) == Pow(b, d) * Pow(b, e)
  {
    if d > 0 {
      PowAdd(b, d - 1, e);
      assert b * (Pow(b, d - 1) * Pow(b, e)) == (b * Pow(b, d - 1)) * Pow(b, e);
    }
  }

  lemma {:induction false} PowMul(b: int, d: nat, e: nat)
    ensures 0 <= d * e && Pow(b, d * e) == Pow(Pow(b, d), e)
  {
    if e > 0 {
      PowMul(b, d, e - 1);
      assert d * e == d + d * (e - 1);
      PowAdd(b, d, d * (e - 1));
    } else {
      assert d * e == 0;
    }
  }

  lemma ModAddMultiple(x: int, k: int, m: int)
    requires m > 0
    ensures (x + m * k) % m == x % m
  {
    var q := x / m;
    assert m * (q + k) == m * q + m * k;
    DivModUnique(x + m * k, m, q + k, x % m);
  }

  /** Reducing a factor first does not change a product modulo m. */
  lemma ModMul(a: int, b: int, m: int)
    requires m > 0
    ensures ((a % m) * b) % m == (a * b) % m
  {
    var q, r := a / m, a % m;
    assert a * b == r * b + m * (q * b) by {
      assert (m * q + r) * b == m * q * b + r * b;
      assert m * q * b == m * (q * b);
    }
    ModAddMultiple(r * b, q * b, m);
  }

  lemma ModMulBoth(a: int, b: int, m: int)
    requires m > 0
    ensures ((a % m) * (b % m)) % m == (a * b) % m
  {
    ModMul(a, b % m, m);
    ModMul(b, a, m);
    assert a * (b % m) == (b % m) * a;
  }

  /** Reducing the base first does not change a power modulo m. */
  lemma {:induction false} ModPow(a: int, e: nat, m: int)
    requires m > 0
    ensures Pow(a % m, e) % m == Pow(a, e) % m
  {
    if e > 0 {
      var x, y := Pow(a % m, e - 1), Pow(a, e - 1);
      ModPow(a, e - 1, m);
      ModMul(a, x, m);
      ModMulBoth(a, x, m);
      ModMulBoth(a, y, m);
    }
  }

  /** Subtracting and adding modulo m cancel, with both operands already reduced. */
  lemma ModSubtract(x: int, y: int, m: int)
    requires m > 0
    ensures ((x + y) % m - x % m) % m == y % m
  {
    var k := -((x + y) / m) + x / m;
    assert (x + y) % m - x % m == y + m * k by {
      assert m * k == m * (x / m) - m * ((x + y) / m);
    }
    ModAddMultiple(y, k, m);
  }
}
