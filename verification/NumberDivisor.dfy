/** Which quotients terminate: a fraction has a finite decimal expansion exactly when the divisor without
    its factors 2 and 5 divides the dividend. */
module NumberDivisor {
  import opened Decimal

  function Power(b: nat, n: nat): (p: nat)
    ensures b >= 1 ==> p >= 1
  {
    if n == 0 then 1 else b * Power(b, n - 1)
  }

  lemma Smaller(b: nat, d: nat)
    requires b > 1 && d > 0 && d % b == 0
    ensures 0 < d / b < d && d == b * (d / b)
  {
    var x := d / b;
    assert d == b * x;
    if x <= 0 {
      AtLeast(b, -x);
    } else {
      assert b * x == x + (b - 1) * x;
      AtLeast(x, b - 1);
    }
  }

  /** How often b divides d. */
  function Times(b: nat, d: nat): nat
    requires b > 1 && d > 0
    decreases d
  {
    if d % b == 0 then
      Smaller(b, d);
      1 + Times(b, d / b)
    else 0
  }

  /** d divided by b as often as that goes. */
  function Without(b: nat, d: nat): (r: nat)
    requires b > 1 && d > 0
    ensures r > 0 && r % b != 0
    decreases d
  {
    if d % b == 0 then
      Smaller(b, d);
      Without(b, d / b)
    else d
  }

  /** The divisor without its factors 2 and 5. */
  function Rest(d: nat): (r: nat)
    requires d > 0
    ensures r > 0
  {
    Without(5, Without(2, d))
  }

  /** How many decimal places an exact quotient by d may need. */
  function PlacesFor(d: nat): nat
    requires d > 0
  {
    var i, j := Times(2, d), Times(5, Without(2, d));
    if i > j then i else j
  }

  predicate Divides(d: nat, n: int)
    requires d > 0
  {
    n % d == 0
  }

  lemma DividesBy(d: nat, n: int, x: int)
    requires d > 0 && n == d * x
    ensures Divides(d, n) && n / d == x
  {
    DivisionIs(n, d, x, 0);
  }

  lemma QuotientOf(d: nat, n: int)
    requires d > 0 && Divides(d, n)
    ensures n == d * (n / d)
  {
  }

  lemma Regrouped(b: int, p: int, w: int)
    ensures b * (p * w) == b * p * w
  {
  }

  lemma {:induction false} Factored(b: nat, d: nat)
    requires b > 1 && d > 0
    ensures d == Power(b, Times(b, d)) * Without(b, d)
    decreases d
  {
    if d % b == 0 {
      Smaller(b, d);
      Factored(b, d / b);
      Regrouped(b, Power(b, Times(b, d / b)), Without(b, d / b));
    }
  }

  lemma {:induction false} TenIsTwoFives(n: nat)
    ensures Pow10(n) == Power(2, n) * Power(5, n)
  {
    if n > 0 {
      TenIsTwoFives(n - 1);
      var x, y := Power(2, n - 1), Power(5, n - 1);
      assert 10 * (x * y) == (2 * x) * (5 * y);
    }
  }

  lemma PowerAgain(b: nat, m: nat)
    requires m > 0
    ensures Power(b, m) == b * Power(b, m - 1)
  {
  }

  lemma {:induction false} PowerSum(b: nat, m: nat, n: nat)
    ensures Power(b, m + n) == Power(b, m) * Power(b, n)
  {
    if m > 0 {
      PowerSum(b, m - 1, n);
      PowerAgain(b, m);
      PowerAgain(b, m + n);
      hide Power;
      Regrouped(b, Power(b, m - 1), Power(b, n));
    }
  }

  lemma ThreeFactors(d: nat)
    requires d > 0
    ensures d == Power(2, Times(2, d)) * (Power(5, Times(5, Without(2, d))) * Rest(d))
  {
    Factored(2, d);
    Factored(5, Without(2, d));
  }

  /** With places for both factors a quotient by a multiple of the rest is exact. */
  lemma ExactWithPlaces(n: nat, d: nat, k: nat)
    requires d > 0 && k >= PlacesFor(d) && Divides(Rest(d), n)
    ensures Divides(d, n * Pow10(k))
  {
    var i, j := Times(2, d), Times(5, Without(2, d));
    ThreeFactors(d);
    QuotientOf(Rest(d), n);
    TenIsTwoFives(k);
    PowerSum(2, i, k - i);
    PowerSum(5, j, k - j);
    var t, f, r, x, s, g := Power(2, i), Power(5, j), Rest(d), n / Rest(d), Power(2, k - i), Power(5, k - j);
    hide Power, Rest, Times, Without, Pow10;
    Rearranged(t, f, r, x, s, g);
    DividesBy(d, n * Pow10(k), x * (s * g));
  }

  lemma Crossed(a: int, b: int, c: int, d: int)
    ensures (a * b) * (c * d) == (a * c) * (b * d)
  {
    assert (a * b) * (c * d) == a * b * c * d;
    assert (a * c) * (b * d) == a * c * b * d;
  }

  lemma Turned(a: int, b: int, c: int)
    ensures a * (b * c) == c * (a * b)
  {
  }

  lemma Rearranged(t: int, f: int, r: int, x: int, s: int, g: int)
    ensures (r * x) * ((t * s) * (f * g)) == (t * (f * r)) * (x * (s * g))
  {
    Crossed(t, s, f, g);
    Crossed(r, x, t * f, s * g);
    Turned(t, f, r);
  }

  /** A factor that shares nothing with a divisor of 2x or 5x is not needed. */
  lemma CancelTwo(r: nat, x: nat)
    requires r % 2 != 0 && Divides(r, 2 * x)
    ensures Divides(r, x)
  {
    var y := 2 * x / r;
    QuotientOf(r, 2 * x);
    OddTimesOdd(r, y);
    assert r * y == 2 * (r * (y / 2)) by {
      assert y == 2 * (y / 2);
    }
    DividesBy(r, x, y / 2);
  }

  lemma OddTimesOdd(r: int, y: int)
    requires r % 2 != 0 && r * y % 2 == 0
    ensures y % 2 == 0
  {
    var a := r / 2;
    assert r * y == 2 * (a * y) + y by {
      assert r == 2 * a + 1;
    }
  }

  lemma FiveTimes(a: int, b: int, c: int, e: int)
    ensures (5 * a + c) * (5 * b + e) % 5 == c * e % 5
  {
    assert (5 * a + c) * (5 * b + e) == 5 * (5 * a * b + a * e + b * c) + c * e;
  }

  lemma CancelFive(r: nat, x: nat)
    requires r % 5 != 0 && Divides(r, 5 * x)
    ensures Divides(r, x)
  {
    var y := 5 * x / r;
    QuotientOf(r, 5 * x);
    FiveTimes(r / 5, y / 5, r % 5, y % 5);
    assert r * y == (5 * (r / 5) + r % 5) * (5 * (y / 5) + y % 5);
    NoFive(r % 5, y % 5);
    assert y == 5 * (y / 5);
    assert r * y == 5 * (r * (y / 5));
    DividesBy(r, x, y / 5);
  }

  lemma NoFive(c: int, e: int)
    requires 0 < c < 5 && 0 <= e < 5 && c * e % 5 == 0
    ensures e == 0
  {
    if c == 1 {
    } else if c == 2 {
    } else if c == 3 {
    } else {
    }
  }

  lemma {:induction false} CancelTens(r: nat, n: nat, k: nat)
    requires r > 0 && r % 2 != 0 && r % 5 != 0 && Divides(r, n * Pow10(k))
    ensures Divides(r, n)
  {
    if k > 0 {
      var x := n * Pow10(k - 1);
      assert n * Pow10(k) == 2 * (5 * x);
      hide Pow10;
      CancelTwo(r, 5 * x);
      CancelFive(r, x);
      CancelTens(r, n, k - 1);
    }
  }

  lemma RestIsPrimeToTen(d: nat)
    requires d > 0
    ensures Rest(d) % 2 != 0 && Rest(d) % 5 != 0
  {
    var odd := Without(2, d);
    Factored(5, odd);
    var p, r := Power(5, Times(5, odd)), Rest(d);
    hide Power, Without, Rest;
    if r % 2 == 0 {
      EvenFactor(p, r);
    }
  }

  lemma EvenFactor(p: int, r: int)
    requires r % 2 == 0
    ensures p * r % 2 == 0
  {
    assert p * r == 2 * (p * (r / 2)) by {
      assert r == 2 * (r / 2);
    }
  }

  /** A quotient has a finite expansion exactly when the rest of the divisor divides the dividend. */
  lemma FiniteExactly(n: nat, d: nat)
    requires d > 0
    ensures Divides(Rest(d), n) <==> exists k: nat :: Divides(d, n * Pow10(k))
  {
    if Divides(Rest(d), n) {
      ExactWithPlaces(n, d, PlacesFor(d));
    }
    if k: nat :| Divides(d, n * Pow10(k)) {
      FiniteNeedsRest(n, d, k);
    }
  }

  lemma FiniteNeedsRest(n: nat, d: nat, k: nat)
    requires d > 0 && Divides(d, n * Pow10(k))
    ensures Divides(Rest(d), n)
  {
    ThreeFactors(d);
    RestIsPrimeToTen(d);
    QuotientOf(d, n * Pow10(k));
    var t, f, r, x := Power(2, Times(2, d)), Power(5, Times(5, Without(2, d))), Rest(d), n * Pow10(k) / d;
    hide Power, Rest, Times, Without, Pow10;
    Outer(t, f, r, x);
    DividesBy(r, n * Pow10(k), t * f * x);
    CancelTens(r, n, k);
  }

  lemma Outer(t: int, f: int, r: int, x: int)
    ensures t * (f * r) * x == r * (t * f * x)
  {
    assert t * (f * r) == t * f * r;
    assert t * f * r * x == r * (t * f * x);
  }
}
