/** What division promises: one result for each pair of operands, never more than a last digit away from
    the quotient, and exact under a condition that can be told beforehand. */
module NumberPrecision {
  import opened Decimal
  import opened NumberText
  import opened NumberOrder
  import opened NumberDivisor
  import opened NumberQuotient

  // ---- further places ----

  /** Every place after a significant digit is significant. */
  lemma {:induction false} LengthGrows(n: nat, d: nat, k: nat, j: nat)
    requires d > 0 && Cut(n, d, k) > 0
    ensures Cut(n, d, k + j) > 0 && Length(Cut(n, d, k + j)) == Length(Cut(n, d, k)) + j
  {
    if j > 0 {
      LengthGrows(n, d, k, j - 1);
      hide Cut, Left;
      NextPlace(n, d, k + j - 1);
      DigitMore(Cut(n, d, k + j - 1), Left(n, d, k + j - 1) * 10 / d);
    }
  }

  lemma DigitMore(n: nat, v: nat)
    requires n > 0 && v <= 9
    ensures Length(n * 10 + v) == Length(n) + 1
  {
    assert (n * 10 + v) / 10 == n;
  }

  /** Once nothing is left, only zeros follow. */
  lemma {:induction false} ExactStays(n: nat, d: nat, k: nat, j: nat)
    requires d > 0 && Left(n, d, k) == 0
    ensures Left(n, d, k + j) == 0 && Cut(n, d, k + j) == Cut(n, d, k) * Pow10(j)
  {
    if j > 0 {
      ExactStays(n, d, k, j - 1);
      var c := Cut(n, d, k);
      hide Cut, Left;
      NextPlace(n, d, k + j - 1);
      DivisionIs(0, d, 0, 0);
      Regroup(c, Pow10(j - 1));
    }
  }

  lemma SignedScales(negative: bool, c: int, k: nat, j: nat)
    ensures Text(Signed(negative, c * Pow10(j)), k + j) == Text(Signed(negative, c), k)
  {
    hide Pow10, Canon, Join;
    CanonScales(Signed(negative, c), k, j);
    Minus(c, Pow10(j));
  }

  // ---- one result ----

  /** Two places to stop give the same text. */
  lemma StopsOnce(n: nat, d: nat, wanted: nat, negative: bool, k: nat, j: nat)
    requires d > 0 && StopsAt(n, d, wanted, k) && StopsAt(n, d, wanted, k + j)
    ensures Text(Signed(negative, Cut(n, d, k)), k) == Text(Signed(negative, Cut(n, d, k + j)), k + j)
  {
    hide Cut, Left, Text, TerminatesInTime, Pow10;
    if Left(n, d, k) == 0 {
      ExactStays(n, d, k, j);
      SignedScales(negative, Cut(n, d, k), k, j);
    } else if Cut(n, d, k) > 0 {
      LengthGrows(n, d, k, j);
    } else {
      ZeroLength(Cut(n, d, k + j));
      SignedScales(negative, 0, k, j);
    }
  }

  /** The quotient is determined by the operands. */
  lemma QuotientIsOne(n: nat, d: nat, wanted: nat, negative: bool, r: string, s: string)
    requires d > 0 && IsQuotient(r, n, d, wanted, negative) && IsQuotient(s, n, d, wanted, negative)
    ensures r == s
  {
    hide StopsAt, Cut, Text, Left, WholePart, Length, Signed;
    var k: nat :| StopsAt(n, d, wanted, k) && r == Text(Signed(negative, Cut(n, d, k)), k);
    var j: nat :| StopsAt(n, d, wanted, j) && s == Text(Signed(negative, Cut(n, d, j)), j);
    if k <= j {
      StopsOnce(n, d, wanted, negative, k, j - k);
    } else {
      StopsOnce(n, d, wanted, negative, j, k - j);
    }
  }

  // ---- how good it is ----

  /** What is cut off is less than one unit in the last place, and is nothing exactly when nothing was
      left. */
  lemma CutIsTruncation(n: nat, d: nat, k: nat)
    requires d > 0
    ensures Cut(n, d, k) * d <= n * Pow10(k) < (Cut(n, d, k) + 1) * d
    ensures Left(n, d, k) == 0 <==> Cut(n, d, k) * d == n * Pow10(k)
  {
    var x := n * Pow10(k);
    hide Pow10;
    assert x == d * (x / d) + x % d;
  }

  /** A number of 10^-p without the zeros at its end. */
  function Dropped(c: nat, p: nat): nat {
    if p > 0 && c % 10 == 0 then Dropped(c / 10, p - 1) else c
  }

  /** The digits of the exact quotient, when it has finitely many: those of the places for the factors of
      the divisor, without the zeros at the end. */
  function ExactDigits(n: nat, d: nat): nat
    requires d > 0
  {
    Dropped(Cut(n, d, PlacesFor(d)), PlacesFor(d))
  }

  /** The quotient terminates and has no more digits than a cut one keeps. */
  predicate FitsTheCut(n: nat, d: nat, wanted: nat)
    requires d > 0
  {
    Divides(Rest(d), n) && Length(ExactDigits(n, d)) <= Max(wanted, Length(WholePart(n, d)))
  }

  /** The zeros at the end of an exact quotient are those of places it does not need. */
  lemma {:induction false} DroppedIsExact(n: nat, d: nat, p: nat) returns (j: nat)
    requires d > 0 && Left(n, d, p) == 0
    ensures j <= p && Left(n, d, j) == 0 && Cut(n, d, j) == Dropped(Cut(n, d, p), p)
    ensures j == 0 || Cut(n, d, j) % 10 != 0
  {
    j := p;
    if p > 0 && Cut(n, d, p) % 10 == 0 {
      var c, x := Cut(n, d, p - 1), Left(n, d, p - 1);
      NextPlace(n, d, p - 1);
      hide Cut, Left;
      NoDigitBrought(x, d);
      assert Cut(n, d, p) / 10 == c;
      j := DroppedIsExact(n, d, p - 1);
    }
  }

  lemma NoDigitBrought(x: nat, d: nat)
    requires d > 0 && x * 10 % d == 0
    ensures x * 10 / d == 0 ==> x == 0
  {
    assert x * 10 == d * (x * 10 / d) + x * 10 % d;
  }

  /** No exact form of a quotient has fewer digits. */
  lemma ExactIsLonger(n: nat, d: nat, j: nat)
    requires d > 0 && Left(n, d, j) == 0
    ensures Divides(Rest(d), n) && Length(ExactDigits(n, d)) <= Length(Cut(n, d, j))
  {
    assert Divides(d, n * Pow10(j));
    FiniteExactly(n, d);
    ExactWithPlaces(n, d, PlacesFor(d));
    hide Divides, Rest, Pow10, PlacesFor, Length, Cut, Left;
    var i := DroppedIsExact(n, d, PlacesFor(d));
    if i <= j {
      ExactStays(n, d, i, j - i);
      LengthOfTimes(Cut(n, d, i), j - i);
    } else {
      ExactStays(n, d, j, i - j);
      TimesPower(Cut(n, d, j), i - j);
    }
  }

  lemma TimesPower(c: nat, j: nat)
    requires j > 0
    ensures c * Pow10(j) % 10 == 0
  {
    assert c * Pow10(j) == 10 * (c * Pow10(j - 1));
  }

  lemma {:induction false} LengthOfTimes(c: nat, j: nat)
    ensures c * Pow10(j) >= 0 && Length(c) <= Length(c * Pow10(j))
  {
    Product(c, j);
    if j > 0 {
      LengthOfTimes(c, j - 1);
      Product(c, j - 1);
      PowerStep(j - 1);
      Regroup(c, Pow10(j - 1));
      hide Pow10, Length;
      OneMoreZero(c * Pow10(j - 1));
    }
  }

  lemma Product(c: nat, j: nat)
    ensures c * Pow10(j) >= 0
  {
  }

  lemma PowerStep(n: nat)
    ensures Pow10(n + 1) == 10 * Pow10(n)
  {
  }

  lemma OneMoreZero(x: nat)
    ensures Length(x) <= Length(x * 10)
  {
    if x > 0 {
      DigitMore(x, 0);
    }
  }

  /** Nothing is left where it stops if and only if the code saw that the quotient terminates in time, or
      it terminates and happens to have no more digits than a cut one keeps. */
  lemma StopsExactly(n: nat, d: nat, wanted: nat, k: nat)
    requires d > 0 && StopsAt(n, d, wanted, k)
    ensures Left(n, d, k) == 0 <==> TerminatesInTime(n, d, wanted) || FitsTheCut(n, d, wanted)
  {
    hide Cut, Left, TerminatesInTime, Length, WholePart, ExactDigits, Divides, Rest;
    if Left(n, d, k) == 0 {
      ExactIsLonger(n, d, k);
    } else if FitsTheCut(n, d, wanted) {
      var j := ExactAtDigits(n, d);
      ShortIsExact(n, d, wanted, k, j);
    }
  }

  /** A canonical text stands for exactly n / d. */
  predicate IsExact(r: string, n: nat, d: nat, negative: bool) {
    Mantissa(Split(r)) * d == Signed(negative, n) * Pow10(|Split(r).fraction|)
  }

  /** The text of a quotient cut after k places is exact when nothing is left, and only then. */
  lemma CutIsExact(n: nat, d: nat, k: nat, negative: bool)
    requires d > 0
    ensures IsExact(Text(Signed(negative, Cut(n, d, k)), k), n, d, negative) <==> Left(n, d, k) == 0
  {
    hide *;
    var c := Cut(n, d, k);
    var m := Signed(negative, c);
    TextIsCanonical(m, k);
    CanonIs(m, k);
    CutIsTruncation(n, d, k);
    var p := Canon(m, k);
    SameRatio(Mantissa(p), Pow10(|p.fraction|), m, Pow10(k), Signed(negative, n), d);
    SignedRatio(negative, c, d, n, Pow10(k));
    ExactMeans(Text(m, k), n, d, negative);
  }

  lemma ExactMeans(r: string, n: nat, d: nat, negative: bool)
    ensures IsExact(r, n, d, negative)
            <==> Mantissa(Split(r)) * d == Signed(negative, n) * Pow10(|Split(r).fraction|)
  {
    hide Mantissa, Split, Signed, Pow10;
  }

  lemma SignedRatio(negative: bool, c: int, d: int, n: int, t: int)
    ensures Signed(negative, c) * d == Signed(negative, n) * t <==> c * d == n * t
  {
    Minus(c, d);
    Minus(n, t);
  }

  /** Of two forms of one ratio, x / p and c / t, both are n / d or neither is. */
  lemma SameRatio(x: int, p: int, c: int, t: int, n: int, d: int)
    requires p > 0 && t > 0 && x * t == c * p
    ensures x * d == n * p <==> c * d == n * t
  {
    if x * d == n * p {
      CrossRatio(x, p, c, t, n, d);
    }
    if c * d == n * t {
      CrossRatio(c, t, x, p, n, d);
    }
  }

  lemma CrossRatio(x: int, p: int, c: int, t: int, n: int, d: int)
    requires p > 0 && x * t == c * p && x * d == n * p
    ensures c * d == n * t
  {
    assert (c * d) * p == (c * p) * d == (x * t) * d == (x * d) * t == (n * p) * t == (n * t) * p;
    Cancel(c * d, n * t, p);
  }

  /** The text that division gives stands for exactly the quotient if and only if the code saw that the
      quotient terminates in time, or it terminates and happens to have no more digits than a cut one
      keeps. */
  lemma ExactExactly(r: string, n: nat, d: nat, wanted: nat, negative: bool)
    requires d > 0 && IsQuotient(r, n, d, wanted, negative)
    ensures IsCanonical(r)
    ensures Mantissa(Split(r)) * d == Signed(negative, n) * Pow10(|Split(r).fraction|)
            <==> TerminatesInTime(n, d, wanted) || FitsTheCut(n, d, wanted)
  {
    hide StopsAt, Text, Cut, Left, TerminatesInTime, FitsTheCut, IsCanonical, Split, Mantissa, Signed, Pow10;
    var k: nat :| StopsAt(n, d, wanted, k) && r == Text(Signed(negative, Cut(n, d, k)), k);
    TextIsCanonical(Signed(negative, Cut(n, d, k)), k);
    StopsExactly(n, d, wanted, k);
    CutIsExact(n, d, k, negative);
  }

  lemma ExactAtDigits(n: nat, d: nat) returns (j: nat)
    requires d > 0 && Divides(Rest(d), n)
    ensures Left(n, d, j) == 0 && Cut(n, d, j) == ExactDigits(n, d)
  {
    ExactWithPlaces(n, d, PlacesFor(d));
    assert Left(n, d, PlacesFor(d)) == 0;
    j := DroppedIsExact(n, d, PlacesFor(d));
  }

  lemma ShortIsExact(n: nat, d: nat, wanted: nat, k: nat, j: nat)
    requires d > 0 && StopsAt(n, d, wanted, k)
    requires Left(n, d, j) == 0 && Length(Cut(n, d, j)) <= Max(wanted, Length(WholePart(n, d)))
    ensures Left(n, d, k) == 0
  {
    hide Cut, Left, TerminatesInTime, WholePart, Pow10;
    if j <= k {
      ExactStays(n, d, j, k - j);
    } else if Cut(n, d, k) > 0 {
      LengthGrows(n, d, k, j - k);
    } else if Left(n, d, k) != 0 {
      NothingAtAll(n, d, j);
      DivisionIs(0, d, 0, 0);
      NoneLeft(d, k);
    }
  }

  lemma NothingAtAll(n: nat, d: nat, j: nat)
    requires d > 0 && Left(n, d, j) == 0 && Cut(n, d, j) == 0
    ensures n == 0
  {
    CutIsTruncation(n, d, j);
    Cancel(n, 0, Pow10(j));
  }

  lemma NoneLeft(d: nat, k: nat)
    requires d > 0
    ensures Left(0, d, k) == 0
  {
    assert 0 * Pow10(k) == 0;
    DivisionIs(0, d, 0, 0);
  }

  // ---- a quotient that terminates and is cut all the same ----

  lemma {:induction false} TwosOfPower(m: nat)
    ensures Times(2, Power(2, m)) == m && Without(2, Power(2, m)) == 1
  {
    if m > 0 {
      TwosOfPower(m - 1);
      assert Power(2, m) % 2 == 0 && Power(2, m) / 2 == Power(2, m - 1);
    }
  }

  lemma {:induction false} PowersOfFive(i: nat)
    ensures Power(5, 3 * i) >= Pow10(2 * i)
  {
    if i > 0 {
      PowersOfFive(i - 1);
      var m := 3 * i;
      assert Power(5, m) == 5 * Power(5, m - 1) && Power(5, m - 1) == 5 * Power(5, m - 2);
      assert Power(5, m - 2) == 5 * Power(5, 3 * (i - 1));
      assert Pow10(2 * i) == 10 * Pow10(2 * i - 1) && Pow10(2 * i - 1) == 10 * Pow10(2 * (i - 1));
    }
  }

  lemma {:induction false} OddPower(s: nat)
    ensures Power(5, s) % 2 == 1 && Power(5, s) <= Pow10(s) && (s > 0 ==> Power(5, s) < Pow10(s))
  {
    if s > 0 {
      OddPower(s - 1);
    }
  }

  /** 2^m over 2^(m+s) is 5^s over 10^s. */
  lemma PowerQuotient(m: nat, s: nat)
    requires s > 0
    ensures var n, d := Power(2, m), Power(2, m + s);
      n < d && Left(n, d, s) == 0 && Cut(n, d, s) == Power(5, s)
  {
    PowerSum(2, m, s);
    TenIsTwoFives(s);
    PositivePower(2, m);
    PositivePower(2, s - 1);
    PowerAgain(2, s);
    hide Power, Pow10;
    OverAndUnder(Power(2, m), Power(2, s), Power(5, s));
  }

  lemma {:induction false} PositivePower(b: nat, m: nat)
    requires b > 0
    ensures Power(b, m) > 0
  {
    if m > 0 {
      PositivePower(b, m - 1);
    }
  }

  lemma OverAndUnder(n: int, t: int, f: int)
    requires n > 0 && t >= 2 && f >= 0
    ensures n < n * t && n * (t * f) / (n * t) == f && n * (t * f) % (n * t) == 0
  {
    AtLeast(n, t - 1);
    assert n * (t - 1) == n * t - n;
    assert n * (t * f) == n * t * f;
    DivisionIs(n * (t * f), n * t, f, 0);
  }

  /** The quotient of these powers of 2 terminates within s places, fewer than the limit, yet its result
      is not exact: the twos both operands have are counted. */
  lemma TerminatesButIsCut(m: nat, s: nat, k: nat)
    requires 54 <= s <= MAX_EXPANDED_DIGITS <= m + s
    requires StopsAt(Power(2, m), Power(2, m + s), QUOTIENT_SIGNIFICANT_DIGITS, k)
    ensures var n, d := Power(2, m), Power(2, m + s);
      Left(n, d, s) == 0 && Length(Cut(n, d, s)) <= s && Left(n, d, k) != 0
  {
    hide Power, Cut, Left, Pow10, Times, Without, Digits, PlacesFor;
    var n, d := Power(2, m), Power(2, m + s);
    PowerQuotient(m, s);
    ManyPlaces(m + s);
    LongOdd(s);
    NumDigits(0);
    DivisionIs(n, d, 0, n);
    assert WholePart(n, d) == 0;
    assert !TerminatesInTime(n, d, QUOTIENT_SIGNIFICANT_DIGITS);
    if Left(n, d, k) == 0 {
      if k < s {
        ExactStays(n, d, k, s - k);
        TimesTen(Cut(n, d, k), s - k);
      } else {
        ExactStays(n, d, s, k - s);
        LengthGrows(n, d, s, k - s);
      }
    }
  }

  lemma ManyPlaces(m: nat)
    ensures PlacesFor(Power(2, m)) >= m
  {
    TwosOfPower(m);
  }

  lemma TimesTen(c: nat, j: nat)
    requires j > 0
    ensures c * Pow10(j) % 2 == 0
  {
    assert c * Pow10(j) == 2 * (c * (5 * Pow10(j - 1)));
  }

  lemma LongOdd(s: nat)
    requires s >= 54
    ensures Power(5, s) % 2 == 1 && QUOTIENT_SIGNIFICANT_DIGITS < Length(Power(5, s)) <= s
  {
    hide Power, Pow10, Digits;
    OddPower(s);
    PowersOfFive(18);
    PowerSum(5, 54, s - 54);
    Pow10Grows(34, 36);
    var x := Power(5, s);
    AtLeast(Power(5, 54), Power(5, s - 54));
    DigitsLength(x, 34);
    DigitsLength(x, s);
  }
}
