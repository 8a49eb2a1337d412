/** The order of numbers in src/type/number.cpp: comparing canonical texts digit by digit agrees with
    the values they stand for. */
module NumberOrder {
  import opened Decimal
  import opened NumberText

  function Sign(x: int): int {
    if x < 0 then -1 else if x > 0 then 1 else 0
  }

  /** std::string::compare(): by the first difference, a proper prefix before what it starts. */
  function Lex(a: string, b: string): int {
    if a == "" || b == "" then Sign(|a| - |b|)
    else if a[0] != b[0] then Sign(a[0] as int - b[0] as int)
    else Lex(a[1..], b[1..])
  }

  /** The difference of two values, scaled by the power of ten of both fractions. */
  function Difference(p: Parts, q: Parts): int {
    Mantissa(p) * Pow10(|q.fraction|) - Mantissa(q) * Pow10(|p.fraction|)
  }

  predicate NoTrailingZero(f: string) {
    f != "" ==> f[|f| - 1] != '0'
  }

  // ---- the first difference decides ----

  lemma SameHead(x: int, f: int, g: int, p: int, q: int)
    ensures (x * p + f) * (10 * q) - (x * q + g) * (10 * p) == (f * q - g * p) * 10
  {
    assert (x * p + f) * (10 * q) == x * p * q * 10 + f * q * 10;
    assert (x * q + g) * (10 * p) == x * p * q * 10 + g * p * 10;
  }

  lemma SmallerHead(x: int, y: int, f: int, g: int, p: int, q: int)
    requires x < y && 0 <= f < p && 0 <= g < q
    ensures (x * p + f) * (10 * q) < (y * q + g) * (10 * p)
  {
    assert (x * p + f) * (10 * q) == x * (p * q) * 10 + f * q * 10;
    assert (y * q + g) * (10 * p) == y * (p * q) * 10 + g * p * 10;
    assert f * q < p * q by {
      AtLeast(q, p - f);
      assert q * (p - f) == p * q - f * q;
    }
    assert g * p >= 0;
    assert (y - x) * (p * q) >= p * q by {
      AtLeast(p * q, y - x);
    }
    assert y * (p * q) - x * (p * q) == (y - x) * (p * q);
  }

  lemma Tail(s: string)
    requires s != "" && AllDigits(s)
    ensures Num(s) == Val(s[0]) * Pow10(|s| - 1) + Num(s[1..]) && 0 <= Num(s[1..]) < Pow10(|s| - 1)
  {
    NumCons(s[0], s[1..]);
    NumBounds(s[1..]);
    assert [s[0]] + s[1..] == s;
  }

  /** Fractions without a zero at the end, and rows of one length, are ordered as their digits are. */
  lemma {:induction false} LexIsNumeric(f: string, g: string)
    requires AllDigits(f) && AllDigits(g)
    requires |f| == |g| || (NoTrailingZero(f) && NoTrailingZero(g))
    ensures Lex(f, g) == Sign(Num(f) * Pow10(|g|) - Num(g) * Pow10(|f|))
  {
    if f == "" || g == "" {
      EmptyIsFirst(f, g);
    } else {
      var p, q := Pow10(|f| - 1), Pow10(|g| - 1);
      Tail(f);
      Tail(g);
      LexTails(f, g);
      NextPower(|f| - 1);
      NextPower(|g| - 1);
      if f[0] == g[0] {
        LexIsNumeric(f[1..], g[1..]);
      }
      hide *;
      assert (f[0] == g[0]) == (Val(f[0]) == Val(g[0])) && (f[0] < g[0]) == (Val(f[0]) < Val(g[0])) by {
        HeadsAsValues(f[0], g[0]);
      }
      HeadsDecide(Val(f[0]), Val(g[0]), Num(f[1..]), Num(g[1..]), p, q, Lex(f, g));
    }
  }

  lemma HeadsAsValues(a: char, b: char)
    ensures (a == b) == (Val(a) == Val(b)) && (a < b) == (Val(a) < Val(b))
  {
  }

  lemma HeadsDecide(a: int, b: int, f: int, g: int, p: int, q: int, lex: int)
    requires 0 <= f < p && 0 <= g < q
    requires a == b ==> lex == Sign(f * q - g * p)
    requires a < b ==> lex == -1
    requires a > b ==> lex == 1
    ensures lex == Sign((a * p + f) * (10 * q) - (b * q + g) * (10 * p))
  {
    if a == b {
      SameHead(a, f, g, p, q);
    } else if a < b {
      SmallerHead(a, b, f, g, p, q);
    } else {
      SmallerHead(b, a, g, f, q, p);
    }
  }

  lemma NextPower(n: nat)
    ensures Pow10(n + 1) == 10 * Pow10(n)
  {
  }

  /** No digits come before any that are not all zeros. */
  lemma EmptyIsFirst(f: string, g: string)
    requires AllDigits(f) && AllDigits(g) && (f == "" || g == "")
    requires |f| == |g| || (NoTrailingZero(f) && NoTrailingZero(g))
    ensures Lex(f, g) == Sign(Num(f) * Pow10(|g|) - Num(g) * Pow10(|f|))
  {
    assert Pow10(0) == 1 && Num("") == 0;
    LexOfEmpty(f, g);
    if f != "" {
      MoreThanNothing(f);
    }
    if g != "" {
      MoreThanNothing(g);
    }
    hide Num, Lex, Pow10;
  }

  lemma LexOfEmpty(f: string, g: string)
    requires f == "" || g == ""
    ensures Lex(f, g) == (if f != "" then 1 else if g != "" then -1 else 0)
  {
  }

  lemma MoreThanNothing(f: string)
    requires AllDigits(f) && f != "" && NoTrailingZero(f)
    ensures Num(f) > 0
  {
    LastDigit(f);
  }

  lemma LexTails(f: string, g: string)
    requires f != "" && g != ""
    ensures f[0] == g[0] ==> Lex(f, g) == Lex(f[1..], g[1..])
    ensures f[0] < g[0] ==> Lex(f, g) == -1
    ensures f[0] > g[0] ==> Lex(f, g) == 1
  {
  }

  /** Rows of one length compare as the numbers they stand for. */
  lemma LexSameLength(s: string, t: string)
    requires AllDigits(s) && AllDigits(t) && |s| == |t|
    ensures Lex(s, t) == Sign(Num(s) - Num(t))
  {
    LexIsNumeric(s, t);
    hide Num, Lex, Pow10;
    SignScaled(Num(s) - Num(t), Pow10(|s|));
    assert Num(s) * Pow10(|s|) - Num(t) * Pow10(|s|) == (Num(s) - Num(t)) * Pow10(|s|);
  }

  lemma SignScaled(x: int, p: int)
    requires p > 0
    ensures Sign(x * p) == Sign(x)
  {
    AtLeast(p, x);
  }

  /** More integer digits, more value. */
  lemma LongerIsMore(s: string, t: string)
    requires AllDigits(s) && AllDigits(t) && s != "" && |s| < |t| && t[0] != '0'
    ensures Num(s) < Num(t)
  {
    NumBounds(s);
    DigitsIs(t);
    Pow10Grows(|s|, |t| - 1);
  }

  /** Unequal integer parts decide. */
  lemma IntegersDecide(i: int, j: int, f: int, g: int, p: int, q: int)
    requires i < j && 0 <= f < p && 0 <= g
    requires q > 0
    ensures (i * p + f) * q < (j * q + g) * p
  {
    assert (i * p + f) * q == i * (p * q) + f * q;
    assert (j * q + g) * p == j * (p * q) + g * p;
    assert f * q < p * q by {
      AtLeast(q, p - f);
      assert q * (p - f) == p * q - f * q;
    }
    assert g * p >= 0;
    assert (j - i) * (p * q) >= p * q by {
      AtLeast(p * q, j - i);
    }
    assert j * (p * q) - i * (p * q) == (j - i) * (p * q);
  }

  lemma EqualIntegers(i: int, f: int, g: int, p: int, q: int)
    ensures (i * p + f) * q - (i * q + g) * p == f * q - g * p
  {
    assert (i * p + f) * q == i * p * q + f * q;
    assert (i * q + g) * p == i * p * q + g * p;
  }

  /** Integer digits first, then the fractions, decide between two magnitudes. */
  function Magnitudes(p: Parts, q: Parts): int {
    if |p.integer| != |q.integer| then Sign(|p.integer| - |q.integer|)
    else if Lex(p.integer, q.integer) != 0 then Lex(p.integer, q.integer)
    else Lex(p.fraction, q.fraction)
  }

  predicate Unsigned(p: Parts) {
    WellFormed(p) && !p.negative
  }

  lemma ByInteger(p: Parts, q: Parts)
    requires Unsigned(p) && Unsigned(q) && Num(p.integer) < Num(q.integer)
    ensures Difference(p, q) < 0
  {
    NumConcat(p.integer, p.fraction);
    NumConcat(q.integer, q.fraction);
    NumBounds(p.fraction);
    NumBounds(q.fraction);
    IntegersDecide(Num(p.integer), Num(q.integer), Num(p.fraction), Num(q.fraction), Pow10(|p.fraction|),
                   Pow10(|q.fraction|));
  }

  lemma Opposite(p: Parts, q: Parts)
    ensures Difference(p, q) == -Difference(q, p)
  {
  }

  lemma ByFraction(p: Parts, q: Parts)
    requires Unsigned(p) && Unsigned(q) && Num(p.integer) == Num(q.integer)
    ensures Sign(Difference(p, q)) == Lex(p.fraction, q.fraction)
  {
    NumConcat(p.integer, p.fraction);
    NumConcat(q.integer, q.fraction);
    LexIsNumeric(p.fraction, q.fraction);
    hide Num, Pow10, Lex;
    EqualIntegers(Num(p.integer), Num(p.fraction), Num(q.fraction), Pow10(|p.fraction|), Pow10(|q.fraction|));
  }

  lemma MagnitudesAgree(p: Parts, q: Parts)
    requires Unsigned(p) && Unsigned(q)
    ensures Magnitudes(p, q) == Sign(Difference(p, q))
  {
    if |p.integer| == |q.integer| {
      LexSameLength(p.integer, q.integer);
    } else if |p.integer| < |q.integer| {
      LongerIsMore(p.integer, q.integer);
    } else {
      LongerIsMore(q.integer, p.integer);
    }
    hide Num, Lex, Difference;
    if Num(p.integer) < Num(q.integer) {
      ByInteger(p, q);
    } else if Num(p.integer) > Num(q.integer) {
      ByInteger(q, p);
      Opposite(p, q);
    } else {
      ByFraction(p, q);
    }
  }

  // ---- the code ----

  lemma SignOfMantissa(p: Parts)
    requires WellFormed(p)
    ensures if p.negative then Mantissa(p) < 0 else Mantissa(p) >= 0
  {
    NumBounds(p.integer + p.fraction);
    if p.negative && Num(p.integer + p.fraction) == 0 {
      hide Canon, Num;
      WellFormedIsCanon(p);
      ZeroParts(|p.fraction|);
    }
  }

  lemma SignsDecide(p: Parts, q: Parts)
    requires WellFormed(p) && WellFormed(q) && p.negative && !q.negative
    ensures Difference(p, q) < 0 < Difference(q, p)
  {
    SignOfMantissa(p);
    SignOfMantissa(q);
    hide Mantissa, Pow10;
    AtLeast(Pow10(|q.fraction|), Mantissa(p));
    assert Mantissa(q) * Pow10(|p.fraction|) >= 0;
  }

  lemma BothNegative(p: Parts, q: Parts)
    requires p.negative && q.negative
    ensures Difference(p.(negative := false), q.(negative := false)) == -Difference(p, q)
  {
    Minus(Num(p.integer + p.fraction), Pow10(|q.fraction|));
    Minus(Num(q.integer + q.fraction), Pow10(|p.fraction|));
  }

  lemma Minus(x: int, p: int)
    ensures -x * p == -(x * p)
  {
  }

  /** What is after the sign of a canonical text, and after its integer digits. */
  lemma AfterSign(t: string)
    requires IsCanonical(t)
    ensures var p, x := Split(t), if t[0] == '-' then t[1..] else t;
      && WellFormed(p) && t != "" && p.negative == (t[0] == '-') && x[..Find(x, '.')] == p.integer
      && x[Find(x, '.')..] == if p.fraction == "" then "" else "." + p.fraction
  {
    var p := Split(t);
    assert WellFormed(p) && Join(p) == t;
    hide Split, IsCanonical, Find, WellFormed;
    AfterSignOf(p);
  }

  lemma AfterSignOf(p: Parts)
    requires WellFormed(p)
    ensures var t := Join(p); var x := if t[0] == '-' then t[1..] else t;
      && t != "" && p.negative == (t[0] == '-') && x[..Find(x, '.')] == p.integer
      && x[Find(x, '.')..] == if p.fraction == "" then "" else "." + p.fraction
  {
    var x := Plain(p.integer, p.fraction);
    assert x == p.integer + if p.fraction == "" then "" else "." + p.fraction;
    assert x[0] == p.integer[0];
    FindIs(x, '.', |p.integer|);
    hide Find, Plain;
    assert ("-" + x)[1..] == x;
    assert Join(p) == if p.negative then "-" + x else x;
    assert x[..|p.integer|] == p.integer;
    assert x[|p.integer|..] == if p.fraction == "" then "" else "." + p.fraction;
  }

  lemma LexAfterPoint(f: string, g: string)
    ensures Lex(if f == "" then "" else "." + f, if g == "" then "" else "." + g) == Lex(f, g)
  {
    if f != "" && g != "" {
      assert ("." + f)[1..] == f && ("." + g)[1..] == g;
    }
  }

  /** compare_numbers() */
  method CompareNumbers(a: string, b: string) returns (r: int)
    requires IsCanonical(a) && IsCanonical(b)
    ensures r == Sign(Difference(Split(a), Split(b)))
  {
    hide IsCanonical, Split, Find, Difference, Lex, WellFormed, Plain;
    AfterSign(a);
    AfterSign(b);
    ghost var p, q := Split(a), Split(b);
    var aNegative, bNegative := a[0] == '-', b[0] == '-';
    if aNegative != bNegative {
      if aNegative {
        SignsDecide(p, q);
        return -1;
      }
      SignsDecide(q, p);
      return 1;
    }
    var x, y := a, b;
    if aNegative {
      x, y := x[1..], y[1..];
      BothNegative(p, q);
    }
    var aDot, bDot := Find(x, '.'), Find(y, '.');
    var aInteger, bInteger := x[..aDot], y[..bDot];
    var cmp := 0;
    if |aInteger| != |bInteger| {
      cmp := if |aInteger| < |bInteger| then -1 else 1;
    } else if Lex(aInteger, bInteger) != 0 {
      cmp := if Lex(aInteger, bInteger) < 0 then -1 else 1;
    } else if Lex(x[aDot..], y[bDot..]) != 0 {
      cmp := if Lex(x[aDot..], y[bDot..]) < 0 then -1 else 1;
    }
    LexAfterPoint(p.fraction, q.fraction);
    LexIsSign(p.integer, q.integer);
    LexIsSign(p.fraction, q.fraction);
    UnsignedAgree(p, q);
    r := if aNegative then -cmp else cmp;
  }

  lemma {:induction false} LexIsSign(f: string, g: string)
    ensures Lex(f, g) == Sign(Lex(f, g))
  {
    if f != "" && g != "" && f[0] == g[0] {
      LexIsSign(f[1..], g[1..]);
    }
  }

  lemma UnsignedAgree(p: Parts, q: Parts)
    requires WellFormed(p) && WellFormed(q)
    ensures Magnitudes(p, q) == Sign(Difference(p.(negative := false), q.(negative := false)))
  {
    MagnitudesAgree(p.(negative := false), q.(negative := false));
  }

  // ---- number::compare() ----

  /** What number::storage holds: a canonical text or the NaN. */
  predicate Stored(t: string) {
    t == NOT_A_NUMBER || IsCanonical(t)
  }

  /** NaN is below every number and is one value; numbers are ordered by value. */
  function Order(a: string, b: string): int {
    if a == NOT_A_NUMBER || b == NOT_A_NUMBER then
      (if a == b then 0 else if a == NOT_A_NUMBER then -1 else 1)
    else Sign(Difference(Split(a), Split(b)))
  }

  lemma StoredIsNumber(t: string)
    requires Stored(t)
    ensures IsNumber(t) <==> t != NOT_A_NUMBER
  {
    if t == NOT_A_NUMBER {
      NanIsNoNumber();
    } else {
      hide IsNumber;
      JoinReads(Split(t));
    }
  }

  /** number::compare() */
  method Compare(a: string, b: string) returns (r: int)
    requires Stored(a) && Stored(b)
    ensures r == Order(a, b)
  {
    hide IsNumber, IsCanonical, Difference, Split;
    StoredIsNumber(a);
    StoredIsNumber(b);
    var valid1 := IsValidNumber(a);
    var valid2 := IsValidNumber(b);
    if !valid1 || !valid2 {
      if !valid1 && !valid2 {
        return 0;
      }
      return if valid1 then 1 else -1;
    }
    var cmp := CompareNumbers(a, b);
    r := if cmp < 0 then -1 else if cmp > 0 then 1 else 0;
  }

  /** Turning the operands around turns the order around, and only equal texts are equivalent. */
  lemma OrderIsTotal(a: string, b: string)
    requires Stored(a) && Stored(b)
    ensures Order(a, b) == -Order(b, a)
    ensures Order(a, b) == 0 <==> a == b
    ensures Order(NOT_A_NUMBER, a) <= 0
  {
    hide IsCanonical, Split, Difference;
    if a != NOT_A_NUMBER && b != NOT_A_NUMBER {
      Opposite(Split(a), Split(b));
      ZeroDifference(a, b);
    }
  }

  lemma ZeroDifference(a: string, b: string)
    requires IsCanonical(a) && IsCanonical(b)
    ensures Difference(Split(a), Split(b)) == 0 <==> a == b
  {
    hide IsCanonical, Split, Text, Pow10, Mantissa;
    var p, q := Split(a), Split(b);
    CanonicalIsText(a);
    CanonicalIsText(b);
    SameTextSameValue(Mantissa(p), |p.fraction|, Mantissa(q), |q.fraction|);
  }

  lemma OrderIsTransitive(a: string, b: string, c: string)
    requires Stored(a) && Stored(b) && Stored(c)
    requires Order(a, b) <= 0 && Order(b, c) <= 0
    ensures Order(a, c) <= 0
  {
    if a != NOT_A_NUMBER && b != NOT_A_NUMBER && c != NOT_A_NUMBER {
      var p, q, r := Split(a), Split(b), Split(c);
      hide IsCanonical, Split, Pow10, Mantissa;
      Between(Mantissa(p), Pow10(|p.fraction|), Mantissa(q), Pow10(|q.fraction|), Mantissa(r), Pow10(|r.fraction|));
    }
  }

  lemma Between(a: int, x: int, b: int, y: int, c: int, z: int)
    requires x > 0 && y > 0 && z > 0 && a * y <= b * x && b * z <= c * y
    ensures a * z <= c * x
  {
    Scaled(a * y, b * x, z);
    Scaled(b * z, c * y, x);
    Swapped(a, y, z);
    Swapped(b, x, z);
    Swapped(c, y, x);
    Unscaled(a * z, c * x, y);
  }

  lemma Scaled(x: int, y: int, z: int)
    requires x <= y && z > 0
    ensures x * z <= y * z
  {
  }

  lemma Swapped(a: int, b: int, c: int)
    ensures a * b * c == a * c * b
  {
  }

  lemma Unscaled(x: int, y: int, z: int)
    requires x * z <= y * z && z > 0
    ensures x <= y
  {
  }
}
