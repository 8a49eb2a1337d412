/** number::calculate() of src/type/number.cpp: signs and the five operations over exact values. */
module Number {
  import opened Decimal
  import opened NumberText
  import opened NumberOrder
  import opened NumberSum
  import opened NumberProduct
  import opened NumberDivisor
  import opened NumberQuotient
  import opened NumberPrecision

  // ---- what each operation is to return ----

  function Abs(x: int): nat {
    if x < 0 then -x else x
  }

  /** The integer quotient truncated toward zero. */
  function Truncated(m: int, n: int): int
    requires n != 0
  {
    Signed((m < 0) != (n < 0), Abs(m) / Abs(n))
  }

  function Remainder(m: int, n: int): int
    requires n != 0
  {
    Signed(m < 0, Abs(m) % Abs(n))
  }

  lemma TruncatedLeaves(m: int, n: int)
    requires n != 0
    ensures m == Truncated(m, n) * n + Remainder(m, n)
    ensures Abs(Remainder(m, n)) < Abs(n)
    ensures Remainder(m, n) == 0 || (Remainder(m, n) < 0) == (m < 0)
  {
    var a, b := Abs(m), Abs(n);
    var q, r := a / b, a % b;
    assert a == b * q + r;
    SignedProduct(m < 0, n < 0, q, b);
  }

  lemma SignedProduct(x: bool, y: bool, q: int, b: int)
    ensures Signed(x != y, q) * Signed(y, b) == Signed(x, b * q)
  {
    assert q * b == b * q && -q * b == -(b * q) && q * -b == -(b * q) && -q * -b == b * q;
  }

  /** The text an operation on two stored texts has to give. */
  ghost predicate IsResult(r: string, a: string, b: string, operation: char) {
    if a == NOT_A_NUMBER || b == NOT_A_NUMBER then r == NOT_A_NUMBER
    else IsResultOf(r, Split(a), Split(b), operation)
  }

  ghost predicate IsResultOf(r: string, p: Parts, q: Parts, operation: char) {
    var k := Finest(p, q);
    match operation
    case '+' => r == Text(At(p, k) + At(q, k), k)
    case '-' => r == Text(At(p, k) - At(q, k), k)
    case '*' => r == Text(Mantissa(p) * Mantissa(q), |p.fraction| + |q.fraction|)
    case '/' =>
      if At(q, k) == 0 then r == NOT_A_NUMBER
      else IsQuotient(r, Abs(At(p, k)), Abs(At(q, k)), QUOTIENT_SIGNIFICANT_DIGITS, p.negative != q.negative)
    case '%' =>
      if Mantissa(q) == 0 || p.fraction != "" || q.fraction != "" then r == NOT_A_NUMBER
      else r == Text(Remainder(Mantissa(p), Mantissa(q)), 0)
    case _ => r == NOT_A_NUMBER
  }

  // ---- signs ----

  function Positive(p: Parts): Parts {
    p.(negative := false)
  }

  function AbsText(a: string): string
    requires a != ""
  {
    if a[0] == '-' then a[1..] else a
  }

  lemma Unsign(a: string)
    requires IsCanonical(a)
    ensures a != "" && IsUnsigned(AbsText(a)) && Split(AbsText(a)) == Positive(Split(a))
    ensures Split(a).negative == (a[0] == '-')
  {
    AfterSign(a);
    assert Join(Split(a)) == a;
    hide Split, Find, IsCanonical;
    UnsignParts(Split(a));
  }

  lemma UnsignParts(p: Parts)
    requires WellFormed(p)
    ensures var a := Join(p); a != "" && IsUnsigned(AbsText(a)) && Split(AbsText(a)) == Positive(p)
  {
    SplitJoin(Positive(p));
    hide Split;
    assert Plain(p.integer, p.fraction)[0] == p.integer[0];
    assert ("-" + Plain(p.integer, p.fraction))[1..] == Plain(p.integer, p.fraction);
    assert AbsText(Join(p)) == Join(Positive(p));
  }

  lemma SignedParts(p: Parts, k: nat)
    requires |p.fraction| <= k
    ensures Mantissa(p) == Signed(p.negative, Mantissa(Positive(p)))
    ensures At(p, k) == Signed(p.negative, At(Positive(p), k))
  {
    hide Num, Pow10;
    Minus(Num(p.integer + p.fraction), Pow10(k - |p.fraction|));
  }

  lemma PositiveAt(p: Parts, k: nat)
    requires WellFormed(p) && !p.negative && |p.fraction| <= k
    ensures At(p, k) >= 0 && Mantissa(p) >= 0 && (At(p, k) == 0 <==> Mantissa(p) == 0)
  {
    hide Num, Pow10;
    NumBounds(p.integer + p.fraction);
    AtLeast(Pow10(k - |p.fraction|), Mantissa(p));
  }

  lemma ShiftedDown(x: int, f: int)
    requires f >= 0
    ensures TextShifted(x, -f) == Text(x, f)
  {
    hide Text;
    PowerZero();
  }

  lemma SameSigned(negative: bool, x: int, f: nat, m: int, k: nat)
    requires x * Pow10(k) == m * Pow10(f)
    ensures Text(Signed(negative, x), f) == Text(Signed(negative, m), k)
  {
    hide Text, Pow10;
    Minus(x, Pow10(k));
    Minus(m, Pow10(f));
    SameTextSameValue(Signed(negative, x), f, Signed(negative, m), k);
  }

  lemma CanonUnsigned(m: int, k: nat)
    requires m >= 0
    ensures var c := Canon(m, k);
      && !c.negative && AllDigits(c.integer) && AllDigits(c.fraction) && c.integer != ""
      && Num(c.integer + c.fraction) * Pow10(k) == m * Pow10(|c.fraction|)
  {
    CanonIs(m, k);
    hide Canon, Num, Pow10;
  }

  /** A sign before the text of a value is that of the value, or none for zero. */
  lemma SignBefore(negative: bool, m: int, k: nat)
    requires m >= 0
    ensures CanonicalText(if negative then "-" + Text(m, k) else Text(m, k)) == Text(Signed(negative, m), k)
  {
    hide IsNumber, MarkAt, Num, Pow10, Canon, CanonicalText, Whole, Fraction, MantissaOf, Written, TooLong, Plain;
    CanonUnsigned(m, k);
    var c := Canon(m, k);
    var p := c.(negative := negative);
    JoinReads(p);
    PlainMeans(Join(p));
    ShiftedDown(Signed(negative, Num(c.integer + c.fraction)), |c.fraction|);
    SameSigned(negative, Num(c.integer + c.fraction), |c.fraction|, m, k);
    assert Join(p) == if negative then "-" + Text(m, k) else Text(m, k);
  }

  // ---- the code ----

  /** divide_positive_numbers() */
  method DividePositive(a: string, b: string, wanted: nat) returns (r: string)
    requires IsUnsigned(a) && IsUnsigned(b)
    ensures var p, q := Split(a), Split(b); var k := Finest(p, q);
      && At(p, k) >= 0 && At(q, k) >= 0
      && if At(q, k) == 0 then r == NOT_A_NUMBER else IsQuotient(r, At(p, k), At(q, k), wanted, false)
  {
    hide Num, Pow10, At, Split, Join, Text, Digits, Resized, Mantissa, IsQuotient, WellFormed;
    var pa, pb := Split(a), Split(b);
    UnsignedParts(a);
    UnsignedParts(b);
    var k := Finest(pa, pb);
    PositiveAt(pa, k);
    PositiveAt(pb, k);
    if b == "0" {
      ZeroIs();
      return NOT_A_NUMBER;
    }
    ResizedIsAt(pa, k);
    ResizedIsAt(pb, k);
    var f, g := Resized(pa.fraction, k), Resized(pb.fraction, k);
    var dividend, divisor := pa.integer + f, pb.integer + g;
    NumConcat(pa.integer, f);
    NumConcat(pb.integer, g);
    divisor := DropZeros(divisor);
    NumDigits(At(pb, k));
    if divisor == "0" {
      return NOT_A_NUMBER;
    }
    r := DivideDigits(dividend, divisor, wanted, At(pb, k));
  }

  lemma UnsignedParts(a: string)
    requires IsUnsigned(a)
    ensures var p := Split(a); WellFormed(p) && !p.negative && AllDigits(p.integer) && AllDigits(p.fraction)
                               && p.integer != ""
  {
    hide Split, Join;
  }

  lemma ZeroIs()
    ensures IsUnsigned("0") && Mantissa(Split("0")) == 0
  {
    hide Digits, IsUnsigned, Split, Mantissa;
    NumDigits(0);
    DigitsUnsigned(0);
  }

  /** An integer's text is its digits. */
  lemma IntegerDigits(a: string)
    requires IsUnsigned(a) && Split(a).fraction == ""
    ensures Mantissa(Split(a)) >= 0 && a == Digits(Mantissa(Split(a))) && At(Split(a), 0) == Mantissa(Split(a))
  {
    hide Num, Digits, Split, Join, WellFormed, Pow10, Canon;
    CanonicalIsText(a);
    UnsignedParts(a);
    PositiveAt(Split(a), 0);
    DigitsUnsigned(Mantissa(Split(a)));
    PowerZero();
  }

  /** Integer division stops before the point. */
  lemma IntegerQuotient(r: string, n: nat, d: nat)
    requires d > 0 && IsQuotient(r, n, d, 0, false)
    ensures r == Digits(WholePart(n, d))
  {
    hide Text, Digits, Length, Left, Cut;
    NoPlaces(n, d);
    DividesIs(n, d);
    DigitsUnsigned(WholePart(n, d));
    assert StopsAt(n, d, 0, 0);
    var s := Text(Signed(false, Cut(n, d, 0)), 0);
    assert IsQuotient(s, n, d, 0, false);
    QuotientIsOne(n, d, 0, false, r, s);
  }

  /** modulo_positive_numbers(), of integers */
  method ModuloPositive(a: string, b: string) returns (r: string)
    requires IsUnsigned(a) && IsUnsigned(b) && Split(a).fraction == "" && Split(b).fraction == ""
    ensures var m, n := Mantissa(Split(a)), Mantissa(Split(b));
      && m >= 0 && n >= 0 && if n == 0 then r == NOT_A_NUMBER else m % n >= 0 && r == Text(m % n, 0)
  {
    hide Split, Digits, IsUnsigned, At, Text, IsQuotient, Find, Mantissa, Difference, IsCanonical, Pow10;
    ghost var m, n := Mantissa(Split(a)), Mantissa(Split(b));
    IntegerDigits(a);
    IntegerDigits(b);
    ZeroIs();
    if b == "0" {
      return NOT_A_NUMBER;
    }
    NonZero(n);
    var quotient := DividePositive(a, b, 0);
    IntegerQuotient(quotient, m, n);
    ghost var q := WholePart(m, n);
    DigitsUnsigned(q);
    NoPointInDigits(q);
    quotient := Whole(quotient);
    var product := MultiplyPositive(b, quotient);
    QuotientLaw(m, n, q);
    DigitsUnsigned(n * q);
    DigitsCompare(m, n * q);
    DigitsAt(m);
    DigitsAt(n * q);
    DigitsUnsigned(m);
    r := SubtractPositive(a, product);
    TextIsCanonical(m % n, 0);
    CanonicalStays(r);
    r := MakeCanonical(r);
  }

  lemma NonZero(n: nat)
    requires Digits(n) != "0"
    ensures n > 0
  {
    NumDigits(n);
  }

  lemma QuotientLaw(m: nat, n: nat, q: nat)
    requires n > 0 && q == m / n
    ensures 0 <= n * q <= m && m - n * q == m % n
  {
    assert m == n * q + m % n;
    assert n * q >= 0;
  }

  lemma NoPointInDigits(n: nat)
    ensures Whole(Digits(n)) == Digits(n)
  {
    hide Digits;
    FindIs(Digits(n), '.', |Digits(n)|);
    assert Digits(n)[..|Digits(n)|] == Digits(n);
  }

  /** Adds or subtracts magnitudes by their signs: x is taken with its sign and y with the given one. */
  method AddSigned(a: string, b: string, aNegative: bool, bNegative: bool) returns (r: string)
    requires IsUnsigned(a) && IsUnsigned(b)
    ensures var p, q := Split(a), Split(b); var k := Finest(p, q);
      CanonicalText(r) == Text(Signed(aNegative, At(p, k)) + Signed(bNegative, At(q, k)), k)
  {
    hide Split, IsUnsigned, At, Text, Difference, CanonicalText, WellFormed;
    ghost var p, q := Split(a), Split(b);
    ghost var k := Finest(p, q);
    UnsignedParts(a);
    UnsignedParts(b);
    PositiveAt(p, k);
    PositiveAt(q, k);
    ghost var x, y := At(p, k), At(q, k);
    if aNegative == bNegative {
      r := AddPositive(a, b);
      SignBefore(aNegative, x + y, k);
      r := if aNegative then "-" + r else r;
      return;
    }
    Opposite(p, q);
    UnsignedIsCanonical(a);
    UnsignedIsCanonical(b);
    var cmp := CompareNumbers(a, b);
    if cmp >= 0 {
      AtDifference(p, q, k);
    }
    if cmp <= 0 {
      AtDifference(q, p, k);
    }
    if cmp == 0 {
      ZeroStays(k);
      return "0";
    }
    if cmp > 0 {
      r := SubtractPositive(a, b);
      SignBefore(aNegative, x - y, k);
      r := if aNegative then "-" + r else r;
    } else {
      r := SubtractPositive(b, a);
      SignBefore(bNegative, y - x, k);
      r := if bNegative then "-" + r else r;
    }
  }

  lemma UnsignedIsCanonical(a: string)
    requires IsUnsigned(a)
    ensures IsCanonical(a)
  {
  }

  lemma ZeroStays(k: nat)
    ensures CanonicalText("0") == "0" == Text(0, k)
  {
    hide CanonicalText, IsUnsigned;
    ZeroParts(k);
    ZeroIs();
    UnsignedIsCanonical("0");
    CanonicalStays("0");
  }

  /** Multiplies, with a sign when the signs differ. */
  method MultiplySigned(a: string, b: string, aNegative: bool, bNegative: bool) returns (r: string)
    requires IsUnsigned(a) && IsUnsigned(b)
    ensures var p, q := Split(a), Split(b);
      CanonicalText(r) == Text(Signed(aNegative, Mantissa(p)) * Signed(bNegative, Mantissa(q)),
                               |p.fraction| + |q.fraction|)
  {
    hide Split, IsUnsigned, Text, CanonicalText, Mantissa, WellFormed, At, Pow10;
    ghost var p, q := Split(a), Split(b);
    UnsignedParts(a);
    UnsignedParts(b);
    PositiveAt(p, |p.fraction|);
    PositiveAt(q, |q.fraction|);
    ghost var m, n, k := Mantissa(p), Mantissa(q), |p.fraction| + |q.fraction|;
    assert m * n >= 0;
    r := MultiplyPositive(a, b);
    SignBefore(aNegative != bNegative, m * n, k);
    SignedProduct(aNegative, bNegative, m, n);
    SignedTwice(aNegative, bNegative, m, n);
    if r == "0" {
      SignBefore(false, m * n, k);
      ZeroTextValue(m * n, k);
      return "0";
    }
    r := if aNegative != bNegative then "-" + r else r;
  }

  lemma SignedTwice(x: bool, y: bool, m: int, n: int)
    ensures Signed(x, m) * Signed(y, n) == Signed(x != y, m * n)
  {
    assert -m * n == -(m * n) && m * -n == -(m * n) && -m * -n == m * n;
  }

  /** Divides, with a sign when the signs differ. */
  method DivideSigned(a: string, b: string, aNegative: bool, bNegative: bool) returns (r: string)
    requires IsUnsigned(a) && IsUnsigned(b)
    ensures var p, q := Split(a), Split(b); var k := Finest(p, q);
      && At(p, k) >= 0 && At(q, k) >= 0
      && if At(q, k) == 0 then CanonicalText(r) == NOT_A_NUMBER
         else IsQuotient(CanonicalText(r), At(p, k), At(q, k), QUOTIENT_SIGNIFICANT_DIGITS, aNegative != bNegative)
  {
    hide Split, IsUnsigned, Text, CanonicalText, Mantissa, WellFormed, At, Pow10, StopsAt, Cut;
    NanStays();
    ghost var p, q := Split(a), Split(b);
    ghost var k := Finest(p, q);
    if b == "0" {
      UnsignedParts(a);
      PositiveAt(p, k);
      UnsignedParts(b);
      PositiveAt(q, k);
      ZeroIs();
      return NOT_A_NUMBER;
    }
    r := DividePositive(a, b, QUOTIENT_SIGNIFICANT_DIGITS);
    if r == NOT_A_NUMBER {
      NanIsNoQuotient(a, b, r);
      return;
    }
    ghost var n, d := At(p, k), At(q, k);
    SignQuotient(r, n, d, QUOTIENT_SIGNIFICANT_DIGITS, aNegative != bNegative);
    r := if aNegative != bNegative then "-" + r else r;
  }

  lemma NanIsNoQuotient(a: string, b: string, r: string)
    requires r == NOT_A_NUMBER
    ensures forall n: nat, d: nat, wanted | d > 0 :: !IsQuotient(r, n, d, wanted, false)
  {
    hide StopsAt, Text, Cut;
    forall n: nat, d: nat, wanted | d > 0 ensures !IsQuotient(r, n, d, wanted, false) {
      if IsQuotient(r, n, d, wanted, false) {
        var k: nat :| StopsAt(n, d, wanted, k) && r == Text(Signed(false, Cut(n, d, k)), k);
        TextIsNumber(Signed(false, Cut(n, d, k)), k);
      }
    }
  }

  lemma TextIsNumber(m: int, k: nat)
    ensures Text(m, k) != NOT_A_NUMBER
  {
    hide Text, IsCanonical;
    TextIsCanonical(m, k);
    NanIsNotCanonical();
  }

  lemma SignQuotient(r: string, n: nat, d: nat, wanted: nat, negative: bool)
    requires d > 0 && IsQuotient(r, n, d, wanted, false)
    ensures IsQuotient(CanonicalText(if negative then "-" + r else r), n, d, wanted, negative)
  {
    hide StopsAt, Text, Cut, CanonicalText;
    var k: nat :| StopsAt(n, d, wanted, k) && r == Text(Signed(false, Cut(n, d, k)), k);
    SignBefore(negative, Cut(n, d, k), k);
  }

  /** The remainder of integers, with the dividend's sign. */
  method ModuloSigned(a: string, b: string) returns (r: string)
    requires IsCanonical(a) && IsCanonical(b)
    ensures IsResultOf(CanonicalText(r), Split(a), Split(b), '%')
  {
    hide Split, IsUnsigned, Text, CanonicalText, Mantissa, WellFormed, At, Find, IsCanonical, AbsText, Num, Pow10;
    NanStays();
    ghost var p, q := Split(a), Split(b);
    Unsign(a);
    Unsign(b);
    SignedParts(p, |p.fraction|);
    SignedParts(q, |q.fraction|);
    PointShows(a);
    PointShows(b);
    ZeroShows(b);
    if b == "0" || Find(a, '.') < |a| || Find(b, '.') < |b| {
      return NOT_A_NUMBER;
    }
    r := ModuloPositive(AbsText(a), AbsText(b));
    ghost var m, n := Mantissa(Positive(p)), Mantissa(Positive(q));
    CanonicalParts(a);
    SignOfMantissa(p);
    TextIsNumber(m % n, 0);
    if r == NOT_A_NUMBER {
      return;
    }
    SignBefore(a[0] == '-', m % n, 0);
    r := if a[0] == '-' then "-" + r else r;
  }

  lemma CanonicalParts(a: string)
    requires IsCanonical(a)
    ensures WellFormed(Split(a)) && Join(Split(a)) == a
  {
  }

  /** A point in a canonical text means a fraction. */
  lemma PointShows(a: string)
    requires IsCanonical(a)
    ensures Find(a, '.') < |a| <==> Split(a).fraction != ""
  {
    hide Split, Find, IsCanonical;
    CanonicalParts(a);
    var p := Split(a);
    if p.fraction == "" {
      FindIs(a, '.', |a|);
    } else {
      assert a[(if p.negative then 1 else 0) + |p.integer|] == '.';
    }
  }

  lemma ZeroShows(b: string)
    requires IsCanonical(b)
    ensures b == "0" <==> Mantissa(Split(b)) == 0
  {
    hide Split, IsCanonical, Canon, Num, IsUnsigned;
    CanonicalIsText(b);
    ZeroIs();
    if Mantissa(Split(b)) == 0 {
      ZeroParts(|Split(b).fraction|);
    }
  }

  /** perform_arithmetic(): its text may be "-0", which number::storage makes "0". */
  method PerformArithmetic(a: string, b: string, operation: char) returns (r: string)
    requires Stored(a) && Stored(b)
    ensures IsResult(CanonicalText(r), a, b, operation)
  {
    hide Split, IsUnsigned, At, Text, CanonicalText, WellFormed, IsQuotient, Mantissa, IsCanonical, AbsText, Num;
    NanStays();
    if a == NOT_A_NUMBER || b == NOT_A_NUMBER {
      return NOT_A_NUMBER;
    }
    Unsign(a);
    Unsign(b);
    ghost var p, q := Split(a), Split(b);
    ghost var k := Finest(p, q);
    SignedParts(p, k);
    SignedParts(q, k);
    var aNegative, bNegative := a[0] == '-', b[0] == '-';
    var aAbs, bAbs := AbsText(a), AbsText(b);
    match operation
    case '+' =>
      r := AddSigned(aAbs, bAbs, aNegative, bNegative);
    case '-' =>
      r := AddSigned(aAbs, bAbs, aNegative, !bNegative);
    case '*' =>
      r := MultiplySigned(aAbs, bAbs, aNegative, bNegative);
    case '/' =>
      r := DivideSigned(aAbs, bAbs, aNegative, bNegative);
    case '%' =>
      r := ModuloSigned(a, b);
    case _ =>
      r := NOT_A_NUMBER;
  }

  /** number::calculate(): the exact result as stored, or NaN. */
  method Calculate(a: string, b: string, operation: char) returns (r: string)
    requires Stored(a) && Stored(b)
    ensures Stored(r) && IsResult(r, a, b, operation)
  {
    hide IsResult, CanonicalText, IsCanonical;
    var raw := PerformArithmetic(a, b, operation);
    CanonicalOnce(raw);
    r := MakeCanonical(raw);
  }

  // ---- laws over several operations ----

  /** Sums and products do not depend on the order of their operands. */
  lemma Commutes(a: string, b: string, r: string)
    ensures IsResult(r, a, b, '+') == IsResult(r, b, a, '+')
    ensures IsResult(r, a, b, '*') == IsResult(r, b, a, '*')
  {
    hide Split, Text, At, Mantissa;
    if a != NOT_A_NUMBER && b != NOT_A_NUMBER {
      var m, n := Mantissa(Split(a)), Mantissa(Split(b));
      assert m * n == n * m;
    }
  }

  /** The value of a text made from x / 10^k, in units of 10^-k. */
  lemma TextAt(x: int, k: nat)
    ensures |Split(Text(x, k)).fraction| <= k && At(Split(Text(x, k)), k) == x
  {
    TextIsCanonical(x, k);
    CanonIs(x, k);
    hide Canon, Text, Split, Mantissa, Pow10;
    var p := Canon(x, k);
    var f := |p.fraction|;
    Pow10Sum(f, k - f);
    Units(Mantissa(p), x, Pow10(f), Pow10(k - f));
  }

  lemma Units(m: int, x: int, p: int, q: int)
    requires p > 0 && m * (p * q) == x * p
    ensures m * q == x
  {
    assert m * (p * q) == (m * q) * p;
    Cancel(m * q, x, p);
  }

  lemma AtFiner(p: Parts, k: nat, j: nat)
    requires |p.fraction| <= k
    ensures At(p, k + j) == At(p, k) * Pow10(j)
  {
    hide Pow10, Mantissa;
    Pow10Sum(k - |p.fraction|, j);
    Regrouped(Mantissa(p), Pow10(k - |p.fraction|), Pow10(j));
  }

  /** A stored number is the text of its value in any unit fine enough. */
  lemma TextOfAt(a: string, k: nat)
    requires IsCanonical(a) && |Split(a).fraction| <= k
    ensures Text(At(Split(a), k), k) == a
  {
    hide Split, IsCanonical, Mantissa, Text, Pow10;
    CanonicalIsText(a);
    var p := Split(a);
    Scaled(Mantissa(p), |p.fraction|, k - |p.fraction|);
  }

  // ---- the quotient and the remainder ----

  /** The number before the point. */
  function WholeOf(p: Parts): int {
    Signed(p.negative, Num(p.integer))
  }

  /** Dropping the zeros at the end of a fraction leaves the number before the point as it is. */
  lemma {:induction false} WholeOfCanon(m: nat, k: nat)
    ensures WholeOf(Canon(m, k)) == m / Pow10(k) && !Canon(m, k).negative
  {
    if k == 0 {
      NumDigits(m);
    } else if m % 10 == 0 {
      WholeOfCanon(m / 10, k - 1);
      TenTimes(m / 10, Pow10(k - 1));
    } else {
      NumDigits(Above(m, k));
      WholeAbove(m, k);
    }
  }

  lemma WholeAbove(m: nat, k: nat)
    ensures m / Pow10(k) == Above(m, k)
  {
    hide Num, Pad, Above, Pow10;
    AbovePad(m, k);
    NumBounds(Pad(m, k));
    DivisionIs(m, Pow10(k), Above(m, k), Num(Pad(m, k)));
  }

  lemma TenTimes(m: nat, p: nat)
    requires p > 0
    ensures 10 * m / (10 * p) == m / p
  {
    var q, r := m / p, m % p;
    assert m == p * q + r;
    assert 10 * m == 10 * p * q + 10 * r;
    DivisionIs(10 * m, 10 * p, q, 10 * r);
  }

  lemma WholeOfSigned(negative: bool, m: nat, k: nat)
    ensures m / Pow10(k) >= 0 && WholeOf(Canon(Signed(negative, m), k)) == Signed(negative, m / Pow10(k))
  {
    WholeOfCanon(m, k);
    NumBoundsOfCanon(m, k);
    hide Num, Pow10;
    if m == 0 {
      DivisionIs(0, Pow10(k), 0, 0);
    }
  }

  lemma NumBoundsOfCanon(m: nat, k: nat)
    ensures m / Pow10(k) >= 0
  {
    NonNegativeQuotient(m, Pow10(k));
  }

  /** A quotient cut to some places has the integer quotient before its point. */
  lemma WholeOfCut(n: nat, d: nat, k: nat)
    requires d > 0
    ensures Cut(n, d, k) / Pow10(k) == n / d
  {
    CutIsTruncation(n, d, k);
    hide *;
    DivMod(Cut(n, d, k), Pow10(k));
    WholeFits(n, d, Pow10(k), Cut(n, d, k), Cut(n, d, k) / Pow10(k), Cut(n, d, k) % Pow10(k));
  }

  lemma DivMod(c: int, p: int)
    requires p > 0
    ensures c == p * (c / p) + c % p && 0 <= c % p < p
  {
  }

  lemma WholeFits(n: int, d: int, p: int, c: int, w: int, u: int)
    requires d > 0 && p > 0 && c == p * w + u && 0 <= u < p && c * d <= n * p < (c + 1) * d
    ensures w == n / d
  {
    var e := n - d * w;
    CutParts(n, d, p, w, u);
    AtLeast(d, p - 1 - u);
    assert d * (p - 1 - u) == d * p - d - u * d;
    Unscaled(-1, e, p);
    Unscaled(e, d, p);
    DivisionIs(n, d, w, e);
  }

  lemma CutParts(n: int, d: int, p: int, w: int, u: int)
    requires d > 0 && u >= 0
    ensures (p * w + u) * d == d * w * p + u * d && (p * w + u + 1) * d == d * w * p + u * d + d
    ensures (n - d * w) * p == n * p - d * w * p && u * d >= 0
  {
    assert p * w * d == d * w * p;
  }

  lemma Unscaled(x: int, y: int, p: int)
    requires p > 0 && x * p < y * p
    ensures x < y
  {
    AtLeast(p, x - y);
    assert p * (x - y) == x * p - y * p;
  }

  predicate IsInteger(p: Parts) {
    WellFormed(p) && p.fraction == ""
  }

  /** What '/' gives for integers is specified by their sizes and signs. */
  lemma QuotientOfIntegers(q: string, a: Parts, b: Parts)
    requires IsInteger(a) && IsInteger(b) && Mantissa(b) != 0 && IsResultOf(q, a, b, '/')
    ensures IsQuotient(q, Abs(Mantissa(a)), Abs(Mantissa(b)), QUOTIENT_SIGNIFICANT_DIGITS,
                       (Mantissa(a) < 0) != (Mantissa(b) < 0))
  {
    hide Mantissa, IsQuotient, WellFormed;
    SignOfMantissa(a);
    SignOfMantissa(b);
    assert Pow10(0) == 1;
  }

  /** The quotient of two integers has the truncated one before its point. */
  lemma QuotientIsTruncated(q: string, m: int, n: int)
    requires n != 0
    requires IsQuotient(q, Abs(m), Abs(n), QUOTIENT_SIGNIFICANT_DIGITS, (m < 0) != (n < 0))
    ensures IsCanonical(q) && WholeOf(Split(q)) == Truncated(m, n)
  {
    hide IsCanonical, Split, StopsAt, WholeOf, Text, Canon, Cut, Pow10;
    var negative := (m < 0) != (n < 0);
    var k: nat :| StopsAt(Abs(m), Abs(n), QUOTIENT_SIGNIFICANT_DIGITS, k)
                  && q == Text(Signed(negative, Cut(Abs(m), Abs(n), k)), k);
    TextIsCanonical(Signed(negative, Cut(Abs(m), Abs(n), k)), k);
    WholeOfSigned(negative, Cut(Abs(m), Abs(n), k), k);
    WholeOfCut(Abs(m), Abs(n), k);
  }

  lemma RemainderText(r: string, x: int)
    requires r == Text(x, 0)
    ensures IsCanonical(r) && Split(r).fraction == "" && Mantissa(Split(r)) == x
  {
    TextIsCanonical(x, 0);
    CanonIs(x, 0);
    assert Pow10(0) == 1;
    hide IsCanonical, Split, Text, Canon, Mantissa, WellFormed;
  }

  lemma RemainderOfIntegers(r: string, a: Parts, b: Parts)
    requires IsInteger(a) && IsInteger(b) && Mantissa(b) != 0 && IsResultOf(r, a, b, '%')
    ensures r == Text(Remainder(Mantissa(a), Mantissa(b)), 0)
  {
    hide Mantissa, Text, WellFormed, Remainder;
  }

  /** A canonical text is a number, and its operations go by its parts. */
  lemma ByParts(a: string, b: string, r: string, operation: char)
    requires IsCanonical(a) && IsCanonical(b)
    ensures WellFormed(Split(a)) && WellFormed(Split(b))
    ensures IsResult(r, a, b, operation) == IsResultOf(r, Split(a), Split(b), operation)
  {
    NanIsNotCanonical();
    hide IsResultOf, Split, WellFormed;
  }

  /** What '/' and '%' give for two integers: the quotient's integer part times the divisor, and the
      remainder, make the dividend; the remainder is smaller than the divisor, and of the dividend's sign
      unless it is 0. */
  lemma RemainderLaw(a: string, b: string, q: string, r: string)
    requires IsCanonical(a) && IsCanonical(b) && Split(a).fraction == "" && Split(b).fraction == ""
    requires Mantissa(Split(b)) != 0 && IsResult(q, a, b, '/') && IsResult(r, a, b, '%')
    ensures IsCanonical(q) && IsCanonical(r) && Split(r).fraction == ""
    ensures var m, n, rest := Mantissa(Split(a)), Mantissa(Split(b)), Mantissa(Split(r));
      && m == WholeOf(Split(q)) * n + rest
      && Abs(rest) < Abs(n) && (rest == 0 || (rest < 0) == (m < 0))
  {
    ByParts(a, b, q, '/');
    ByParts(a, b, r, '%');
    hide IsResult, IsResultOf, IsCanonical, Split, Mantissa, WellFormed, WholeOf, Truncated, Remainder, Abs;
    var m, n := Mantissa(Split(a)), Mantissa(Split(b));
    QuotientOfIntegers(q, Split(a), Split(b));
    QuotientIsTruncated(q, m, n);
    RemainderOfIntegers(r, Split(a), Split(b));
    RemainderText(r, Remainder(m, n));
    TruncatedLeaves(m, n);
  }

  /** Dividing 2^m by 2^(m+s) gives a text that is not the quotient, although the quotient has no more
      than s digits, within the limit that is documented. */
  lemma QuotientIsCut(m: nat, s: nat, r: string)
    requires 54 <= s <= MAX_EXPANDED_DIGITS <= m + s
    requires IsResult(r, Digits(Power(2, m)), Digits(Power(2, m + s)), '/')
    ensures var n, d, p := Power(2, m), Power(2, m + s), Split(r);
      && IsCanonical(r) && Mantissa(p) * d != n * Pow10(|p.fraction|)
      && Power(5, s) * d == n * Pow10(s) && Length(Power(5, s)) <= s
  {
    hide *;
    var n, d := Power(2, m), Power(2, m + s);
    WholeText(n);
    WholeText(d);
    ByParts(Digits(n), Digits(d), r, '/');
    PowersAreInteger(n);
    PowersAreInteger(d);
    PowerIsPositive(m + s);
    QuotientOfIntegers(r, Split(Digits(n)), Split(Digits(d)));
    IsSize(n);
    IsSize(d);
    CutOrNot(r, n, d, m, s);
    PowerQuotient(m, s);
    CutIsTruncation(n, d, s);
    LongOdd(s);
  }

  lemma PowersAreInteger(n: nat)
    ensures IsInteger(Split(Digits(n)))
  {
    WholeText(n);
  }

  lemma PowerIsPositive(m: nat)
    ensures Power(2, m) > 0
  {
  }

  lemma IsSize(n: nat)
    ensures Abs(n) == n
  {
  }

  lemma CutOrNot(r: string, n: nat, d: nat, m: nat, s: nat)
    requires 54 <= s <= MAX_EXPANDED_DIGITS <= m + s && n == Power(2, m) && d == Power(2, m + s) && d > 0
    requires IsQuotient(r, n, d, QUOTIENT_SIGNIFICANT_DIGITS, false)
    ensures IsCanonical(r) && Mantissa(Split(r)) * d != n * Pow10(|Split(r).fraction|)
  {
    hide IsCanonical, Split, StopsAt, Mantissa, Text, Cut, Left, Pow10, Power;
    var k: nat :| StopsAt(n, d, QUOTIENT_SIGNIFICANT_DIGITS, k) && r == Text(Signed(false, Cut(n, d, k)), k);
    TerminatesButIsCut(m, s, k);
    TextIsCanonical(Signed(false, Cut(n, d, k)), k);
    CutIsExact(n, d, k, false);
  }

  /** The digits of a natural number are its canonical text. */
  lemma WholeText(n: nat)
    ensures IsCanonical(Digits(n)) && Split(Digits(n)) == Parts(false, Digits(n), "")
    ensures Mantissa(Split(Digits(n))) == n
  {
    TextIsCanonical(n, 0);
    NumDigits(n);
    assert Digits(n) + "" == Digits(n);
    assert Text(n, 0) == Digits(n);
  }

  /** Subtracting what was added gives back the very text there was before. */
  lemma SubtractingUndoesAdding(a: string, b: string, sum: string, r: string)
    requires IsCanonical(a) && IsCanonical(b)
    requires IsResult(sum, a, b, '+') && IsResult(r, sum, b, '-')
    ensures r == a
  {
    hide Split, IsCanonical, Text, At, Mantissa, Pow10;
    NanIsNotCanonical();
    var p, q := Split(a), Split(b);
    var k := Finest(p, q);
    var x, y := At(p, k), At(q, k);
    TextIsNumber(x + y, k);
    TextAt(x + y, k);
    var s := Split(sum);
    var j := Finest(s, q);
    AtFiner(s, j, k - j);
    AtFiner(q, j, k - j);
    TextOfAt(a, k);
    SameUnits(At(s, j), At(q, j), Pow10(k - j), x);
    Scaled(At(s, j) - At(q, j), j, k - j);
  }

  lemma SameUnits(s: int, q: int, t: int, x: int)
    requires s * t - q * t == x
    ensures (s - q) * t == x
  {
  }

  lemma Scaled(x: int, k: nat, j: nat)
    ensures Text(x * Pow10(j), k + j) == Text(x, k)
  {
    hide Canon, Pow10;
    CanonScales(x, k, j);
  }
}
