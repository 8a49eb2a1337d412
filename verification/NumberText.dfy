/** How src/type/number.cpp reads the text of a number: which text is one, what it stands for,
    and the canonical text it becomes. */
module NumberText {
  import opened Decimal

  const NOT_A_NUMBER := "__invalid__"

  /** The most digits an exponent may expand a number to, unless more were written. */
  const MAX_EXPANDED_DIGITS: nat := 4096

  // ---- what counts as a number ----

  predicate IsMark(c: char) {
    c == 'e' || c == 'E'
  }

  predicate IsSign(c: char) {
    c == '-' || c == '+'
  }

  function SignLength(s: string): nat {
    if s != "" && IsSign(s[0]) then 1 else 0
  }

  /** Where the exponent mark is, or the length. */
  function MarkAt(s: string): (i: nat)
    ensures i <= |s| && (i < |s| ==> IsMark(s[i])) && forall j :: 0 <= j < i ==> !IsMark(s[j])
  {
    if s == "" || IsMark(s[0]) then 0 else 1 + MarkAt(s[1..])
  }

  /** Digits with at most one point among them, and at least one digit. */
  predicate IsMantissa(m: string) {
    && (forall i :: 0 <= i < |m| ==> IsDigit(m[i]) || m[i] == '.')
    && (forall i, j :: 0 <= i < j < |m| ==> !(m[i] == '.' && m[j] == '.'))
    && (exists i :: 0 <= i < |m| && IsDigit(m[i]))
  }

  predicate IsExponent(x: string) {
    |x| > SignLength(x) && AllDigits(x[SignLength(x)..])
  }

  /** An optional sign, a mantissa, and an optional exponent after its mark. */
  predicate IsNumber(s: string) {
    var mark := MarkAt(s);
    && SignLength(s) <= mark && IsMantissa(s[SignLength(s)..mark])
    && (mark < |s| ==> IsExponent(s[mark + 1..]))
  }

  // ---- what a number stands for ----

  function MantissaOf(s: string): string
    requires SignLength(s) <= MarkAt(s)
  {
    s[SignLength(s)..MarkAt(s)]
  }

  function Whole(m: string): string {
    m[..Find(m, '.')]
  }

  function Fraction(m: string): string {
    var dot := Find(m, '.');
    if dot == |m| then "" else m[dot + 1..]
  }

  predicate Negative(s: string) {
    s != "" && s[0] == '-'
  }

  /** The exponent, 0 when there is none. */
  function Exponent(s: string): int {
    var mark := MarkAt(s);
    if mark == |s| then 0
    else
      var x := s[mark + 1..];
      var n := Num(x[SignLength(x)..]);
      if Negative(x) then -n else n
  }

  /** The digits of the mantissa as one number. */
  function Magnitude(s: string): int
    requires SignLength(s) <= MarkAt(s)
  {
    Num(Whole(MantissaOf(s)) + Fraction(MantissaOf(s)))
  }

  /** The power of ten the magnitude is multiplied by. */
  function Shift(s: string): int
    requires SignLength(s) <= MarkAt(s)
  {
    Exponent(s) - |Fraction(MantissaOf(s))|
  }

  /** The canonical text of n * 10^x. */
  function TextShifted(n: int, x: int): string {
    if x >= 0 then Text(n * Pow10(x), 0) else Text(n, -x)
  }

  /** How many digits n * 10^x is written with, the 0 before a point included. */
  function ExpandedLength(n: nat, x: int): int {
    var length := |Digits(n)|;
    if length + x <= 0 then 1 - x else if x >= 0 then length + x else length
  }

  function Written(s: string): nat
    requires SignLength(s) <= MarkAt(s)
  {
    |Whole(MantissaOf(s))| + |Fraction(MantissaOf(s))|
  }

  function Max(a: nat, b: nat): nat {
    if a > b then a else b
  }

  /** The digits of a number's exponent without leading zeros. */
  function ExponentDigits(s: string): string {
    var mark := MarkAt(s);
    if mark == |s| then ""
    else
      var x := s[mark + 1..];
      var d := x[SignLength(x)..];
      d[Leading(d)..]
  }

  /** How many zeros a text starts with. */
  function Leading(s: string): (n: nat)
    ensures n <= |s| && (n < |s| ==> s[n] != '0') && s[..n] == Zeros(n)
  {
    if s == "" || s[0] != '0' then 0 else 1 + Leading(s[1..])
  }

  /** Whether the exponent would expand the number beyond both limits; the code gives up on an
      exponent of more than nine digits without counting. */
  predicate TooLong(s: string)
    requires SignLength(s) <= MarkAt(s)
  {
    && MarkAt(s) < |s|
    && Magnitude(s) > 0
    && (|ExponentDigits(s)| > 9
        || ExpandedLength(Magnitude(s), Shift(s)) > Max(MAX_EXPANDED_DIGITS, Written(s)))
  }

  function Signed(negative: bool, n: int): int {
    if negative then -n else n
  }

  /** What canonical_text() makes of any text. */
  function CanonicalText(s: string): string {
    if !IsNumber(s) || TooLong(s) then NOT_A_NUMBER
    else TextShifted(Signed(Negative(s), Magnitude(s)), Shift(s))
  }

  // ---- the code ----

  /** The mantissa check of is_valid_number(). */
  method IsValidMantissa(s: string, start: nat, end: nat) returns (valid: bool)
    requires start < end <= |s|
    ensures valid == IsMantissa(s[start..end])
  {
    ghost var m := s[start..end];
    var hasDot := false;
    var i := start;
    while i < end
      invariant start <= i <= end
      invariant forall j :: 0 <= j < i - start ==> IsDigit(m[j]) || m[j] == '.'
      invariant hasDot <==> exists j :: 0 <= j < i - start && m[j] == '.'
      invariant forall j, k :: 0 <= j < k < i - start ==> !(m[j] == '.' && m[k] == '.')
    {
      assert m[i - start] == s[i];
      if s[i] == '.' {
        if hasDot {
          return false;
        }
        hasDot := true;
      } else if s[i] < '0' || s[i] > '9' {
        return false;
      }
      i := i + 1;
    }
    OneDotIsMantissa(m);
    assert m[0] == s[start] && m[|m| - 1] == s[end - 1];
    if hasDot && (s[start] == '.' || (end > start && s[end - 1] == '.')) {
      if end <= start + 1 {
        assert m == ".";
        return false;
      }
    }
    valid := true;
  }

  lemma OneDotIsMantissa(m: string)
    requires forall i :: 0 <= i < |m| ==> IsDigit(m[i]) || m[i] == '.'
    requires forall i, j :: 0 <= i < j < |m| ==> !(m[i] == '.' && m[j] == '.')
    ensures IsMantissa(m) <==> m != "" && m != "."
  {
    if |m| >= 2 {
      assert IsDigit(m[0]) || IsDigit(m[1]);
    }
  }

  /** The exponent check of is_valid_number(). */
  method IsValidExponent(s: string, mark: nat) returns (valid: bool)
    requires mark < |s|
    ensures valid == IsExponent(s[mark + 1..])
  {
    if mark + 1 >= |s| {
      return false;
    }
    ghost var x := s[mark + 1..];
    var start := mark + 1;
    assert x[0] == s[start];
    if IsSign(s[start]) {
      start := start + 1;
      if start >= |s| {
        return false;
      }
    }
    ghost var digits := x[SignLength(x)..];
    assert digits == s[start..];
    for i := start to |s|
      invariant forall j :: 0 <= j < i - start ==> IsDigit(digits[j])
    {
      assert digits[i - start] == s[i];
      if s[i] < '0' || s[i] > '9' {
        return false;
      }
    }
    valid := true;
  }

  /** is_valid_number() */
  method IsValidNumber(s: string) returns (valid: bool)
    ensures valid == IsNumber(s)
  {
    if s == "" {
      return false;
    }
    var start := 0;
    if IsSign(s[0]) {
      start := 1;
    }
    if start == |s| {
      return false;
    }
    var mark := MarkAt(s);
    if mark <= start && mark < |s| {
      return false;
    }
    hide IsMantissa, IsExponent;
    valid := IsValidMantissa(s, start, mark);
    if valid && mark < |s| {
      valid := IsValidExponent(s, mark);
    }
  }

  // ---- moving the point ----

  lemma MantissaDigits(s: string)
    requires IsNumber(s)
    ensures AllDigits(Whole(MantissaOf(s))) && AllDigits(Fraction(MantissaOf(s)))
    ensures Whole(MantissaOf(s)) + Fraction(MantissaOf(s)) != ""
    ensures Magnitude(s) >= 0
  {
    var m := MantissaOf(s);
    var dot := Find(m, '.');
    if dot < |m| {
      assert forall j :: dot < j < |m| ==> m[j] != '.';
    }
    NumBounds(Whole(m) + Fraction(m));
  }

  /** A text with no exponent mark, after its sign if it has one. */
  lemma SignThenDigits(sign: string, m: string)
    requires m != "" && IsDigit(m[0]) && (forall j :: 0 <= j < |m| ==> !IsMark(m[j]))
    requires sign == "" || sign == "-"
    ensures var r := sign + m;
      && SignLength(r) == |sign| && Negative(r) == (sign == "-") && r[|sign|..] == m
      && forall j :: 0 <= j < |r| ==> !IsMark(r[j])
  {
  }

  lemma NoMark(r: string)
    requires forall j :: 0 <= j < |r| ==> !IsMark(r[j])
    ensures MarkAt(r) == |r|
  {
    hide MarkAt, IsMark;
  }

  /** A plain text is a number, and reads as the parts it was put together from. */
  lemma JoinReads(p: Parts)
    requires AllDigits(p.integer) && AllDigits(p.fraction) && p.integer != ""
    ensures var r := Join(p);
      && IsNumber(r) && MarkAt(r) == |r| && Negative(r) == p.negative
      && Whole(MantissaOf(r)) == p.integer && Fraction(MantissaOf(r)) == p.fraction
  {
    hide IsMantissa, IsMark, Whole, Fraction, Plain, MarkAt, SignLength, Negative, AllDigits;
    var m := Plain(p.integer, p.fraction);
    var sign := if p.negative then "-" else "";
    var r := sign + m;
    PlainIsMantissa(p.integer, p.fraction);
    PlainSplits(p.integer, p.fraction);
    SignThenDigits(sign, m);
    NoMark(r);
    assert r[|sign|..|r|] == r[|sign|..];
  }

  lemma PlainSplits(integer: string, fraction: string)
    requires AllDigits(integer) && AllDigits(fraction)
    ensures Whole(Plain(integer, fraction)) == integer && Fraction(Plain(integer, fraction)) == fraction
  {
    var m := Plain(integer, fraction);
    FindIs(m, '.', |integer|);
    hide Find;
    assert m[..|integer|] == integer;
  }

  lemma PlainIsMantissa(integer: string, fraction: string)
    requires AllDigits(integer) && AllDigits(fraction) && integer != ""
    ensures IsMantissa(Plain(integer, fraction)) && IsDigit(Plain(integer, fraction)[0])
    ensures forall j :: 0 <= j < |Plain(integer, fraction)| ==> !IsMark(Plain(integer, fraction)[j])
  {
    var m := Plain(integer, fraction);
    assert IsDigit(m[0]);
  }

  /** The digits of a number with its point after the first n of them. */
  function Placed(digits: string, n: int): (p: Parts)
    requires digits != "" && AllDigits(digits)
    ensures AllDigits(p.integer) && AllDigits(p.fraction) && p.integer != "" && !p.negative
  {
    if n <= 0 then Parts(false, "0", Zeros(-n) + digits)
    else if n >= |digits| then Parts(false, digits + Zeros(n - |digits|), "")
    else Parts(false, digits[..n], digits[n..])
  }

  /** Placing the point keeps the value, with either sign. */
  lemma PlacedKeepsValue(digits: string, n: int, negative: bool)
    requires digits != "" && AllDigits(digits)
    ensures var p := Placed(digits, n);
      TextShifted(Signed(negative, Num(p.integer + p.fraction)), -|p.fraction|)
      == TextShifted(Signed(negative, Num(digits)), n - |digits|)
  {
    hide TextShifted, Num, Signed, Pow10;
    var p := Placed(digits, n);
    if n <= 0 {
      assert p.integer + p.fraction == Zeros(1 - n) + digits;
      LeadingZeros(1 - n, digits);
    } else if n >= |digits| {
      var z := n - |digits|;
      assert p.integer + p.fraction == digits + Zeros(z);
      TrailingZeros(digits, z);
      ScaledText(negative, Num(digits), z);
    } else {
      assert p.integer + p.fraction == digits;
    }
  }

  lemma PlacedLength(digits: string, n: int)
    requires digits != "" && AllDigits(digits)
    ensures var p := Placed(digits, n);
      |p.integer| + |p.fraction| == if n <= 0 then 1 - n + |digits| else if n >= |digits| then n else |digits|
  {
  }

  lemma ScaledText(negative: bool, n: int, z: nat)
    ensures TextShifted(Signed(negative, n * Pow10(z)), 0) == TextShifted(Signed(negative, n), z)
  {
    hide Text;
    assert -n * Pow10(z) == -(n * Pow10(z));
    assert Pow10(0) == 1;
  }

  /** What a text without an exponent stands for. */
  lemma PlainMeans(r: string)
    requires IsNumber(r) && MarkAt(r) == |r|
    ensures var i, f := Whole(MantissaOf(r)), Fraction(MantissaOf(r));
      && !TooLong(r) && Written(r) == |i| + |f|
      && CanonicalText(r) == TextShifted(Signed(Negative(r), Num(i + f)), -|f|)
  {
    hide IsMantissa, IsExponent, MarkAt, Whole, Fraction, MantissaOf, TextShifted, Num;
  }

  /** A plain text with the value of a number has its canonical text. */
  lemma SameValueSameText(s: string, p: Parts)
    requires IsNumber(s) && !TooLong(s)
    requires AllDigits(p.integer) && AllDigits(p.fraction) && p.integer != ""
    requires TextShifted(Signed(p.negative, Num(p.integer + p.fraction)), -|p.fraction|)
             == TextShifted(Signed(Negative(s), Magnitude(s)), Shift(s))
    ensures IsNumber(Join(p)) && MarkAt(Join(p)) == |Join(p)|
    ensures CanonicalText(Join(p)) == CanonicalText(s)
    ensures Written(Join(p)) == |p.integer| + |p.fraction|
  {
    JoinReads(p);
    PlainMeans(Join(p));
    hide IsNumber, TooLong, Join, Whole, Fraction, MarkAt, TextShifted, MantissaOf, Shift, Magnitude, Written, Num;
  }

  /** Leading zeros dropped, the digits of a mantissa are those of its magnitude. */
  lemma DroppedZeros(digits: string)
    requires AllDigits(digits)
    ensures var d := digits[Leading(digits)..];
      Num(d) == Num(digits) >= 0 && (d == "" <==> Num(digits) == 0) && (d != "" ==> Digits(Num(digits)) == d)
  {
    var first := Leading(digits);
    var d := digits[first..];
    assert digits == Zeros(first) + d;
    LeadingZeros(first, d);
    NumBounds(d);
    if d != "" {
      DigitsIs(d);
      NumDigits(Num(d));
    }
  }

  /** The digits of a mantissa and where its point is. */
  method ReadMantissa(m: string) returns (digits: string, point: nat)
    requires IsMantissa(m)
    ensures digits == Whole(m) + Fraction(m) && point == |Whole(m)|
  {
    ghost var dot := Find(m, '.');
    digits := "";
    point := |m|;
    for i := 0 to |m|
      invariant i <= dot ==> digits == m[..i] && point == |m|
      invariant i > dot ==> digits == m[..dot] + m[dot + 1..i] && point == dot
    {
      if m[i] == '.' {
        point := i;
      } else {
        digits := digits + [m[i]];
      }
      if i > dot {
        assert m[dot] == '.' && m[dot + 1..i + 1] == m[dot + 1..i] + [m[i]];
      } else if i < dot {
        assert m[..i + 1] == m[..i] + [m[i]];
      }
    }
    assert m[..|m|] == m;
  }

  /** The digits of an exponent, and its sign. */
  method ReadExponent(x: string) returns (negative: bool, exponent: string)
    requires IsExponent(x)
    ensures negative == Negative(x)
    ensures var d := x[SignLength(x)..]; exponent == d[Leading(d)..]
  {
    exponent := x;
    negative := exponent[0] == '-';
    if exponent[0] == '-' || exponent[0] == '+' {
      exponent := exponent[1..];
    }
    exponent := exponent[Leading(exponent)..];
  }

  /** Writes digits with the point after the first n of them. */
  method Place(negative: bool, digits: string, n: int) returns (r: string)
    requires digits != "" && AllDigits(digits)
    ensures r == Join(Placed(digits, n).(negative := negative))
  {
    var length := |digits|;
    if n <= 0 {
      r := "0." + Zeros(-n) + digits;
      assert r == "0" + "." + (Zeros(-n) + digits);
    } else if n >= length {
      r := digits + Zeros(n - length);
    } else {
      r := digits[..n] + "." + digits[n..];
    }
    if negative {
      r := "-" + r;
    }
  }

  lemma ZeroText(x: int)
    ensures TextShifted(0, x) == "0"
  {
    ZeroParts(if x >= 0 then 0 else -x);
  }

  lemma NumberStarts(s: string)
    requires IsNumber(s)
    ensures s != "" && (IsSign(s[0]) || IsDigit(s[0]) || s[0] == '.')
  {
    var m := MantissaOf(s);
    hide MarkAt;
    assert m != "";
    assert m[0] == s[SignLength(s)];
  }

  lemma NanIsNoNumber()
    ensures !IsNumber(NOT_A_NUMBER)
  {
    if IsNumber(NOT_A_NUMBER) {
      NumberStarts(NOT_A_NUMBER);
    }
  }

  lemma NumberHas(s: string)
    requires IsNumber(s)
    ensures SignLength(s) <= MarkAt(s) && IsMantissa(MantissaOf(s))
    ensures MarkAt(s) < |s| ==> IsExponent(s[MarkAt(s) + 1..])
  {
  }

  /** The value of the digits that are read from a mantissa and from an exponent. */
  lemma ReadMeans(s: string, all: string, point: nat, negative: bool, exponent: string)
    requires IsNumber(s) && MarkAt(s) < |s|
    requires all == Whole(MantissaOf(s)) + Fraction(MantissaOf(s)) && point == |Whole(MantissaOf(s))|
    requires negative == Negative(s[MarkAt(s) + 1..])
    requires var x := s[MarkAt(s) + 1..];
      exponent == x[SignLength(x)..][Leading(x[SignLength(x)..])..]
    ensures exponent == ExponentDigits(s) && AllDigits(exponent) && |all| == Written(s)
    ensures exponent != "" ==> exponent[0] != '0'
    ensures Num(all[Leading(all)..]) == Magnitude(s) >= 0
    ensures Leading(all) == |all| <==> Magnitude(s) == 0
    ensures Leading(all) < |all| ==> all[Leading(all)..] == Digits(Magnitude(s))
    ensures point - Leading(all) + Signed(negative, Num(exponent)) == |all| - Leading(all) + Shift(s)
  {
    var x := s[MarkAt(s) + 1..];
    MantissaDigits(s);
    DroppedZeros(Whole(MantissaOf(s)) + Fraction(MantissaOf(s)));
    hide IsMantissa, Whole, Fraction, MarkAt, Leading, Num, Digits;
    DroppedZeros(x[SignLength(x)..]);
  }

  /** A number whose digits are all zeros. */
  lemma ZeroExpands(s: string)
    requires IsNumber(s) && Magnitude(s) == 0
    ensures !TooLong(s) && IsNumber("0") && MarkAt("0") == 1 && Written("0") == 1
    ensures CanonicalText("0") == CanonicalText(s) == "0"
  {
    var p := Parts(false, "0", "");
    assert Join(p) == "0" && "0" + "" == "0";
    ZeroText(Shift(s));
    ZeroText(0);
    OneZero();
    hide TextShifted, IsNumber, Shift;
    SameValueSameText(s, p);
  }

  /** Placing the point of a number's digits by its exponent expands it. */
  lemma PlacedExpands(s: string, digits: string)
    requires IsNumber(s) && !TooLong(s)
    requires digits != "" && AllDigits(digits) && Num(digits) == Magnitude(s) >= 0
    requires digits == Digits(Magnitude(s))
    ensures var r := Join(Placed(digits, |digits| + Shift(s)).(negative := Negative(s)));
      && IsNumber(r) && MarkAt(r) == |r| && CanonicalText(r) == CanonicalText(s)
      && Written(r) == ExpandedLength(Magnitude(s), Shift(s))
  {
    hide IsNumber, TooLong, Shift, Magnitude, Num, Digits, Join, Placed, MarkAt, Written, CanonicalText, Signed,
         TextShifted, MantissaOf, AllDigits, Negative, IsMantissa, IsExponent, Zeros;
    var n := |digits| + Shift(s);
    var p := Placed(digits, n).(negative := Negative(s));
    PlacedKeepsValue(digits, n, Negative(s));
    PlacedLength(digits, n);
    SameValueSameText(s, p);
  }

  /** The last part of expand_exponent(): the exponent, the limits and the point. */
  method ApplyExponent(ghost s: string, negative: bool, digits: string, leading: int,
                       exponentNegative: bool, exponent: string, written: nat) returns (r: string)
    requires IsNumber(s) && MarkAt(s) < |s| && negative == Negative(s) && written == Written(s)
    requires Magnitude(s) > 0 && digits == Digits(Magnitude(s)) && exponent == ExponentDigits(s)
    requires AllDigits(exponent) && Num(digits) == Magnitude(s)
    requires leading + Signed(exponentNegative, Num(exponent)) == |digits| + Shift(s)
    ensures r == NOT_A_NUMBER <==> TooLong(s)
    ensures !TooLong(s) ==> IsNumber(r) && MarkAt(r) == |r| && CanonicalText(r) == CanonicalText(s)
    ensures !TooLong(s) ==> Written(r) <= Max(MAX_EXPANDED_DIGITS, written)
  {
    hide IsNumber, Num, Digits, CanonicalText, Shift, Magnitude, MarkAt, Join, Placed, Written, AllDigits,
         IsMantissa, IsExponent, MantissaOf, ExponentDigits;
    if |exponent| > 9 {
      return NOT_A_NUMBER;
    }
    var shift := Num(exponent);
    var integerDigits := leading + (if exponentNegative then -shift else shift);
    var length := |digits|;
    var total := if integerDigits <= 0 then 1 - integerDigits + length
                 else if integerDigits > length then integerDigits else length;
    if total > Max(MAX_EXPANDED_DIGITS, written) {
      return NOT_A_NUMBER;
    }
    PlacedExpands(s, digits);
    NanIsNoNumber();
    r := Place(negative, digits, integerDigits);
  }

  /** expand_exponent(): a text without an exponent that has the same value, or NaN if it would be
      too long. */
  method ExpandExponent(s: string) returns (r: string)
    requires IsNumber(s)
    ensures r == NOT_A_NUMBER <==> TooLong(s)
    ensures !TooLong(s) ==> IsNumber(r) && MarkAt(r) == |r| && CanonicalText(r) == CanonicalText(s)
    ensures !TooLong(s) && MarkAt(s) < |s| ==> Written(r) <= Max(MAX_EXPANDED_DIGITS, Written(s))
    ensures MarkAt(s) == |s| ==> r == s
  {
    hide IsNumber, Num, Digits, Whole, Fraction, CanonicalText, Shift, Magnitude, MarkAt, Written, TooLong,
         IsMantissa, IsExponent, Leading, MantissaOf, AllDigits, SignLength, IsDigit, ExponentDigits, Signed;
    NanIsNoNumber();
    var mark := MarkAt(s);
    if mark == |s| {
      PlainMeans(s);
      return s;
    }
    NumberHas(s);
    var digits, point := ReadMantissa(MantissaOf(s));
    var exponentNegative, exponent := ReadExponent(s[mark + 1..]);
    ReadMeans(s, digits, point, exponentNegative, exponent);
    var written := |digits|;
    var first := Leading(digits);
    if first == |digits| {
      ZeroExpands(s);
      return "0";
    }
    digits := digits[first..];
    var leading: int := point;
    leading := leading - first;
    r := ApplyExponent(s, s[0] == '-', digits, leading, exponentNegative, exponent, written);
  }

  // ---- the canonical form ----

  /** The length of a text without the zeros at its end. */
  function Kept(s: string): (n: nat)
    ensures n <= |s| && (n > 0 ==> s[n - 1] != '0') && s[n..] == Zeros(|s| - n)
  {
    if s == "" || s[|s| - 1] != '0' then |s| else Kept(s[..|s| - 1])
  }

  /** The integer digits without leading zeros, with one for none. */
  function Stripped(integer: string): (r: string)
    requires AllDigits(integer)
    ensures AllDigits(r) && r != "" && (|r| > 1 ==> r[0] != '0')
  {
    var d := integer[Leading(integer)..];
    if d == "" then "0" else d
  }

  /** Dropping zeros at both ends keeps the value and leaves none to drop. */
  lemma StrippedParts(integer: string, fraction: string)
    requires AllDigits(integer) && AllDigits(fraction)
    ensures Num(integer + fraction) >= 0
    ensures Text(Num(integer + fraction), |fraction|) == Plain(Stripped(integer), fraction[..Kept(fraction)])
  {
    var i, f := Stripped(integer), fraction[..Kept(fraction)];
    KeptWellFormed(integer, fraction);
    hide *;
    StrippedNum(integer, f);
    KeptNum(integer, fraction);
    CanonOfParts(i, f);
    NumBounds(integer + fraction);
    KeptText(Num(i + f), Num(integer + fraction), |fraction|, i, f);
  }

  lemma KeptWellFormed(integer: string, fraction: string)
    requires AllDigits(integer) && AllDigits(fraction)
    ensures WellFormed(Parts(false, Stripped(integer), fraction[..Kept(fraction)]))
    ensures |fraction[..Kept(fraction)]| <= |fraction|
  {
    KeptEnds(fraction);
    hide Kept, Stripped, AllDigits;
  }

  lemma KeptEnds(fraction: string)
    requires AllDigits(fraction)
    ensures var f := fraction[..Kept(fraction)];
      |f| <= |fraction| && AllDigits(f) && (f != "" ==> f[|f| - 1] != '0')
  {
    hide Kept;
  }

  lemma KeptText(n: int, m: int, k: nat, integer: string, fraction: string)
    requires |fraction| <= k && m == n * Pow10(k - |fraction|)
    requires Canon(n, |fraction|) == Parts(false, integer, fraction)
    ensures Text(m, k) == Plain(integer, fraction)
  {
    hide Canon, Pow10, Text, Plain;
    CanonScales(n, |fraction|, k - |fraction|);
    CanonIsText(m, k, integer, fraction);
  }

  lemma CanonIsText(m: int, k: nat, integer: string, fraction: string)
    requires Canon(m, k) == Parts(false, integer, fraction)
    ensures Text(m, k) == Plain(integer, fraction)
  {
    hide Canon;
  }

  lemma KeptNum(integer: string, fraction: string)
    ensures var f := fraction[..Kept(fraction)];
      Num(integer + fraction) == Num(integer + f) * Pow10(|fraction| - |f|)
  {
    var f := fraction[..Kept(fraction)];
    hide *;
    var z := |fraction| - |f|;
    assert integer + fraction == integer + f + Zeros(z);
    TrailingZeros(integer + f, z);
  }

  lemma StrippedNum(integer: string, f: string)
    requires AllDigits(integer)
    ensures Num(Stripped(integer) + f) == Num(integer + f)
  {
    var first := Leading(integer);
    var d := integer[first..];
    assert integer + f == Zeros(first) + (d + f);
    LeadingZeros(first, d + f);
    if d == "" {
      assert d + f == f && "0" + f == Zeros(1) + f;
      LeadingZeros(1, f);
    }
  }

  /** The sign is written unless the value is zero. */
  lemma SignedText(negative: bool, m: int, k: int)
    requires m >= 0 && k >= 0
    ensures TextShifted(Signed(negative, m), -k)
            == if negative && Text(m, k) != "0" then "-" + Text(m, k) else Text(m, k)
  {
    PowerZero();
    if m == 0 {
      ZeroText(-k);
      ZeroParts(k);
    } else {
      hide Text, Pow10;
      if Text(m, k) == "0" {
        ZeroTextValue(m, k);
      } else if negative {
        MinusText(m, k);
      }
    }
  }

  lemma MinusText(m: int, k: nat)
    requires m > 0
    ensures Text(-m, k) == "-" + Text(m, k)
  {
    CanonIs(m, k);
    hide WellFormed, Mantissa, Pow10;
    var p := Canon(m, k);
    assert Canon(-m, k) == p.(negative := true);
  }

  lemma PowerZero()
    ensures Pow10(0) == 1
  {
  }

  lemma ZeroTextValue(m: int, k: nat)
    requires Text(m, k) == "0"
    ensures m == 0
  {
    ZeroParts(k);
    assert Text(0, k) == "0";
    hide Text;
    SameTextSameValue(m, k, 0, k);
    Cancel(m, 0, Pow10(k));
  }

  /** canonical_text() */
  method MakeCanonical(s: string) returns (r: string)
    ensures r == CanonicalText(s)
  {
    hide IsNumber, Whole, Fraction, MarkAt, TooLong, TextShifted, Text, Num, Signed, Find, Kept, Stripped;
    var valid := IsValidNumber(s);
    if !valid {
      return NOT_A_NUMBER;
    }
    var expanded := ExpandExponent(s);
    if expanded == NOT_A_NUMBER {
      return NOT_A_NUMBER;
    }
    PlainMeans(expanded);
    MantissaDigits(expanded);
    NumberStarts(expanded);
    var negative := expanded[0] == '-';
    var start := if expanded[0] == '-' || expanded[0] == '+' then 1 else 0;
    var rest := expanded[start..];
    assert rest == MantissaOf(expanded);
    var integer, fraction := Whole(rest), Fraction(rest);
    StrippedParts(integer, fraction);
    SignedText(negative, Num(integer + fraction), |fraction|);
    integer := Stripped(integer);
    fraction := fraction[..Kept(fraction)];
    var result := if fraction == "" then integer else integer + "." + fraction;
    r := if negative && result != "0" then "-" + result else result;
  }

  // ---- what the canonical text is ----

  /** The value of a number is Upper(s) / 10^Places(s). */
  function Upper(s: string): int
    requires SignLength(s) <= MarkAt(s)
  {
    var n := Signed(Negative(s), Magnitude(s));
    if Shift(s) >= 0 then n * Pow10(Shift(s)) else n
  }

  function Places(s: string): nat
    requires SignLength(s) <= MarkAt(s)
  {
    if Shift(s) >= 0 then 0 else -Shift(s)
  }

  /** A canonical text is the text of its own value. */
  lemma CanonicalStays(t: string)
    requires IsCanonical(t)
    ensures CanonicalText(t) == t
  {
    var p := Split(t);
    JoinReads(p);
    PlainMeans(t);
    CanonicalIsText(t);
    PowerZero();
    hide IsNumber, IsCanonical, Text, Num, Split, Whole, Fraction, CanonicalText, MarkAt, Join;
    assert Signed(Negative(t), Num(p.integer + p.fraction)) == Mantissa(p);
  }

  /** Any text becomes either the one NaN or a canonical text; making it canonical again changes
      nothing. */
  lemma CanonicalOnce(s: string)
    ensures CanonicalText(s) == NOT_A_NUMBER || IsCanonical(CanonicalText(s))
    ensures CanonicalText(CanonicalText(s)) == CanonicalText(s)
  {
    var r := CanonicalText(s);
    if r == NOT_A_NUMBER {
      hide *;
      NanStays();
    } else {
      hide IsCanonical, Text, IsNumber, TooLong, Magnitude, Shift;
      var n, x := Signed(Negative(s), Magnitude(s)), Shift(s);
      TextIsCanonical(if x >= 0 then n * Pow10(x) else n, if x >= 0 then 0 else -x);
      assert IsCanonical(r);
      hide *;
      CanonicalStays(r);
    }
  }

  lemma NanStays()
    ensures CanonicalText(NOT_A_NUMBER) == NOT_A_NUMBER
  {
    NanIsNoNumber();
  }

  lemma NanIsNotCanonical()
    ensures !IsCanonical(NOT_A_NUMBER)
  {
    if IsCanonical(NOT_A_NUMBER) {
      JoinReads(Split(NOT_A_NUMBER));
      hide *;
      NanIsNoNumber();
    }
  }

  /** Canonical texts are equal exactly for equal values, whatever way those were written. */
  lemma EqualTextsEqualValues(s: string, t: string)
    requires IsNumber(s) && IsNumber(t) && !TooLong(s) && !TooLong(t)
    ensures CanonicalText(s) == CanonicalText(t)
            <==> Upper(s) * Pow10(Places(t)) == Upper(t) * Pow10(Places(s))
  {
    NumberHas(s);
    NumberHas(t);
    hide IsNumber, TooLong, Text, Pow10, Magnitude, Shift, Signed, Negative, MarkAt, SignLength;
    SameTextSameValue(Upper(s), Places(s), Upper(t), Places(t));
  }

  /** NaN stands for the texts that are no number or too long, and for no others. */
  lemma NanExactly(s: string)
    ensures CanonicalText(s) == NOT_A_NUMBER <==> !IsNumber(s) || TooLong(s)
  {
    if IsNumber(s) && !TooLong(s) {
      hide IsCanonical, Text, IsNumber, TooLong, Magnitude, Shift;
      var n, x := Signed(Negative(s), Magnitude(s)), Shift(s);
      TextIsCanonical(if x >= 0 then n * Pow10(x) else n, if x >= 0 then 0 else -x);
      assert IsCanonical(CanonicalText(s));
      hide *;
      NanIsNotCanonical();
    }
  }

  /** The limit alone, without the shortcut that gives up on an exponent of more than nine digits. */
  predicate OverLimit(s: string)
    requires SignLength(s) <= MarkAt(s)
  {
    && MarkAt(s) < |s|
    && Magnitude(s) > 0
    && ExpandedLength(Magnitude(s), Shift(s)) > Max(MAX_EXPANDED_DIGITS, Written(s))
  }

  /** Giving up on an exponent of ten digits gives up on nothing the limit would let through. */
  lemma LongExponentIsTooLong(s: string)
    requires IsNumber(s) && Written(s) <= 500_000_000
    ensures TooLong(s) <==> OverLimit(s)
  {
    hide IsNumber, Whole, Fraction, Num, Digits, MarkAt, Leading, Magnitude, MantissaOf, IsMantissa,
         IsExponent, AllDigits, Pow10, Zeros, ExpandedLength, Shift, Negative, SignLength, Written, ExponentDigits;
    NumberHas(s);
    if MarkAt(s) < |s| && Magnitude(s) > 0 && |ExponentDigits(s)| > 9 {
      LongExponentIsOver(s);
    }
  }

  lemma LongExponentIsOver(s: string)
    requires IsNumber(s) && MarkAt(s) < |s| && Magnitude(s) > 0 && Written(s) <= 500_000_000
    requires |ExponentDigits(s)| > 9
    ensures ExpandedLength(Magnitude(s), Shift(s)) > Max(MAX_EXPANDED_DIGITS, Written(s))
  {
    hide IsNumber, Whole, Fraction, Num, Digits, MarkAt, Leading, Magnitude, MantissaOf, IsMantissa,
         IsExponent, AllDigits, Pow10, Zeros, TooLong, ExpandedLength;
    NumberHas(s);
    ExponentIsSigned(s);
    var digits := ExponentDigits(s);
    TenDigits(digits);
    OutOfReach(Magnitude(s), Shift(s), |Fraction(MantissaOf(s))|, Num(digits), Negative(s[MarkAt(s) + 1..]), Written(s));
  }

  /** The digits of an exponent, without leading zeros, are its size. */
  lemma ExponentIsSigned(s: string)
    requires IsNumber(s) && MarkAt(s) < |s|
    ensures var digits := ExponentDigits(s);
      && AllDigits(digits) && (digits != "" ==> digits[0] != '0')
      && Exponent(s) == Signed(Negative(s[MarkAt(s) + 1..]), Num(digits))
  {
    NumberHas(s);
    hide IsNumber, IsMantissa, IsExponent, MarkAt, Leading, Num, AllDigits, Negative, SignLength;
    SizeOfExponent(s[MarkAt(s) + 1..]);
  }

  lemma SizeOfExponent(x: string)
    requires IsExponent(x)
    ensures var d := x[SignLength(x)..]; var digits := d[Leading(d)..];
      && AllDigits(digits) && (digits != "" ==> digits[0] != '0') && Num(digits) == Num(d)
  {
    hide Leading, Num, Digits, SignLength;
    DroppedZeros(x[SignLength(x)..]);
  }

  lemma OutOfReach(n: nat, x: int, places: nat, e: int, negative: bool, written: nat)
    requires e >= 1_000_000_000 && places <= written <= 500_000_000 && x == Signed(negative, e) - places
    ensures ExpandedLength(n, x) > Max(MAX_EXPANDED_DIGITS, written)
  {
    hide Digits;
  }

  /** A one with n zeros before it behind the point, times ten to the e. */
  function FarOne(n: nat, e: nat): string {
    Plain("0", Zeros(n) + "1") + "e" + Digits(e)
  }

  lemma FarOneReads(n: nat, e: nat)
    ensures var s, m := FarOne(n, e), Plain("0", Zeros(n) + "1");
      && SignLength(s) == 0 && MarkAt(s) == |m| < |s| && MantissaOf(s) == m && IsNumber(s)
      && s[|m| + 1..] == Digits(e)
  {
    var m, x := Plain("0", Zeros(n) + "1"), Digits(e);
    assert AllDigits(Zeros(n) + "1");
    PlainIsMantissa("0", Zeros(n) + "1");
    hide IsMantissa, Plain, Zeros, Digits;
    var s := m + "e" + x;
    assert s[..|m|] == m && s[0] == m[0] && s[|m|] == 'e' && s[|m| + 1..] == x;
    assert forall j :: 0 <= j < |m| ==> s[j] == m[j] && !IsMark(s[j]);
    MarkIs(s, |m|);
    assert IsDigit(x[0]) && x[0..] == x;
  }

  lemma {:induction false} MarkIs(s: string, i: nat)
    requires i < |s| && IsMark(s[i]) && forall j :: 0 <= j < i ==> !IsMark(s[j])
    ensures MarkAt(s) == i
  {
    hide MarkAt, IsMark;
  }

  /** Where a fraction is about as long as the exponent says, the number needs no more digits than it was
      written with, and the code gives up on it all the same. */
  lemma LongExponentGivesUp(n: nat, e: nat)
    requires e >= 1_000_000_000 && n + 1 <= e <= 2 * n + 2
    ensures var s := FarOne(n, e);
      && IsNumber(s) && SignLength(s) <= MarkAt(s) && Written(s) == n + 2
      && Magnitude(s) == 1 && Shift(s) == e - n - 1 && ExpandedLength(1, e - n - 1) == e - n <= Written(s)
      && TooLong(s) && !OverLimit(s) && CanonicalText(s) == NOT_A_NUMBER
  {
    hide *;
    FarOneReads(n, e);
    FarOneMagnitude(n, e);
    FarOneExponent(n, e);
    OneExpands(e - n - 1);
    GivesUp(FarOne(n, e), e - n - 1);
  }

  lemma GivesUp(s: string, x: nat)
    requires IsNumber(s) && SignLength(s) <= MarkAt(s) < |s| && Magnitude(s) == 1 && |ExponentDigits(s)| > 9
    requires x == Exponent(s) - |Fraction(MantissaOf(s))| && ExpandedLength(1, x) <= Written(s)
    ensures Shift(s) == x && TooLong(s) && !OverLimit(s) && CanonicalText(s) == NOT_A_NUMBER
  {
    hide IsNumber, MarkAt, Magnitude, ExponentDigits, Exponent, Fraction, MantissaOf, ExpandedLength, Written,
         SignLength, TextShifted;
  }

  lemma OneExpands(x: nat)
    ensures ExpandedLength(1, x) == 1 + x
  {
    hide Digits;
    assert |Digits(1)| == 1 by {
      OneDigit();
    }
  }

  /** Giving up on a long exponent is right for all numbers written with at most so many digits exactly up
      to 500000000. */
  lemma ShortcutIsRightExactly(digits: nat)
    ensures (forall s :: IsNumber(s) && SignLength(s) <= MarkAt(s) && Written(s) <= digits ==>
               (TooLong(s) <==> OverLimit(s)))
            <==> digits <= 500_000_000
  {
    hide *;
    if digits <= 500_000_000 {
      forall s | IsNumber(s) && SignLength(s) <= MarkAt(s) && Written(s) <= digits
        ensures TooLong(s) <==> OverLimit(s)
      {
        LongExponentIsTooLong(s);
      }
    } else {
      ShortcutIsWrong(499_999_999, 1_000_000_000);
    }
  }

  lemma ShortcutIsWrong(n: nat, e: nat)
    requires e >= 1_000_000_000 && n + 1 <= e <= 2 * n + 2
    ensures exists s :: IsNumber(s) && SignLength(s) <= MarkAt(s) && Written(s) == n + 2 && TooLong(s) && !OverLimit(s)
  {
    hide *;
    LongExponentGivesUp(n, e);
    var s := FarOne(n, e);
    NumberHas(s);
    assert IsNumber(s) && TooLong(s) && !OverLimit(s);
  }

  lemma OneDigit()
    ensures |Digits(1)| == 1
  {
  }

  lemma FarOneMagnitude(n: nat, e: nat)
    ensures var s := FarOne(n, e);
      && SignLength(s) <= MarkAt(s) && Magnitude(s) == 1
      && |Fraction(MantissaOf(s))| == n + 1 && Written(s) == n + 2
  {
    FarOneReads(n, e);
    OneFarAway(n);
    assert AllDigits(Zeros(n) + "1");
    PlainSplits("0", Zeros(n) + "1");
    hide FarOne, IsNumber, MarkAt, MantissaOf, Fraction, Whole, Plain, SignLength, Num;
  }

  lemma FarOneExponent(n: nat, e: nat)
    requires e >= 1_000_000_000
    ensures var s := FarOne(n, e); MarkAt(s) < |s| && Exponent(s) == e && |ExponentDigits(s)| > 9
  {
    FarOneReads(n, e);
    NumDigits(e);
    LongEnough(e);
    NoLeading(Digits(e));
    UnsignedDigits(Digits(e));
    hide FarOne, IsNumber, MarkAt, MantissaOf, Plain, SignLength, Num, Digits, Leading, Negative;
  }

  lemma UnsignedDigits(x: string)
    requires AllDigits(x) && x != ""
    ensures SignLength(x) == 0 && !Negative(x) && x[0..] == x
  {
    assert IsDigit(x[0]);
  }

  lemma LongEnough(n: nat)
    requires n >= 1_000_000_000
    ensures |Digits(n)| > 9
  {
    Billion();
    DigitsLength(n, 9);
  }

  lemma OneFarAway(n: nat)
    ensures Num("0" + (Zeros(n) + "1")) == 1
  {
    assert "0" + (Zeros(n) + "1") == Zeros(n + 1) + "1";
    LeadingZeros(n + 1, "1");
    assert Num("1") == 1 by {
      assert "1"[..0] == "";
    }
  }

  lemma NoLeading(x: string)
    requires x != "" && x[0] != '0'
    ensures Leading(x) == 0 && x[0..] == x
  {
  }

  lemma TenDigits(d: string)
    requires AllDigits(d) && |d| > 9 && d[0] != '0'
    ensures Num(d) >= 1_000_000_000
  {
    DigitsIs(d);
    Pow10Grows(9, |d| - 1);
    Billion();
  }

  lemma Billion()
    ensures Pow10(9) == 1_000_000_000
  {
    assert Pow10(3) == 1000;
    Pow10Sum(3, 3);
    Pow10Sum(6, 3);
  }
}
