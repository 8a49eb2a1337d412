/** Decimal digits, and the one text that stands for each decimal value. */
module Decimal {

  function Val(c: char): int {
    c as int - '0' as int
  }

  predicate IsDigit(c: char) {
    '0' <= c <= '9'
  }

  predicate AllDigits(s: string) {
    forall i :: 0 <= i < |s| ==> IsDigit(s[i])
  }

  function DigitChar(d: int): (c: char)
    requires 0 <= d <= 9
    ensures IsDigit(c) && Val(c) == d
  {
    ('0' as int + d) as char
  }

  function Pow10(n: nat): (p: nat)
    ensures p >= 1
  {
    if n == 0 then 1 else 10 * Pow10(n - 1)
  }

  /** The number a row of cells stands for, first cell heaviest. A cell may hold more than 9. */
  function Num(s: string): int {
    if s == [] then 0 else Num(s[..|s| - 1]) * 10 + Val(s[|s| - 1])
  }

  function Zeros(n: nat): (s: string)
    ensures |s| == n && forall i :: 0 <= i < n ==> s[i] == '0'
  {
    seq(n, i => '0')
  }

  /** The digits of a natural number, with no leading zero but for 0 itself. */
  function Digits(n: nat): (s: string)
    ensures |s| >= 1 && AllDigits(s)
  {
    if n < 10 then [DigitChar(n)] else Digits(n / 10) + [DigitChar(n % 10)]
  }

  /** The last k digits of a natural number, zeros included. */
  function Pad(n: nat, k: nat): (s: string)
    ensures |s| == k && AllDigits(s)
  {
    if k == 0 then "" else Pad(n / 10, k - 1) + [DigitChar(n % 10)]
  }

  /** Sign, integer digits and fraction digits of a number's text. */
  datatype Parts = Parts(negative: bool, integer: string, fraction: string)

  /** Text of an integer part and a fraction. */
  function Plain(integer: string, fraction: string): string {
    if fraction == "" then integer else integer + "." + fraction
  }

  function Join(p: Parts): string {
    (if p.negative then "-" else "") + Plain(p.integer, p.fraction)
  }

  /** A natural number without its last k digits. */
  function Above(m: nat, k: nat): nat {
    if k == 0 then m else Above(m / 10, k - 1)
  }

  /** The parts of m / 10^k with no zero that could be dropped. */
  function Canon(m: int, k: nat): Parts
    decreases m < 0, k
  {
    if m < 0 then Canon(-m, k).(negative := true)
    else if k == 0 then Parts(false, Digits(m), "")
    else if m % 10 == 0 then Canon(m / 10, k - 1)
    else Parts(false, Digits(Above(m, k)), Pad(m, k))
  }

  /** The canonical text of m / 10^k: no exponent, no sign but a leading minus, no leading zero
      before the units, no trailing zero in the fraction, and no fraction when there is none. */
  function Text(m: int, k: nat): string {
    Join(Canon(m, k))
  }

  // ---- powers ----

  lemma Regroup(m: int, p: int)
    ensures m * (10 * p) == m * p * 10
  {
  }

  lemma {:induction false} Pow10Sum(a: nat, b: nat)
    ensures Pow10(a + b) == Pow10(a) * Pow10(b)
  {
    if a > 0 {
      Pow10Sum(a - 1, b);
      Regroup(Pow10(b), Pow10(a - 1));
    }
  }

  lemma {:induction false} Pow10Grows(a: nat, b: nat)
    requires a <= b
    ensures Pow10(a) <= Pow10(b)
    decreases b
  {
    if a < b {
      Pow10Grows(a, b - 1);
    }
  }

  // ---- rows of digits ----

  lemma {:induction false} NumConcat(a: string, b: string)
    ensures Num(a + b) == Num(a) * Pow10(|b|) + Num(b)
  {
    if b == [] {
      assert a + b == a;
    } else {
      var n := |b| - 1;
      NumConcat(a, b[..n]);
      assert (a + b)[..|a + b| - 1] == a + b[..n];
      Regroup(Num(a), Pow10(n));
    }
  }

  lemma NumCons(c: char, s: string)
    ensures Num([c] + s) == Val(c) * Pow10(|s|) + Num(s)
  {
    NumConcat([c], s);
    assert [c][..0] == [];
    assert Num([c]) == Val(c);
  }

  lemma {:induction false} NumBounds(s: string)
    requires AllDigits(s)
    ensures 0 <= Num(s) < Pow10(|s|)
  {
    if s != [] {
      NumBounds(s[..|s| - 1]);
    }
  }

  lemma {:induction false} NumUpdate(s: string, p: nat, c: char)
    requires p < |s|
    ensures Num(s[p := c]) == Num(s) + (Val(c) - Val(s[p])) * Pow10(|s| - 1 - p)
  {
    var n := |s| - 1;
    var t := s[p := c];
    if p < n {
      NumUpdate(s[..n], p, c);
      assert t[..n] == s[..n][p := c];
      Regroup(Val(c) - Val(s[p]), Pow10(n - 1 - p));
    } else {
      assert t[..n] == s[..n];
    }
  }

  lemma {:induction false} NumZeros(n: nat)
    ensures Num(Zeros(n)) == 0
  {
    if n > 0 {
      assert Zeros(n)[..n - 1] == Zeros(n - 1);
      NumZeros(n - 1);
    }
  }

  lemma LeadingZeros(n: nat, s: string)
    ensures Num(Zeros(n) + s) == Num(s)
  {
    NumConcat(Zeros(n), s);
    NumZeros(n);
  }

  lemma TrailingZeros(s: string, n: nat)
    ensures Num(s + Zeros(n)) == Num(s) * Pow10(n)
  {
    NumConcat(s, Zeros(n));
    NumZeros(n);
  }

  lemma {:induction false} NumDigits(n: nat)
    ensures Num(Digits(n)) == n
    ensures n > 0 ==> Digits(n)[0] != '0'
    ensures n == 0 ==> Digits(n) == "0"
  {
    if n >= 10 {
      NumDigits(n / 10);
      assert Digits(n)[..|Digits(n)| - 1] == Digits(n / 10);
    } else {
      assert Digits(n)[..0] == [];
    }
  }

  /** A natural number is what is above its last k digits, and those digits. */
  lemma {:induction false} AbovePad(m: nat, k: nat)
    ensures m == Above(m, k) * Pow10(k) + Num(Pad(m, k))
  {
    if k > 0 {
      AbovePad(m / 10, k - 1);
      assert Pad(m, k)[..k - 1] == Pad(m / 10, k - 1);
      Regroup(Above(m, k), Pow10(k - 1));
    }
  }

  lemma AtLeast(d: int, x: int)
    requires d > 0
    ensures x >= 1 ==> d * x >= d
    ensures x <= -1 ==> d * x <= -d
  {
  }

  /** A quotient and remainder are the only ones. */
  lemma DivisionIs(n: int, d: int, q: int, r: int)
    requires d > 0 && n == d * q + r && 0 <= r < d
    ensures n / d == q && n % d == r
  {
    var q' := n / d;
    var x := q - q';
    AtLeast(d, x);
    assert d * x == d * q - d * q';
  }

  /** Without leading zeros, the number alone determines the digits. */
  lemma {:induction false} DigitsIs(s: string)
    requires AllDigits(s) && s != [] && (|s| > 1 ==> s[0] != '0')
    ensures Num(s) >= 0 && Digits(Num(s)) == s
    ensures |s| > 1 ==> Num(s) >= Pow10(|s| - 1)
  {
    NumBounds(s);
    var n := |s| - 1;
    assert s == s[..n] + [s[n]];
    if n == 0 {
      assert s[..0] == [];
    } else {
      DigitsIs(s[..n]);
      if n == 1 {
        assert s[..n][..0] == [];
      }
      assert Num(s[..n]) >= 1;
      assert Num(s) / 10 == Num(s[..n]) && Num(s) % 10 == Val(s[n]);
    }
  }

  /** How many digits a natural number has. */
  lemma DigitsLength(n: nat, k: nat)
    requires n > 0 && k > 0
    ensures |Digits(n)| <= k <==> n < Pow10(k)
  {
    NumDigits(n);
    var s := Digits(n);
    DigitsIs(s);
    NumBounds(s);
    if |s| <= k {
      Pow10Grows(|s|, k);
    } else {
      Pow10Grows(k, |s| - 1);
    }
  }

  // ---- the canonical text of a value ----

  lemma {:induction false} SplitNum(integer: string, fraction: string)
    requires AllDigits(integer) && AllDigits(fraction)
    ensures Num(integer + fraction) >= 0
    ensures Above(Num(integer + fraction), |fraction|) == Num(integer)
    ensures Pad(Num(integer + fraction), |fraction|) == fraction
  {
    NumBounds(integer + fraction);
    if fraction == "" {
      assert integer + fraction == integer;
    } else {
      var n := |fraction| - 1;
      SplitNum(integer, fraction[..n]);
      LastDigit(integer + fraction);
      assert (integer + fraction)[..|integer + fraction| - 1] == integer + fraction[..n];
      assert fraction == fraction[..n] + [fraction[n]];
    }
  }

  lemma LastDigit(s: string)
    requires s != [] && AllDigits(s)
    ensures Num(s) >= 0 && Num(s) % 10 == Val(s[|s| - 1]) && Num(s) / 10 == Num(s[..|s| - 1])
  {
    NumBounds(s[..|s| - 1]);
  }

  predicate WellFormed(p: Parts) {
    && AllDigits(p.integer) && AllDigits(p.fraction)
    && p.integer != "" && (|p.integer| > 1 ==> p.integer[0] != '0')
    && (p.fraction != "" ==> p.fraction[|p.fraction| - 1] != '0')
    && !(p.negative && p.integer == "0" && p.fraction == "")
  }

  /** The digits of both parts read as one number, with the sign. */
  function Mantissa(p: Parts): int {
    if p.negative then -Num(p.integer + p.fraction) else Num(p.integer + p.fraction)
  }

  /** Parts with no zero to drop are the canonical ones of their value. */
  lemma CanonOfParts(integer: string, fraction: string)
    requires WellFormed(Parts(false, integer, fraction))
    ensures Num(integer + fraction) >= 0
    ensures Canon(Num(integer + fraction), |fraction|) == Parts(false, integer, fraction)
  {
    hide Num, Digits, Pad, Above;
    SplitNum(integer, fraction);
    DigitsIs(integer);
    if fraction == "" {
      assert integer + "" == integer;
    } else {
      LastDigit(integer + fraction);
      assert (integer + fraction)[|integer + fraction| - 1] == fraction[|fraction| - 1];
    }
  }

  lemma WellFormedIsCanon(p: Parts)
    requires WellFormed(p)
    ensures Canon(Mantissa(p), |p.fraction|) == p
  {
    CanonOfParts(p.integer, p.fraction);
    if p.negative && Num(p.integer + p.fraction) == 0 {
      ZeroParts(|p.fraction|);
    }
  }

  lemma {:induction false} ZeroParts(k: nat)
    ensures Canon(0, k) == Parts(false, "0", "")
  {
    if k > 0 {
      ZeroParts(k - 1);
    } else {
      NumDigits(0);
    }
  }

  /** Scaling numerator and denominator alike leaves the parts as they are. */
  lemma {:induction false} CanonScales(m: int, k: nat, j: nat)
    ensures Canon(m * Pow10(j), k + j) == Canon(m, k)
    decreases j
  {
    if j > 0 {
      CanonScales(m, k, j - 1);
      Regroup(m, Pow10(j - 1));
      CanonTimesTen(m * Pow10(j - 1), k + j - 1);
    }
  }

  lemma CanonTimesTen(x: int, k: nat)
    ensures Canon(x * 10, k + 1) == Canon(x, k)
  {
    TenExactly(if x < 0 then -x else x);
    hide Digits, Pad, Pow10;
  }

  lemma TenExactly(x: nat)
    ensures x * 10 % 10 == 0 && x * 10 / 10 == x
  {
  }

  // ---- reading a text back ----

  /** The first place of a character, or the length. */
  function Find(s: string, c: char): (i: nat)
    ensures i <= |s| && (i < |s| ==> s[i] == c)
    ensures forall j :: 0 <= j < i ==> s[j] != c
  {
    if s == [] || s[0] == c then 0 else 1 + Find(s[1..], c)
  }

  /** The NumberParts of the code. */
  function Split(t: string): Parts {
    var negative := t != "" && t[0] == '-';
    var abs := if negative then t[1..] else t;
    var dot := Find(abs, '.');
    Parts(negative, abs[..dot], if dot == |abs| then "" else abs[dot + 1..])
  }

  predicate IsCanonical(t: string) {
    WellFormed(Split(t)) && Join(Split(t)) == t
  }

  lemma FindIs(s: string, c: char, i: nat)
    requires i <= |s| && (i < |s| ==> s[i] == c) && forall j :: 0 <= j < i ==> s[j] != c
    ensures Find(s, c) == i
  {
  }

  lemma SplitJoin(p: Parts)
    requires AllDigits(p.integer) && AllDigits(p.fraction) && p.integer != ""
    ensures Split(Join(p)) == p
  {
    var abs := Plain(p.integer, p.fraction);
    var t := Join(p);
    assert abs[0] == p.integer[0];
    assert (if p.negative then t[1..] else t) == abs;
    assert p.negative == (t[0] == '-');
    FindIs(abs, '.', |p.integer|);
    hide Find, Join;
    assert abs[..|p.integer|] == p.integer;
  }

  /** The parts of m / 10^k stand for m / 10^k, in at most k places. */
  lemma {:induction false} CanonIs(m: int, k: nat)
    ensures WellFormed(Canon(m, k))
    ensures |Canon(m, k).fraction| <= k
    ensures Mantissa(Canon(m, k)) * Pow10(k) == m * Pow10(|Canon(m, k).fraction|)
    ensures Canon(m, k).negative == (m < 0)
    decreases m < 0, k
  {
    if m < 0 {
      CanonIs(-m, k);
      NegativeCanon(m, k);
    } else if k == 0 {
      WholeCanon(m);
    } else if m % 10 == 0 {
      CanonIs(m / 10, k - 1);
      TenTimes(Mantissa(Canon(m, k)), Pow10(k - 1), m / 10, Pow10(|Canon(m, k).fraction|));
    } else {
      FractionCanon(m, k);
    }
  }

  lemma TenTimes(x: int, p: int, y: int, q: int)
    requires x * p == y * q
    ensures x * (10 * p) == y * 10 * q
  {
    assert x * (10 * p) == x * p * 10;
    assert y * 10 * q == y * q * 10;
  }

  lemma WholeCanon(m: nat)
    ensures WellFormed(Parts(false, Digits(m), "")) && Mantissa(Parts(false, Digits(m), "")) == m
  {
    NumDigits(m);
    hide Digits;
    assert Digits(m) + "" == Digits(m);
  }

  lemma FractionCanon(m: nat, k: nat)
    requires k > 0 && m % 10 != 0
    ensures var p := Parts(false, Digits(Above(m, k)), Pad(m, k)); WellFormed(p) && Mantissa(p) == m
  {
    var integer, fraction := Digits(Above(m, k)), Pad(m, k);
    NumDigits(Above(m, k));
    AbovePad(m, k);
    NumConcat(integer, fraction);
    hide Digits, Pad, Pow10, Num, Above;
    LastDigit(integer + fraction);
    assert (integer + fraction)[|integer + fraction| - 1] == fraction[|fraction| - 1];
  }

  lemma NegativeCanon(m: int, k: nat)
    requires m < 0
    requires var p := Canon(-m, k);
      WellFormed(p) && !p.negative && Mantissa(p) * Pow10(k) == -m * Pow10(|p.fraction|)
    ensures var p := Canon(m, k);
      WellFormed(p) && p.negative && Mantissa(p) * Pow10(k) == m * Pow10(|p.fraction|)
  {
    var p := Canon(-m, k);
    var q := Pow10(|p.fraction|);
    AtLeast(q, -m);
    assert Mantissa(p) != 0;
    if p.integer == "0" && p.fraction == "" {
      OneZero();
    }
    Negate(Mantissa(p), Pow10(k), m, q);
  }

  lemma OneZero()
    ensures Num("0" + "") == 0
  {
    assert "0" + "" == "0" && "0"[..0] == "";
  }

  lemma Negate(x: int, p: int, y: int, q: int)
    requires x * p == -y * q
    ensures -x * p == y * q
  {
  }

  /** The text of a value is canonical, and reads back as the parts it was made from. */
  lemma TextIsCanonical(m: int, k: nat)
    ensures IsCanonical(Text(m, k)) && Split(Text(m, k)) == Canon(m, k)
  {
    CanonIs(m, k);
    SplitJoin(Canon(m, k));
  }

  /** A canonical text is the text of the value its parts stand for. */
  lemma CanonicalIsText(t: string)
    requires IsCanonical(t)
    ensures Text(Mantissa(Split(t)), |Split(t).fraction|) == t
  {
    WellFormedIsCanon(Split(t));
  }

  /** Two values have the same canonical text exactly when they are equal. */
  lemma SameTextSameValue(m: int, k: nat, n: int, j: nat)
    ensures Text(m, k) == Text(n, j) <==> m * Pow10(j) == n * Pow10(k)
  {
    if Text(m, k) == Text(n, j) {
      TextIsCanonical(m, k);
      TextIsCanonical(n, j);
      CanonIs(m, k);
      CanonIs(n, j);
      var p := Canon(m, k);
      CrossMultiply(m, Pow10(k), n, Pow10(j), Mantissa(p), Pow10(|p.fraction|));
    }
    if m * Pow10(j) == n * Pow10(k) {
      CanonScales(m, k, j);
      CanonScales(n, j, k);
    }
  }

  lemma CrossMultiply(m: int, p: int, n: int, q: int, x: int, y: int)
    requires p > 0 && q > 0 && y > 0 && x * p == m * y && x * q == n * y
    ensures m * q == n * p
  {
    assert m * q * y == m * y * q == x * p * q;
    assert n * p * y == n * y * p == x * q * p;
    assert x * p * q == x * q * p;
    Cancel(m * q, n * p, y);
  }

  lemma Cancel(a: int, b: int, y: int)
    requires y > 0 && a * y == b * y
    ensures a == b
  {
    var x := a - b;
    assert x * y == a * y - b * y;
    AtLeast(y, x);
  }
}
