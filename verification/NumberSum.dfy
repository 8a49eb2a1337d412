/** Adding and subtracting unsigned numbers in src/type/number.cpp, one digit and carry at a time. */
module NumberSum {
  import opened Decimal
  import opened NumberText
  import opened NumberOrder

  /** A canonical text without a sign. */
  predicate IsUnsigned(t: string) {
    IsCanonical(t) && !Split(t).negative
  }

  /** The value of a number in units of 10^-k. */
  function At(p: Parts, k: nat): int
    requires |p.fraction| <= k
  {
    Mantissa(p) * Pow10(k - |p.fraction|)
  }

  function Finest(p: Parts, q: Parts): nat {
    Max(|p.fraction|, |q.fraction|)
  }

  /** resize() of a fraction. */
  function Resized(f: string, n: nat): (r: string)
    requires |f| <= n
    ensures |r| == n && (AllDigits(f) ==> AllDigits(r))
  {
    f + Zeros(n - |f|)
  }

  lemma ResizedIsAt(p: Parts, k: nat)
    requires WellFormed(p) && !p.negative && |p.fraction| <= k
    ensures Num(p.integer) * Pow10(k) + Num(Resized(p.fraction, k)) == At(p, k)
  {
    hide Num, Pow10, Zeros;
    var z := k - |p.fraction|;
    assert p.integer + Resized(p.fraction, k) == p.integer + p.fraction + Zeros(z);
    TrailingZeros(p.integer + p.fraction, z);
    NumConcat(p.integer, Resized(p.fraction, k));
  }

  // ---- putting the result together ----

  /** A plain text becomes the canonical text of its digits. */
  lemma PlainIsText(integer: string, fraction: string)
    requires AllDigits(integer) && AllDigits(fraction) && integer != ""
    ensures Num(integer + fraction) >= 0
    ensures CanonicalText(Plain(integer, fraction)) == Text(Num(integer + fraction), |fraction|)
  {
    hide IsNumber, Text, Num, CanonicalText, Whole, Fraction, MarkAt, MantissaOf, Pow10, Written, Plain;
    var p := Parts(false, integer, fraction);
    JoinReads(p);
    assert Join(p) == Plain(integer, fraction);
    PlainMeans(Join(p));
    NumBounds(integer + fraction);
    SignedText(false, Num(integer + fraction), |fraction|);
  }

  /** The end of each operation: trailing zeros of the fraction dropped, the point put in, and the
      text made canonical. */
  method Combine(integer: string, fraction: string) returns (r: string)
    requires AllDigits(integer) && AllDigits(fraction) && integer != ""
    ensures Num(integer + fraction) >= 0 && r == Text(Num(integer + fraction), |fraction|)
  {
    var result := integer;
    var f := fraction;
    assert fraction[|fraction|..] == Zeros(0);
    while f != "" && f[|f| - 1] == '0'
      invariant |f| <= |fraction| && f == fraction[..|f|]
      invariant fraction[|f|..] == Zeros(|fraction| - |f|)
      decreases |f|
    {
      f := f[..|f| - 1];
      assert fraction[|f|..] == [fraction[|f|]] + fraction[|f| + 1..];
    }
    if f != "" {
      result := result + "." + f;
    }
    assert result == Plain(integer, f);
    DroppedTail(integer, fraction, |f|);
    r := MakeCanonical(result);
  }

  lemma DroppedTail(integer: string, fraction: string, n: nat)
    requires AllDigits(integer) && AllDigits(fraction) && integer != "" && n <= |fraction|
    requires fraction[n..] == Zeros(|fraction| - n)
    ensures Num(integer + fraction) >= 0
    ensures CanonicalText(Plain(integer, fraction[..n])) == Text(Num(integer + fraction), |fraction|)
  {
    hide Num, Canon, CanonicalText, Plain, Pow10, Zeros;
    var z := |fraction| - n;
    var f := fraction[..n];
    assert integer + fraction == integer + f + Zeros(z);
    TrailingZeros(integer + f, z);
    NumBounds(integer + fraction);
    PlainIsText(integer, f);
    CanonScales(Num(integer + f), n, z);
  }

  // ---- addition ----

  /** The column sum of one digit of each row and the carry. */
  lemma Column(x: int, y: int, carry: int, row: int, f: int, g: int, p: int)
    requires row + carry * p == f + g
    ensures var sum := carry + x + y; sum % 10 * p + row + sum / 10 * (10 * p) == x * p + f + (y * p + g)
  {
    var sum := carry + x + y;
    assert sum == sum / 10 * 10 + sum % 10;
    assert sum * p == sum / 10 * 10 * p + sum % 10 * p;
    assert sum / 10 * 10 * p == sum / 10 * (10 * p);
    assert sum * p == carry * p + x * p + y * p;
  }

  lemma Digit(s: string, i: nat)
    requires i < |s|
    ensures Num(s[i..]) == Val(s[i]) * Pow10(|s| - 1 - i) + Num(s[i + 1..])
  {
    NumCons(s[i], s[i + 1..]);
    assert s[i..] == [s[i]] + s[i + 1..];
  }

  /** Adds fractions of one length, from the last digit. */
  method AddFractions(f: string, g: string) returns (row: string, carry: nat)
    requires |f| == |g| && AllDigits(f) && AllDigits(g)
    ensures |row| == |f| && AllDigits(row) && carry <= 1
    ensures Num(row) + carry * Pow10(|f|) == Num(f) + Num(g)
  {
    hide Num, Pow10;
    row, carry := "", 0;
    var i := |f| - 1;
    NothingLeft(f);
    NothingLeft(g);
    while i >= 0
      invariant -1 <= i < |f| && |row| == |f| - 1 - i && AllDigits(row) && carry <= 1
      invariant Num(row) + carry * Pow10(|row|) == Num(f[i + 1..]) + Num(g[i + 1..])
    {
      var sum := carry + Val(f[i]) + Val(g[i]);
      Digit(f, i);
      Digit(g, i);
      Column(Val(f[i]), Val(g[i]), carry, Num(row), Num(f[i + 1..]), Num(g[i + 1..]), Pow10(|row|));
      NumCons(DigitChar(sum % 10), row);
      PowerStep(|row|);
      carry := sum / 10;
      row := [DigitChar(sum % 10)] + row;
      i := i - 1;
    }
    assert f[0..] == f && g[0..] == g;
  }

  lemma NothingLeft(s: string)
    ensures s[|s|..] == "" && Num(s[|s|..]) == 0 && Num("") == 0
  {
    assert s[|s|..] == "";
  }

  lemma PowerStep(n: nat)
    ensures Pow10(n + 1) == 10 * Pow10(n)
  {
  }

  /** What a digit or a carry is worth before n columns. */
  function Weight(d: int, n: nat): int {
    d * Pow10(n)
  }

  lemma WeightIs(d: int, n: nat)
    ensures Weight(d, n) == d * Pow10(n)
  {
  }

  lemma RowGrows(c: char, row: string)
    ensures Num([c] + row) == Weight(Val(c), |row|) + Num(row)
  {
    NumCons(c, row);
  }

  /** The column sum, with the carry weighed. */
  lemma ColumnUp(x: int, y: int, carry: int, row: int, f: int, g: int, n: nat)
    requires row + Weight(carry, n) == f + g
    ensures var sum := carry + x + y;
      Weight(sum % 10, n) + row + Weight(sum / 10, n + 1) == Weight(x, n) + f + (Weight(y, n) + g)
  {
    Column(x, y, carry, row, f, g, Pow10(n));
    PowerStep(n);
  }

  /** The next column, none before the start of a row. */
  function Before(i: int): int {
    if i >= 0 then i - 1 else i
  }

  /** The digit a row has left at its end, 0 when it has none. */
  function DigitAt(s: string, i: int): int
    requires i < |s|
  {
    if i >= 0 then Val(s[i]) else 0
  }

  lemma DigitIs(s: string, i: nat)
    requires i < |s|
    ensures DigitAt(s, i) == Val(s[i])
  {
  }

  /** The digits of a row from i on, all of them when i is before its start. */
  function From(s: string, i: int): string
    requires i <= |s|
  {
    if i >= 0 then s[i..] else s
  }

  lemma DigitFrom(s: string, i: int, n: nat)
    requires -1 <= i < |s| && (i >= 0 ==> n == |s| - 1 - i)
    ensures Num(From(s, i)) == Weight(DigitAt(s, i), n) + Num(From(s, i + 1))
  {
    if i >= 0 {
      Digit(s, i);
    } else {
      assert s[0..] == s;
    }
  }

  /** Adds integers of any lengths, until both are used up and nothing is carried. */
  method AddIntegers(s: string, t: string, carryIn: nat) returns (row: string)
    requires AllDigits(s) && AllDigits(t) && s != "" && carryIn <= 1
    ensures AllDigits(row) && row != "" && Num(row) == Num(s) + Num(t) + carryIn
  {
    hide Num, Pow10, Weight, From, DigitAt;
    row := "";
    var carry: nat := carryIn;
    var i, j := |s| - 1, |t| - 1;
    RowStarts(s, t, carryIn);
    while i >= 0 || j >= 0 || carry > 0
      invariant -1 <= i < |s| && -1 <= j < |t| && AllDigits(row) && carry <= 1
      invariant i >= 0 ==> |row| == |s| - 1 - i
      invariant j >= 0 ==> |row| == |t| - 1 - j
      invariant i < |s| - 1 ==> row != ""
      invariant Num(row) + Weight(carry, |row|) == Num(From(s, i + 1)) + (Num(From(t, j + 1)) + carryIn)
      decreases i + j + 2, carry
    {
      var sum := carry + DigitAt(s, i) + DigitAt(t, j);
      AddStep(s, t, i, j, carry, carryIn, row);
      carry := sum / 10;
      row := [DigitChar(sum % 10)] + row;
      i := Before(i);
      j := Before(j);
    }
    WholeRow(s);
    WholeRow(t);
    NoCarry(|row|);
  }

  lemma NoCarry(n: nat)
    ensures Weight(0, n) == 0
  {
  }

  lemma WholeRow(s: string)
    ensures From(s, 0) == s
  {
  }

  lemma AddStep(s: string, t: string, i: int, j: int, carry: nat, carryIn: nat, row: string)
    requires AllDigits(s) && AllDigits(t) && -1 <= i < |s| && -1 <= j < |t| && carry <= 1
    requires (i >= 0 ==> |row| == |s| - 1 - i) && (j >= 0 ==> |row| == |t| - 1 - j)
    requires Num(row) + Weight(carry, |row|) == Num(From(s, i + 1)) + (Num(From(t, j + 1)) + carryIn)
    ensures var sum := carry + DigitAt(s, i) + DigitAt(t, j);
      0 <= sum <= 19 && (i < 0 && j < 0 ==> sum == carry)
      && Num([DigitChar(sum % 10)] + row) + Weight(sum / 10, |row| + 1)
         == Num(From(s, Before(i) + 1)) + (Num(From(t, Before(j) + 1)) + carryIn)
  {
    hide Num, Weight, Pow10;
    var sum := carry + DigitAt(s, i) + DigitAt(t, j);
    DigitFrom(s, i, |row|);
    DigitFrom(t, j, |row|);
    ColumnUp(DigitAt(s, i), DigitAt(t, j), carry, Num(row), Num(From(s, i + 1)), Num(From(t, j + 1)) + carryIn,
             |row|);
    RowGrows(DigitChar(sum % 10), row);
  }

  lemma RowStarts(s: string, t: string, carry: int)
    ensures Num("") + Weight(carry, 0) == Num(From(s, |s|)) + (Num(From(t, |t|)) + carry)
  {
    assert s[|s|..] == "" && t[|t|..] == "";
  }

  /** add_positive_numbers() */
  method AddPositive(a: string, b: string) returns (r: string)
    requires IsUnsigned(a) && IsUnsigned(b)
    ensures var p, q := Split(a), Split(b); var k := Finest(p, q);
      r == Text(At(p, k) + At(q, k), k)
  {
    hide Num, Pow10, At, Split, Join, Text, Resized;
    var pa, pb := Split(a), Split(b);
    var k := Finest(pa, pb);
    ResizedIsAt(pa, k);
    ResizedIsAt(pb, k);
    var f, g := Resized(pa.fraction, k), Resized(pb.fraction, k);
    var fraction, carry := AddFractions(f, g);
    var integer := AddIntegers(pa.integer, pb.integer, carry);
    NumConcat(integer, fraction);
    SumOfRows(Num(pa.integer), Num(pb.integer), carry, Num(f), Num(g), Num(fraction), Pow10(k));
    r := Combine(integer, fraction);
  }

  lemma SumOfRows(s: int, t: int, carry: int, f: int, g: int, row: int, p: int)
    requires row + carry * p == f + g
    ensures (s + t + carry) * p + row == s * p + f + (t * p + g)
  {
    assert (s + t + carry) * p == s * p + t * p + carry * p;
  }

  // ---- subtraction ----

  /** The digit of a column that borrows ten when it would be negative. */
  function Borrowed(diff: int): (d: int)
    requires -10 <= diff <= 9
    ensures 0 <= d <= 9
  {
    if diff < 0 then diff + 10 else diff
  }

  function Borrow(diff: int): nat {
    if diff < 0 then 1 else 0
  }

  lemma ColumnDown(x: int, y: int, borrow: int, row: int, f: int, g: int, p: int)
    requires row - borrow * p == f - g && -10 <= x - y - borrow <= 9
    ensures var diff := x - y - borrow;
      Borrowed(diff) * p + row - Borrow(diff) * (10 * p) == x * p + f - (y * p + g)
  {
    var diff := x - y - borrow;
    assert Borrowed(diff) == diff + 10 * Borrow(diff);
    assert (diff + 10 * Borrow(diff)) * p == diff * p + Borrow(diff) * (10 * p);
    assert diff * p == x * p - y * p - borrow * p;
  }

  lemma ColumnBorrow(x: int, y: int, borrow: int, row: int, f: int, g: int, n: nat)
    requires row - Weight(borrow, n) == f - g && -10 <= x - y - borrow <= 9
    ensures var diff := x - y - borrow;
      Weight(Borrowed(diff), n) + row - Weight(Borrow(diff), n + 1) == Weight(x, n) + f - (Weight(y, n) + g)
  {
    ColumnDown(x, y, borrow, row, f, g, Pow10(n));
    PowerStep(n);
  }

  /** Subtracts an integer with no more digits, and says whether it was the larger one. */
  method SubtractIntegers(s: string, t: string, borrowIn: nat) returns (row: string, borrow: nat)
    requires AllDigits(s) && AllDigits(t) && |t| <= |s| && borrowIn <= 1
    ensures AllDigits(row) && |row| == |s| && borrow <= 1
    ensures Num(row) - Weight(borrow, |s|) == Num(s) - (Num(t) + borrowIn)
  {
    hide Num, Pow10, Weight, From, DigitAt;
    row, borrow := "", borrowIn;
    var i, j := |s| - 1, |t| - 1;
    DownStarts(s, t, borrowIn);
    while i >= 0
      invariant -1 <= i < |s| && -1 <= j < |t| && AllDigits(row) && borrow <= 1
      invariant |row| == |s| - 1 - i
      invariant j >= 0 ==> |row| == |t| - 1 - j
      invariant Num(row) - Weight(borrow, |row|) == Num(From(s, i + 1)) - (Num(From(t, j + 1)) + borrowIn)
    {
      var diff := DigitAt(s, i) - borrow;
      if j >= 0 {
        diff := diff - DigitAt(t, j);
      }
      DownStep(s, t, i, j, borrow, borrowIn, row);
      borrow := Borrow(diff);
      row := [DigitChar(Borrowed(diff))] + row;
      i := i - 1;
      j := Before(j);
    }
    WholeRow(s);
    WholeRow(t);
  }

  lemma DownStarts(s: string, t: string, borrow: int)
    ensures Num("") - Weight(borrow, 0) == Num(From(s, |s|)) - (Num(From(t, |t|)) + borrow)
  {
    assert s[|s|..] == "" && t[|t|..] == "";
  }

  lemma DownStep(s: string, t: string, i: int, j: int, borrow: nat, borrowIn: nat, row: string)
    requires AllDigits(s) && AllDigits(t) && 0 <= i < |s| && -1 <= j < |t| && borrow <= 1
    requires |row| == |s| - 1 - i && (j >= 0 ==> |row| == |t| - 1 - j)
    requires Num(row) - Weight(borrow, |row|) == Num(From(s, i + 1)) - (Num(From(t, j + 1)) + borrowIn)
    ensures j < 0 ==> DigitAt(t, j) == 0
    ensures var diff := DigitAt(s, i) - DigitAt(t, j) - borrow;
      -10 <= diff <= 9
      && Num([DigitChar(Borrowed(diff))] + row) - Weight(Borrow(diff), |row| + 1)
         == Num(From(s, i)) - (Num(From(t, Before(j) + 1)) + borrowIn)
  {
    hide Num, Weight, Pow10;
    DigitFrom(s, i, |row|);
    DigitFrom(t, j, |row|);
    ColumnBorrow(DigitAt(s, i), DigitAt(t, j), borrow, Num(row), Num(From(s, i + 1)),
                 Num(From(t, j + 1)) + borrowIn, |row|);
    RowGrows(DigitChar(Borrowed(DigitAt(s, i) - DigitAt(t, j) - borrow)), row);
  }

  /** Subtracts fractions of one length, from the last digit. */
  method SubtractFractions(f: string, g: string) returns (row: string, borrow: nat)
    requires |f| == |g| && AllDigits(f) && AllDigits(g)
    ensures |row| == |f| && AllDigits(row) && borrow <= 1
    ensures Num(row) - Weight(borrow, |f|) == Num(f) - Num(g)
  {
    hide Num, Pow10, Weight, From, DigitAt;
    row, borrow := "", 0;
    var i := |f| - 1;
    DownStarts(f, g, 0);
    while i >= 0
      invariant -1 <= i < |f| && |row| == |f| - 1 - i && AllDigits(row) && borrow <= 1
      invariant Num(row) - Weight(borrow, |row|) == Num(From(f, i + 1)) - Num(From(g, i + 1))
    {
      DigitIs(f, i);
      DigitIs(g, i);
      var diff := Val(f[i]) - Val(g[i]) - borrow;
      DownStep(f, g, i, i, borrow, 0, row);
      borrow := Borrow(diff);
      row := [DigitChar(Borrowed(diff))] + row;
      i := i - 1;
    }
    WholeRow(f);
    WholeRow(g);
  }

  /** Of two unsigned numbers the one with more integer digits is larger. */
  lemma LargerIsLonger(p: Parts, q: Parts)
    requires Unsigned(p) && Unsigned(q) && Difference(p, q) >= 0
    ensures |q.integer| <= |p.integer|
  {
    hide Lex, Difference;
    MagnitudesAgree(p, q);
  }

  lemma AtDifference(p: Parts, q: Parts, k: nat)
    requires |p.fraction| <= k && |q.fraction| <= k && Difference(p, q) >= 0
    ensures At(p, k) >= At(q, k)
  {
    var i, j := |p.fraction|, |q.fraction|;
    Pow10Sum(i, k - i);
    Pow10Sum(j, k - j);
    hide Mantissa, Pow10;
    ScaledDown(Mantissa(p), Mantissa(q), Pow10(i), Pow10(j), Pow10(k - i), Pow10(k - j));
  }

  lemma ScaledDown(m: int, n: int, pi: int, pj: int, si: int, sj: int)
    requires pi > 0 && pj > 0 && si > 0 && sj > 0 && pi * si == pj * sj && m * pj >= n * pi
    ensures m * si >= n * sj
  {
    assert (m * pj) * si >= (n * pi) * si by {
      AtLeast(si, m * pj - n * pi);
      assert si * (m * pj - n * pi) == (m * pj) * si - (n * pi) * si;
    }
    assert (n * pi) * si == n * (pi * si) == n * (pj * sj) == (n * sj) * pj;
    assert (m * pj) * si == (m * si) * pj;
    AtLeast(pj, n * sj - m * si);
    assert pj * (n * sj - m * si) == (n * sj) * pj - (m * si) * pj;
  }

  /** subtract_positive_numbers(), of a number that is not smaller */
  method SubtractPositive(a: string, b: string) returns (r: string)
    requires IsUnsigned(a) && IsUnsigned(b) && Difference(Split(a), Split(b)) >= 0
    ensures var p, q := Split(a), Split(b); var k := Finest(p, q);
      r == Text(At(p, k) - At(q, k), k)
  {
    hide Num, Pow10, At, Split, Join, Text, Resized, Difference, Weight;
    var pa, pb := Split(a), Split(b);
    var k := Finest(pa, pb);
    LargerIsLonger(pa, pb);
    AtDifference(pa, pb, k);
    ResizedIsAt(pa, k);
    ResizedIsAt(pb, k);
    var f, g := Resized(pa.fraction, k), Resized(pb.fraction, k);
    var fraction, borrow := SubtractFractions(f, g);
    var integer, last := SubtractIntegers(pa.integer, pb.integer, borrow);
    NumBounds(integer);
    NumBounds(fraction);
    NumConcat(integer, fraction);
    WeightIs(borrow, k);
    NothingBorrowed(Num(pa.integer), Num(pb.integer), borrow, Num(f), Num(g), Num(fraction), Pow10(k),
                    Num(integer), last, |integer|);
    r := Combine(integer, fraction);
  }

  lemma NothingBorrowed(s: int, t: int, borrow: nat, f: int, g: int, row: int, p: int, rest: int, last: nat, n: nat)
    requires row - borrow * p == f - g && 0 <= row < p
    requires rest - Weight(last, n) == s - (t + borrow) && 0 <= rest < Pow10(n) && last <= 1
    requires s * p + f >= t * p + g
    ensures rest * p + row == s * p + f - (t * p + g)
  {
    var d := s - t - borrow;
    assert d * p == s * p - t * p - borrow * p;
    assert d * p + row >= 0;
    AtLeast(p, d);
    assert p * d == d * p;
    assert d >= 0;
    assert last == 0;
    assert rest == d;
  }
}
