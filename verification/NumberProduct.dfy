/** Multiplying unsigned numbers in src/type/number.cpp, in place: a cell of the result may hold up to
    18 while its row is being added, and every cell is a digit again when the row is done. */
module NumberProduct {
  import opened Decimal
  import opened NumberText
  import opened NumberSum

  /** A cell that holds a number of up to 18, as a char above '0'. */
  predicate Holds(c: char, most: int) {
    '0' as int <= c as int <= '0' as int + most
  }

  function Cell(d: int): (c: char)
    requires 0 <= d <= 18
    ensures Val(c) == d
  {
    ('0' as int + d) as char
  }

  /** All cells are digits but the one a carry was last added to. */
  predicate RowInProgress(cells: string, at: int) {
    forall p :: 0 <= p < |cells| ==> Holds(cells[p], if p == at then 18 else 9)
  }

  /** The cells a row has not reached are still 0. */
  predicate Untouched(cells: string, n: int) {
    forall p :: 0 <= p < n && p < |cells| ==> cells[p] == '0'
  }

  /** One product of digits added to its cell, the tens to the cell before it. */
  function AfterCarry(cells: string, p2: nat, mul: int): (r: string)
    requires 0 < p2 < |cells| && 0 <= mul <= 81 && Holds(cells[p2], 18) && Holds(cells[p2 - 1], 9)
    ensures |r| == |cells|
  {
    var sum := mul + Val(cells[p2]);
    cells[p2 := DigitChar(sum % 10)][p2 - 1 := Cell(Val(cells[p2 - 1]) + sum / 10)]
  }

  /** No carry is lost: the cells stand for the product more. */
  lemma PlacedAdds(cells: string, p2: nat, mul: int)
    requires 0 < p2 < |cells| && 0 <= mul <= 81 && Holds(cells[p2], 18) && Holds(cells[p2 - 1], 9)
    ensures Num(AfterCarry(cells, p2, mul)) == Num(cells) + mul * Pow10(|cells| - 1 - p2)
  {
    var sum := mul + Val(cells[p2]);
    var w := Pow10(|cells| - 1 - p2);
    NumUpdate(cells, p2, DigitChar(sum % 10));
    NumUpdate(cells[p2 := DigitChar(sum % 10)], p2 - 1, Cell(Val(cells[p2 - 1]) + sum / 10));
    assert Pow10(|cells| - 1 - (p2 - 1)) == 10 * w;
    hide Num, Pow10;
    TensCarried(mul, Val(cells[p2]), w);
  }

  lemma TensCarried(mul: int, cell: int, w: int)
    ensures ((mul + cell) % 10 - cell) * w + (mul + cell) / 10 * (10 * w) == mul * w
  {
    var sum := mul + cell;
    assert sum == sum / 10 * 10 + sum % 10;
    assert sum / 10 * (10 * w) == (sum / 10 * 10) * w;
    assert (sum % 10 - cell) * w + (sum / 10 * 10) * w == (sum % 10 - cell + sum / 10 * 10) * w;
  }

  lemma PlacedKeepsCells(cells: string, p2: nat, mul: int)
    requires 0 < p2 < |cells| && 0 <= mul <= 81 && RowInProgress(cells, p2)
    ensures RowInProgress(AfterCarry(cells, p2, mul), p2 - 1)
    ensures forall n :: n < p2 && Untouched(cells, n) ==> Untouched(AfterCarry(cells, p2, mul), n)
    ensures cells[p2 - 1] == '0' ==> Holds(AfterCarry(cells, p2, mul)[p2 - 1], 9)
  {
  }

  /** Everything multiplied so far: the rows after i, and the digits of row i after j. */
  function SoFar(a: string, b: string, i: nat, j: int): int
    requires i < |a| && -1 <= j < |b|
  {
    Num(a[i + 1..]) * Num(b) + Val(a[i]) * Num(b[j + 1..]) * Pow10(|a| - 1 - i)
  }

  lemma OneMore(a: string, b: string, i: nat, j: nat)
    requires i < |a| && j < |b|
    ensures SoFar(a, b, i, j - 1) == SoFar(a, b, i, j)
                                     + Val(a[i]) * Val(b[j]) * Pow10(|a| + |b| - 1 - (i + j + 1))
  {
    Digit(b, j);
    Pow10Sum(|b| - 1 - j, |a| - 1 - i);
    hide Num, Pow10;
    Spread(Val(a[i]), Val(b[j]), Num(b[j + 1..]), Pow10(|b| - 1 - j), Pow10(|a| - 1 - i));
  }

  lemma Spread(x: int, y: int, f: int, p: int, q: int)
    ensures x * (y * p + f) * q == x * f * q + x * y * (p * q)
  {
    assert x * (y * p + f) == x * f + x * y * p;
    assert (x * f + x * y * p) * q == x * f * q + x * y * p * q;
    assert x * y * p * q == x * y * (p * q);
  }

  lemma RowDone(a: string, b: string, i: nat)
    requires i < |a|
    ensures SoFar(a, b, i, -1) == Num(a[i..]) * Num(b)
  {
    hide Num, Pow10;
    Digit(a, i);
    assert b[0..] == b;
    Distributed(Val(a[i]), Num(b), Pow10(|a| - 1 - i), Num(a[i + 1..]));
  }

  lemma Distributed(x: int, n: int, p: int, f: int)
    ensures (x * p + f) * n == f * n + x * n * p
  {
    assert x * p * n == x * n * p;
  }

  lemma RowStart(a: string, b: string, i: nat)
    requires i < |a| && b != ""
    ensures SoFar(a, b, i, |b| - 1) == Num(a[i + 1..]) * Num(b)
  {
    NothingLeft(b);
    hide Num, Pow10;
    assert Val(a[i]) * 0 * Pow10(|a| - 1 - i) == 0;
  }

  /** One product of digits, added in place. */
  method AddProduct(result: array<char>, p2: nat, mul: nat)
    requires 0 < p2 < result.Length && mul <= 81 && RowInProgress(result[..], p2)
    modifies result
    ensures RowInProgress(old(result[..]), p2) && result[..] == AfterCarry(old(result[..]), p2, mul)
  {
    var sum := mul + Val(result[p2]);
    result[p2] := DigitChar(sum % 10);
    result[p2 - 1] := Cell(Val(result[p2 - 1]) + sum / 10);
  }

  /** The row of the i-th digit, added in place. */
  method AddRow(result: array<char>, a: string, b: string, i: nat)
    requires AllDigits(a) && AllDigits(b) && i < |a| && b != "" && result.Length == |a| + |b|
    requires RowInProgress(result[..], -1) && Untouched(result[..], i + 1)
    requires Num(result[..]) == Num(a[i + 1..]) * Num(b)
    modifies result
    ensures RowInProgress(result[..], -1) && Untouched(result[..], i)
    ensures Num(result[..]) == Num(a[i..]) * Num(b)
  {
    hide Num, Pow10, SoFar, AfterCarry;
    RowStart(a, b, i);
    var j := |b| - 1;
    while j >= 0
      invariant -1 <= j < |b|
      invariant RowInProgress(result[..], i + j + 1) && Untouched(result[..], if j >= 0 then i + 1 else i)
      invariant j < 0 ==> Holds(result[i], 9)
      invariant Num(result[..]) == SoFar(a, b, i, j)
    {
      var mul := Val(a[i]) * Val(b[j]);
      DigitProduct(Val(a[i]), Val(b[j]));
      PlacedAdds(result[..], i + j + 1, mul);
      PlacedKeepsCells(result[..], i + j + 1, mul);
      OneMore(a, b, i, j);
      AddProduct(result, i + j + 1, mul);
      j := j - 1;
    }
    RowDone(a, b, i);
  }

  lemma DigitProduct(x: int, y: int)
    requires 0 <= x <= 9 && 0 <= y <= 9
    ensures 0 <= x * y <= 81
  {
    assert x * y <= 9 * y;
  }

  /** The rows of a schoolbook product, from the last digit of a. */
  method MultiplyRows(a: string, b: string) returns (cells: string)
    requires AllDigits(a) && AllDigits(b) && a != "" && b != ""
    ensures |cells| == |a| + |b| && AllDigits(cells) && Num(cells) == Num(a) * Num(b)
  {
    hide Num, Pow10;
    var result := new char[|a| + |b|](_ => '0');
    assert result[..] == Zeros(|a| + |b|);
    NumZeros(|a| + |b|);
    NothingLeft(a);
    var i := |a| - 1;
    while i >= 0
      invariant -1 <= i < |a| && fresh(result)
      invariant RowInProgress(result[..], -1) && Untouched(result[..], i + 1)
      invariant Num(result[..]) == Num(a[i + 1..]) * Num(b)
    {
      AddRow(result, a, b, i);
      i := i - 1;
    }
    cells := result[..];
    assert a[0..] == a;
  }

  /** The digits of an unsigned number, its point left out. */
  lemma JoinedDigits(p: Parts)
    requires WellFormed(p) && !p.negative
    ensures Num(p.integer + p.fraction) == Mantissa(p) >= 0
    ensures p.integer + p.fraction == "0" <==> Mantissa(p) == 0
  {
    NumBounds(p.integer + p.fraction);
    OneZero();
    assert "0" + "" == "0";
    if Mantissa(p) == 0 {
      hide Num, Canon;
      WellFormedIsCanon(p);
      ZeroParts(|p.fraction|);
    }
  }

  /** Writes digits with the point before the last so many of them. */
  method InsertPoint(digits: string, places: nat) returns (r: string)
    requires AllDigits(digits) && digits != ""
    ensures Num(digits) >= 0 && r == Text(Num(digits), places)
  {
    hide Num, Pow10, Text, CanonicalText;
    NumBounds(digits);
    var result := digits;
    if places == 0 {
      assert result == Plain(result, "") && result + "" == result;
      PlainIsText(result, "");
    } else {
      if |result| <= places {
        LeadingZeros(places - |result| + 1, digits);
        result := Zeros(places - |result| + 1) + result;
      }
      var point := |result| - places;
      var integer, fraction := result[..point], result[point..];
      assert integer + fraction == result;
      PlainIsText(integer, fraction);

      if point == 0 {
        result := "0." + result;
      } else {
        result := integer + "." + fraction;
      }
      assert result == Plain(integer, fraction);
    }
    r := MakeCanonical(result);
  }

  /** multiply_positive_numbers() */
  method MultiplyPositive(a: string, b: string) returns (r: string)
    requires IsUnsigned(a) && IsUnsigned(b)
    ensures var p, q := Split(a), Split(b);
      r == Text(Mantissa(p) * Mantissa(q), |p.fraction| + |q.fraction|)
  {
    hide Num, Pow10, Text, Split, Join, Mantissa;
    var pa, pb := Split(a), Split(b);
    var x, y := pa.integer + pa.fraction, pb.integer + pb.fraction;
    JoinedDigits(pa);
    JoinedDigits(pb);
    var places := |pa.fraction| + |pb.fraction|;
    if x == "0" || y == "0" {
      ZeroProduct(Mantissa(pa), Mantissa(pb), places);
      return "0";
    }
    var result := MultiplyRows(x, y);
    ghost var cells := result;
    var start := 0;
    while start < |result| - 1 && result[start] == '0'
      invariant start < |result| && result[..start] == Zeros(start)
    {
      start := start + 1;
    }
    LeadingZeros(start, result[start..]);
    assert result == Zeros(start) + result[start..];
    result := result[start..];
    r := InsertPoint(result, places);
  }

  lemma ZeroProduct(m: int, n: int, k: nat)
    requires m == 0 || n == 0
    ensures Text(m * n, k) == "0"
  {
    assert m * n == 0;
    ZeroParts(k);
  }
}
