/** Integers with a 0x, 0o or 0b prefix in src/format/toml.cpp: their digits are added up in chunks of at
    most 63 bits. */
module TomlIntegers {
  import opened TomlText
  import opened TomlValues
  import D = Decimal
  import N = NumberText
  import O = NumberOrder
  import S = NumberSum
  import V = NumberDivisor
  import Q = NumberQuotient
  import A = Number

  predicate IsBase(base: nat, bits: nat) {
    (base == 16 && bits == 4) || (base == 8 && bits == 3) || (base == 2 && bits == 1)
  }

  predicate AreDigits(digits: string, base: nat) {
    forall i :: 0 <= i < |digits| ==> DigitValue(digits[i], base) >= 0
  }

  // ---- sums and products of naturals ----

  lemma NaturalResult(x: nat, y: nat, r: string)
    ensures A.IsResult(r, D.Digits(x), D.Digits(y), '+') ==> r == D.Digits(x + y)
    ensures A.IsResult(r, D.Digits(x), D.Digits(y), '*') ==> r == D.Digits(x * y)
    ensures O.Stored(D.Digits(x)) && O.Stored(D.Digits(y))
  {
    hide D.Digits, D.Split, D.Text, S.At, D.Mantissa, D.IsCanonical;
    Q.DigitsUnsigned(x);
    Q.DigitsUnsigned(y);
    Q.DigitsAt(x);
    Q.DigitsAt(y);
    Q.DigitsUnsigned(x + y);
    assert x * y >= 0;
    Q.DigitsUnsigned(x * y);
    NotNan(x);
    NotNan(y);
  }

  lemma {:induction false} NotNan(x: nat)
    ensures D.Digits(x) != N.NOT_A_NUMBER
  {
    hide D.Digits;
    assert D.IsDigit(D.Digits(x)[0]);
  }

  // ---- positions ----

  lemma {:induction false} PositionalConcat(a: string, b: string, base: nat)
    requires AreDigits(a, base) && AreDigits(b, base)
    ensures AreDigits(a + b, base)
    ensures Positional(a + b, base) == Positional(a, base) * V.Power(base, |b|) + Positional(b, base)
    decreases |b|
  {
    if b == "" {
      assert a + b == a;
    } else {
      var n := |b| - 1;
      assert (a + b)[..|a + b| - 1] == a + b[..n];
      PositionalConcat(a, b[..n], base);
      Spread(Positional(a, base), V.Power(base, n), Positional(b[..n], base), base);
    }
  }

  lemma Spread(a: int, p: int, b: int, base: int)
    ensures (a * p + b) * base == a * (base * p) + b * base
  {
    assert a * (base * p) == a * p * base;
  }

  lemma {:induction false} PositionalBound(digits: string, base: nat)
    requires AreDigits(digits, base) && base > 0
    ensures Positional(digits, base) < V.Power(base, |digits|)
    decreases |digits|
  {
    if digits != "" {
      var n := |digits| - 1;
      PositionalBound(digits[..n], base);
      Below(Positional(digits[..n], base), V.Power(base, n), base, DigitValue(digits[n], base));
    }
  }

  lemma Below(x: int, p: int, base: int, d: int)
    requires x < p && 0 <= d < base
    ensures x * base + d < base * p
  {
    D.AtLeast(base, p - x);
    assert base * (p - x) == base * p - x * base;
  }

  /** So many digits of a base take so many bits. */
  lemma {:induction false} BitsOf(base: nat, bits: nat, n: nat)
    requires IsBase(base, bits)
    ensures V.Power(2, bits * n) == V.Power(base, n)
  {
    if n > 0 {
      BitsOf(base, bits, n - 1);
      var k := bits * (n - 1);
      assert bits * n == k + bits;
      V.PowerSum(2, k, bits);
      assert V.Power(2, bits) == base by {
        SmallPowers();
      }
      assert V.Power(2, k) * base == base * V.Power(2, k);
    }
  }

  lemma SmallPowers()
    ensures V.Power(2, 1) == 2 && V.Power(2, 3) == 8 && V.Power(2, 4) == 16
  {
    assert V.Power(2, 2) == 4;
  }

  const MAX_CHUNK: int := 0x8000_0000_0000_0000

  lemma {:induction false} ChunkFits(base: nat, bits: nat, n: nat)
    requires IsBase(base, bits) && n <= 63 / bits
    ensures V.Power(base, n) <= MAX_CHUNK
  {
    BitsOf(base, bits, n);
    V.PowerSum(2, bits * n, 63 - bits * n);
    TwoTo63();
    D.AtLeast(V.Power(2, bits * n), V.Power(2, 63 - bits * n));
  }

  lemma TwoTo63()
    ensures V.Power(2, 63) == MAX_CHUNK
  {
    SmallPowers();
    V.PowerSum(2, 4, 4);
    V.PowerSum(2, 8, 8);
    V.PowerSum(2, 16, 16);
    V.PowerSum(2, 32, 16);
    V.PowerSum(2, 48, 8);
    V.PowerSum(2, 56, 4);
    V.PowerSum(2, 60, 3);
  }

  // ---- the code ----

  /** One chunk of digits, in a machine word. */
  method ChunkValue(digits: string, base: nat, bits: nat) returns (part: nat)
    requires IsBase(base, bits) && AreDigits(digits, base) && |digits| <= 63 / bits
    ensures part == Positional(digits, base) < MAX_CHUNK
  {
    part := 0;
    for k := 0 to |digits|
      invariant part == Positional(digits[..k], base)
    {
      assert digits[..k + 1][..k] == digits[..k];
      part := part * base + DigitValue(digits[k], base);
    }
    assert digits[..|digits|] == digits;
    PositionalBound(digits, base);
    ChunkFits(base, bits, |digits|);
  }

  /** A number with the digits of one more chunk after its own. */
  method NextChunk(result: string, ghost value: nat, piece: string, base: nat, bits: nat) returns (r: string)
    requires IsBase(base, bits) && AreDigits(piece, base) && |piece| <= 63 / bits && result == D.Digits(value)
    ensures value * V.Power(base, |piece|) + Positional(piece, base) >= 0
    ensures r == D.Digits(value * V.Power(base, |piece|) + Positional(piece, base))
  {
    hide D.Digits, A.IsResult, Positional, O.Stored, V.Power;
    var part := ChunkValue(piece, base, bits);
    BitsOf(base, bits, |piece|);
    var scale := V.Power(2, bits * |piece|);
    ghost var scaled := value * scale;
    assert scaled >= 0;
    NaturalResult(value, scale, "");
    var product := A.Calculate(result, D.Digits(scale), '*');
    NaturalResult(value, scale, product);
    NaturalResult(scaled, part, "");
    r := A.Calculate(product, D.Digits(part), '+');
    NaturalResult(scaled, part, r);
  }

  /** The number that digits of a base stand for, multiplied and added once for each chunk. */
  method ChunkedValue(digits: string, base: nat, bits: nat) returns (result: string)
    requires IsBase(base, bits) && AreDigits(digits, base)
    ensures result == D.Digits(Positional(digits, base))
  {
    hide D.Digits, Positional, V.Power;
    var chunk := 63 / bits;
    result := "0";
    D.NumDigits(0);
    NoDigits(base);
    var start := 0;
    while start < |digits|
      invariant 0 <= start <= |digits| && result == D.Digits(Positional(digits[..start], base))
    {
      var length := if chunk < |digits| - start then chunk else |digits| - start;
      var piece := digits[start..start + length];
      result := NextChunk(result, Positional(digits[..start], base), piece, base, bits);
      PositionalConcat(digits[..start], piece, base);
      assert digits[..start + length] == digits[..start] + piece;
      start := start + length;
    }
    assert digits[..|digits|] == digits;
  }

  lemma {:induction false} NoDigits(base: nat)
    ensures Positional("", base) == 0
  {
  }
}
