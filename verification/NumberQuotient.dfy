/** Long division in src/type/number.cpp: a quotient is exact when the code can see that it terminates in
    time, and otherwise cut to its most significant digits. */
module NumberQuotient {
  import opened Decimal
  import opened NumberText
  import opened NumberOrder
  import opened NumberSum
  import opened NumberDivisor

  // ---- digits of natural numbers as texts ----

  lemma DigitsUnsigned(n: nat)
    ensures IsUnsigned(Digits(n)) && Split(Digits(n)) == Parts(false, Digits(n), "")
    ensures Mantissa(Split(Digits(n))) == n && Text(n, 0) == Digits(n)
  {
    hide Digits, IsCanonical, WellFormed, Split, Mantissa, Num, Pad, Above;
    WholeCanon(n);
    TextIsCanonical(n, 0);
    assert Canon(n, 0) == Parts(false, Digits(n), "");
    assert Join(Parts(false, Digits(n), "")) == Digits(n);
  }

  lemma DigitsCompare(x: nat, y: nat)
    ensures Difference(Split(Digits(x)), Split(Digits(y))) == x - y
  {
    hide Digits, Split, IsUnsigned, Text;
    DigitsUnsigned(x);
    DigitsUnsigned(y);
    PowerZero();
  }

  lemma DigitsAt(x: nat)
    ensures At(Split(Digits(x)), 0) == x
  {
    hide Digits, Split, IsUnsigned, Text;
    DigitsUnsigned(x);
    PowerZero();
  }

  /** Subtracting the divisor until what is left is less. */
  method TakeAway(x: string, divisor: string, ghost n: nat, ghost d: nat) returns (count: nat, rest: string)
    requires x == Digits(n) && divisor == Digits(d) && d > 0
    ensures count == n / d && rest == Digits(n % d)
  {
    hide Digits, Split, IsUnsigned, Text, At, Difference;
    count, rest := 0, x;
    ghost var left := n;
    var cmp := CompareDigits(rest, divisor, left, d);
    while cmp >= 0
      invariant left >= 0 && rest == Digits(left) && n == count * d + left
      invariant cmp == Sign(left - d)
      decreases left
    {
      DigitsUnsigned(left);
      DigitsUnsigned(d);
      DigitsCompare(left, d);
      rest := SubtractPositive(rest, divisor);
      DigitsAt(left);
      DigitsAt(d);
      DigitsUnsigned(left - d);
      left := left - d;
      count := count + 1;
      OneMoreTime(count, d);
      cmp := CompareDigits(rest, divisor, left, d);
    }
    DivisionIs(n, d, count, left);
  }

  lemma OneMoreTime(count: int, d: int)
    ensures count * d == (count - 1) * d + d
  {
  }

  method CompareDigits(a: string, b: string, ghost x: nat, ghost y: nat) returns (r: int)
    requires a == Digits(x) && b == Digits(y)
    ensures r == Sign(x - y)
  {
    hide Digits, Split, Text, Difference, IsCanonical;
    DigitsUnsigned(x);
    DigitsUnsigned(y);
    DigitsCompare(x, y);
    r := CompareNumbers(a, b);
  }

  /** A row of digits without leading zeros, keeping one for zero. */
  function Trimmed(s: string): (r: string)
    requires s != ""
  {
    s[if Leading(s) < |s| then Leading(s) else |s| - 1..]
  }

  lemma TrimmedIsDigits(s: string)
    requires s != "" && AllDigits(s)
    ensures Num(s) >= 0 && Trimmed(s) == Digits(Num(s))
  {
    var n := Leading(s);
    if n < |s| {
      hide Num, Digits;
      DroppedZeros(s);
    } else {
      assert s == Zeros(|s|);
      NumZeros(|s|);
      NumDigits(0);
    }
  }

  /** Dropping leading zeros while more than one digit is left. */
  method DropZeros(s: string) returns (r: string)
    requires s != "" && AllDigits(s)
    ensures Num(s) >= 0 && r == Digits(Num(s))
  {
    r := s;
    while |r| > 1 && r[0] == '0'
      invariant r != "" && AllDigits(r) && Num(r) == Num(s)
      decreases |r|
    {
      Tail(r);
      r := r[1..];
    }
    DigitsIs(r);
  }

  // ---- divide_exactly() and is_multiple_of() ----

  /** divide_exactly(): one digit at a time by a small divisor. */
  method DivideExactly(digits: string, divisor: nat) returns (r: string)
    requires AllDigits(digits) && digits != "" && 0 < divisor < 10
    ensures Num(digits) >= 0 && r == Digits(Num(digits) / divisor)
  {
    hide Num, Pow10, Digits;
    var result := "";
    var carry: nat := 0;
    NothingLeft("");
    for i := 0 to |digits|
      invariant |result| == i && AllDigits(result) && 0 <= carry < divisor
      invariant Num(result) * divisor + carry == Num(digits[..i])
    {
      var current := carry * 10 + Val(digits[i]);
      SmallQuotient(carry, Val(digits[i]), divisor);
      Appended(digits[..i], digits[i]);
      assert digits[..i + 1] == digits[..i] + [digits[i]];
      Appended(result, DigitChar(current / divisor));
      LongStep(Num(result), Num(digits[..i]), carry, Val(digits[i]), divisor);
      result := result + [DigitChar(current / divisor)];
      carry := current % divisor;
    }
    assert digits[..|digits|] == digits;
    TrimmedIsDigits(result);
    NumBounds(digits);
    DivisionIs(Num(digits), divisor, Num(result), carry);
    r := Trimmed(result);
  }

  lemma Appended(s: string, c: char)
    ensures Num(s + [c]) == Num(s) * 10 + Val(c)
  {
    assert (s + [c])[..|s|] == s;
  }

  lemma SmallQuotient(carry: nat, v: nat, d: nat)
    requires carry < d && v <= 9
    ensures 0 <= (carry * 10 + v) / d <= 9
  {
    var x := (carry * 10 + v) / d;
    assert d * x == d * (x - 9) + 9 * d;
    AtLeast(d, x - 9);
    AtLeast(d, x);
  }

  lemma LongStep(q: int, n: int, carry: int, v: int, d: int)
    requires d > 0 && q * d + carry == n
    ensures var c := carry * 10 + v; (q * 10 + c / d) * d + c % d == n * 10 + v
  {
    var c := carry * 10 + v;
    assert (q * 10 + c / d) * d == q * d * 10 + c / d * d;
    assert c == c / d * d + c % d;
  }

  /** is_multiple_of() */
  method IsMultipleOf(digits: string, divisor: string, ghost d: nat) returns (r: bool)
    requires AllDigits(digits) && divisor == Digits(d) && d > 0
    ensures Num(digits) >= 0 && r == Divides(d, Num(digits))
  {
    hide Num, Digits, Pow10;
    var remainder := "0";
    NumDigits(0);
    NothingLeft("");
    DivisionIs(0, d, 0, 0);
    for i := 0 to |digits|
      invariant Num(digits[..i]) >= 0 && remainder == Digits(Num(digits[..i]) % d)
    {
      ghost var left := Num(digits[..i]) % d;
      NumDigits(left);
      remainder := if remainder == "0" then [digits[i]] else remainder + [digits[i]];
      AppendedDigits(left, digits[i]);
      Appended(digits[..i], digits[i]);
      assert digits[..i + 1] == digits[..i] + [digits[i]];
      SameRemainder(Num(digits[..i]), Val(digits[i]), d);
      var count, rest := TakeAway(remainder, divisor, left * 10 + Val(digits[i]), d);
      remainder := rest;
    }
    assert digits[..|digits|] == digits;
    NumDigits(Num(digits) % d);
    r := remainder == "0";
  }

  /** Appending a digit to a number's digits, in place of a lone 0. */
  lemma AppendedDigits(n: nat, c: char)
    requires IsDigit(c)
    ensures Digits(n * 10 + Val(c)) == if n == 0 then [c] else Digits(n) + [c]
  {
    assert (n * 10 + Val(c)) / 10 == n && (n * 10 + Val(c)) % 10 == Val(c);
  }

  lemma SameRemainder(n: int, v: int, d: int)
    requires d > 0
    ensures (n % d * 10 + v) % d == (n * 10 + v) % d
  {
    var q, c := n / d, n % d * 10 + v;
    assert n * 10 + v == d * (q * 10 + c / d) + c % d by {
      assert n == d * q + n % d;
      assert c == d * (c / d) + c % d;
      assert d * (q * 10 + c / d) == d * q * 10 + d * (c / d);
    }
    DivisionIs(n * 10 + v, d, q * 10 + c / d, c % d);
  }

  // ---- the quotient to k places ----

  /** n / d cut to k decimal places, in units of the last one. */
  function Cut(n: nat, d: nat, k: nat): (q: nat)
    requires d > 0
  {
    NonNegativeQuotient(n * Pow10(k), d);
    n * Pow10(k) / d
  }

  /** What is left after k places. */
  function Left(n: nat, d: nat, k: nat): (r: nat)
    requires d > 0
    ensures r < d
  {
    n * Pow10(k) % d
  }

  lemma NonNegativeQuotient(n: int, d: int)
    requires n >= 0 && d > 0
    ensures n / d >= 0
  {
    AtLeast(d, n / d);
  }

  /** How many significant digits a natural number has. */
  function Length(n: nat): nat {
    if n == 0 then 0 else |Digits(n)|
  }

  /** Long division brings down a zero for the next place. */
  lemma NextPlace(n: nat, d: nat, k: nat)
    requires d > 0
    ensures Left(n, d, k) * 10 / d >= 0 && Left(n, d, k) * 10 / d <= 9
    ensures Cut(n, d, k + 1) == Cut(n, d, k) * 10 + Left(n, d, k) * 10 / d
    ensures Left(n, d, k + 1) == Left(n, d, k) * 10 % d
  {
    var x := n * Pow10(k);
    assert n * Pow10(k + 1) == x * 10 by {
      Regroup(n, Pow10(k));
    }
    hide Pow10;
    SmallQuotient(x % d, 0, d);
    LongStep(x / d, x, x % d, 0, d);
    var c := x % d * 10;
    DivisionIs(x * 10, d, x / d * 10 + c / d, c % d);
  }

  lemma NoPlaces(n: nat, d: nat)
    requires d > 0
    ensures Cut(n, d, 0) == n / d && Left(n, d, 0) == n % d
  {
    PowerZero();
  }

  /** The significant digits of an integer part and the digits after it. */
  function Significant(whole: nat, decimals: string): (s: nat)
  {
    if whole == 0 then |decimals| - Leading(decimals) else Length(whole) + |decimals|
  }

  lemma {:induction false} LeadingAppended(s: string, c: char)
    ensures Leading(s + [c]) == if Leading(s) < |s| then Leading(s) else if c == '0' then |s| + 1 else |s|
  {
    if s == "" {
      assert s + [c] == [c] && [c][1..] == "";
    } else {
      assert (s + [c])[1..] == s[1..] + [c];
      LeadingAppended(s[1..], c);
    }
  }

  /** A digit more counts unless only zeros came before it and it is one too. */
  lemma SignificantAppended(whole: nat, decimals: string, c: char)
    requires IsDigit(c)
    ensures Significant(whole, decimals + [c])
            == Significant(whole, decimals) + if Significant(whole, decimals) > 0 || c != '0' then 1 else 0
  {
    LeadingAppended(decimals, c);
    if whole > 0 {
      DigitsUnsigned(whole);
      assert |Digits(whole)| >= 1;
    }
  }

  /** Those are the digits of the quotient as one number. */
  lemma SignificantIsLength(whole: nat, decimals: string)
    requires AllDigits(decimals)
    ensures Num(Digits(whole) + decimals) >= 0
    ensures Length(Num(Digits(whole) + decimals)) == Significant(whole, decimals)
  {
    hide Num;
    NumDigits(whole);
    var s := Digits(whole) + decimals;
    if whole == 0 {
      assert s == Zeros(1) + decimals;
      LeadingZeros(1, decimals);
      DroppedZeros(decimals);
    } else {
      WholeDigits(whole, s);
    }
  }

  lemma WholeDigits(whole: nat, s: string)
    requires whole > 0 && AllDigits(s) && |s| >= |Digits(whole)| && s[..|Digits(whole)|] == Digits(whole)
    ensures Num(s) > 0 && Digits(Num(s)) == s
  {
    hide Num, Pow10, Digits;
    var n := |Digits(whole)|;
    NumDigits(whole);
    assert s[0] == Digits(whole)[0];
    DigitsIs(s);
    NumBounds(s[n..]);
    NumConcat(s[..n], s[n..]);
    assert s == s[..n] + s[n..];
    AtLeast(Pow10(|s[n..]|), whole);
  }

  // ---- the parts of divide_positive_numbers() ----

  /** The integer quotient and what is left, one digit of the dividend at a time. */
  method LongDivide(dividend: string, divisor: string, ghost d: nat) returns (quotient: string, remainder: string)
    requires AllDigits(dividend) && d > 0 && divisor == Digits(d)
    ensures Num(dividend) >= 0 && Num(dividend) / d >= 0
    ensures quotient == Digits(Num(dividend) / d) && remainder == Digits(Num(dividend) % d)
  {
    hide Num, Pow10, Digits;
    quotient, remainder := "0", "0";
    NumDigits(0);
    NothingLeft("");
    ghost var left := 0;
    for i := 0 to |dividend|
      invariant 0 <= left < d && remainder == Digits(left)
      invariant AllDigits(quotient) && quotient != ""
      invariant Num(quotient) * d + left == Num(dividend[..i])
    {
      ghost var v := Val(dividend[i]);
      NumDigits(left);
      Appended(remainder, dividend[i]);
      remainder := DropZeros(remainder + [dividend[i]]);
      SmallQuotient(left, v, d);
      LongStep(Num(quotient), Num(dividend[..i]), left, v, d);
      Appended(dividend[..i], dividend[i]);
      assert dividend[..i + 1] == dividend[..i] + [dividend[i]];
      var count, rest := TakeAway(remainder, divisor, left * 10 + v, d);
      Appended(quotient, DigitChar(count));
      OneDigit(count);
      quotient := quotient + Digits(count);
      remainder := rest;
      left := (left * 10 + v) % d;
    }
    assert dividend[..|dividend|] == dividend;
    NumBounds(dividend);
    NumBounds(quotient);
    DivisionIs(Num(dividend), d, Num(quotient), left);
    quotient := DropZeros(quotient);
  }

  lemma OneDigit(n: nat)
    requires n <= 9
    ensures Digits(n) == [DigitChar(n)]
  {
  }

  /** Whether a number's last digit shows that 2 or 5 divides it. */
  predicate LastShows(c: char, b: nat) {
    if b == 2 then Val(c) % 2 == 0 else c == '0' || c == '5'
  }

  lemma LastTells(n: nat, b: nat)
    requires b == 2 || b == 5
    ensures LastShows(Digits(n)[|Digits(n)| - 1], b) <==> n % b == 0
  {
    hide Digits, Num;
    NumDigits(n);
    LastDigit(Digits(n));
    LastOf(n);
  }

  lemma LastOf(n: nat)
    ensures n % 2 == n % 10 % 2 && n % 5 == n % 10 % 5
  {
    var q, r := n / 10, n % 10;
    DivisionIs(n, 2, 5 * q + r / 2, r % 2);
    DivisionIs(n, 5, 2 * q + r / 5, r % 5);
  }

  /** Divides by 2 or by 5 while the last digit shows that it goes, and counts. */
  method TakeOutFactor(s: string, b: nat, ghost d: nat) returns (rest: string, times: nat)
    requires (b == 2 || b == 5) && d > 0 && s == Digits(d)
    ensures rest == Digits(Without(b, d)) && times == Times(b, d)
  {
    hide Digits, Num, LastShows;
    rest, times := s, 0;
    ghost var left := d;
    LastTells(left, b);
    while LastShows(rest[|rest| - 1], b)
      invariant left > 0 && rest == Digits(left) && LastShows(rest[|rest| - 1], b) == (left % b == 0)
      invariant Without(b, left) == Without(b, d) && times + Times(b, left) == Times(b, d)
      decreases left
    {
      NumDigits(left);
      Smaller(b, left);
      rest := DivideExactly(rest, b);
      left := left / b;
      times := times + 1;
      LastTells(left, b);
    }
  }

  /** Whether the loop of decimals goes on: to the places of an exact quotient, or to the significant
      digits of one that is cut. */
  predicate GoesOn(terminates: bool, taken: nat, places: nat, significant: nat, wanted: nat) {
    if terminates then taken < places else significant < wanted
  }

  /** Before the first significant digit there are fewer places than digits in the divisor. */
  lemma FewZeros(n: nat, d: nat, k: nat)
    requires d > 0 && Cut(n, d, k) == 0 && Left(n, d, k) > 0
    ensures k < |Digits(d)|
  {
    var p := Pow10(k);
    var x := n * p;
    hide Pow10, Digits;
    assert x == d * (x / d) + x % d;
    AtLeast(p, n);
    assert p * n == x;
    if 0 < k && |Digits(d)| <= k {
      DigitsLength(d, k);
    }
  }

  /** What the loop of decimals keeps: the digits so far are the quotient's, cut there. */
  ghost predicate DecimalsSoFar(quotient: string, decimals: string, remainder: string, significant: nat, n: nat, d: nat)
    requires d > 0
  {
    && n / d >= 0 && quotient == Digits(n / d) && AllDigits(decimals)
    && Num(quotient + decimals) == Cut(n, d, |decimals|) && remainder == Digits(Left(n, d, |decimals|))
    && significant == Significant(n / d, decimals)
  }

  lemma NoDecimals(quotient: string, remainder: string, n: nat, d: nat)
    requires d > 0 && n / d >= 0 && quotient == Digits(n / d) && remainder == Digits(n % d)
    ensures DecimalsSoFar(quotient, "", remainder, Length(n / d), n, d)
  {
    NoPlaces(n, d);
    NumDigits(n / d);
    hide Digits, Num, Left, Cut;
    assert quotient + "" == quotient;
  }

  lemma DecimalAdded(quotient: string, decimals: string, remainder: string, significant: nat, n: nat, d: nat, count: nat)
    requires d > 0 && DecimalsSoFar(quotient, decimals, remainder, significant, n, d)
    requires count == Left(n, d, |decimals|) * 10 / d
    ensures count <= 9
    ensures DecimalsSoFar(quotient, decimals + [DigitChar(count)], Digits(Left(n, d, |decimals|) * 10 % d),
                          if significant > 0 || count != 0 then significant + 1 else significant, n, d)
  {
    hide Num, Digits, Left, Cut, Significant;
    NextPlace(n, d, |decimals|);
    Appended(quotient + decimals, DigitChar(count));
    assert quotient + (decimals + [DigitChar(count)]) == quotient + decimals + [DigitChar(count)];
    SignificantAppended(n / d, decimals, DigitChar(count));
  }

  lemma NoneSignificant(quotient: string, decimals: string, n: nat, d: nat)
    requires d > 0 && n / d >= 0 && quotient == Digits(n / d) && AllDigits(decimals)
    requires Num(quotient + decimals) == Cut(n, d, |decimals|)
    ensures Significant(n / d, decimals) == Length(Cut(n, d, |decimals|))
  {
    hide Num, Digits, Cut, Significant, Length;
    SignificantIsLength(n / d, decimals);
  }

  /** The loop of decimals of divide_positive_numbers(). */
  method Decimals(quotient: string, divisor: string, remainderIn: string, terminates: bool, places: nat, wanted: nat,
                  ghost n: nat, ghost d: nat)
    returns (decimals: string, remainder: string)
    requires d > 0 && n / d >= 0 && divisor == Digits(d)
    requires quotient == Digits(n / d) && remainderIn == Digits(n % d)
    ensures AllDigits(decimals) && remainder == Digits(Left(n, d, |decimals|))
    ensures Num(quotient + decimals) == Cut(n, d, |decimals|)
    ensures terminates && Left(n, d, |decimals|) != 0 ==> |decimals| == places
    ensures var s := Significant(n / d, decimals);
      !terminates ==> s <= Max(wanted, Length(n / d)) && (Left(n, d, |decimals|) != 0 ==> s >= wanted)
    ensures !terminates && Length(n / d) >= wanted ==> decimals == ""
  {
    hide Num, Digits, Cut, Significant, Left, Length, AllDigits;
    decimals, remainder := "", remainderIn;
    var significant: nat := if quotient == "0" then 0 else |quotient|;
    NumDigits(n / d);
    LengthOf(n / d);
    NoDecimals(quotient, remainder, n, d);
    NumDigits(Left(n, d, 0));
    while remainder != "0" && GoesOn(terminates, |decimals|, places, significant, wanted)
      invariant DecimalsSoFar(quotient, decimals, remainder, significant, n, d)
      invariant remainder == "0" <==> Left(n, d, |decimals|) == 0
      invariant terminates ==> |decimals| <= places
      invariant !terminates ==> significant <= Max(wanted, Length(n / d))
      invariant !terminates && Length(n / d) >= wanted ==> decimals == "" && significant == Length(n / d)
      decreases if terminates then places - |decimals|
                else (wanted - significant) + if significant == 0 then |divisor| - |decimals| else 0
    {
      ghost var left := Left(n, d, |decimals|);
      if significant == 0 {
        NoneSignificant(quotient, decimals, n, d);
        ZeroLength(Cut(n, d, |decimals|));
        FewZeros(n, d, |decimals|);
      }
      AppendedDigits(left, '0');
      var count, rest := TakeAway(remainder + "0", divisor, left * 10, d);
      DecimalAdded(quotient, decimals, remainder, significant, n, d, count);
      OneDigit(count);
      NextPlace(n, d, |decimals|);
      decimals := decimals + Digits(count);
      remainder := rest;
      NumDigits(Left(n, d, |decimals|));
      if significant > 0 || count != 0 {
        significant := significant + 1;
      }
    }
  }

  lemma LengthOf(n: nat)
    ensures Length(n) == if Digits(n) == "0" then 0 else |Digits(n)|
  {
    hide Digits;
    NumDigits(n);
  }

  lemma ZeroLength(n: nat)
    ensures Length(n) == 0 <==> n == 0
  {
  }

  // ---- divide_positive_numbers() ----

  /** The significant digits a quotient keeps when it is cut. */
  const QUOTIENT_SIGNIFICANT_DIGITS: nat := 34

  /** When the code sees that a quotient terminates in time: it counts the integer digits and the places
      for the factors of the divisor as it was scaled, not reduced. */
  predicate TerminatesInTime(n: nat, d: nat, wanted: nat)
    requires d > 0
  {
    || Divides(d, n)
    || (wanted > 0 && Divides(Rest(d), n) && |Digits(WholePart(n, d))| + PlacesFor(d) <= MAX_EXPANDED_DIGITS)
  }

  function WholePart(n: nat, d: nat): (q: nat)
    requires d > 0
    ensures q == n / d
  {
    NonNegativeQuotient(n, d);
    n / d
  }

  /** Where a quotient stops: with nothing left, or with as many significant digits as are wanted, or as
      the integer part has. */
  predicate StopsAt(n: nat, d: nat, wanted: nat, k: nat)
    requires d > 0
  {
    var most := Max(wanted, Length(WholePart(n, d)));
    if TerminatesInTime(n, d, wanted) then Left(n, d, k) == 0
    else Length(Cut(n, d, k)) <= most && (Left(n, d, k) == 0 || Length(Cut(n, d, k)) == most)
  }

  /** The text of n / d, exact or truncated toward zero where it stops. */
  ghost predicate IsQuotient(r: string, n: nat, d: nat, wanted: nat, negative: bool)
    requires d > 0
  {
    exists k: nat :: StopsAt(n, d, wanted, k) && r == Text(Signed(negative, Cut(n, d, k)), k)
  }

  /** The digits a loop of decimals left are all kept. */
  lemma AllKept(decimals: string, whole: nat, wanted: nat)
    requires Significant(whole, decimals) <= Max(wanted, Length(whole)) && Significant(whole, decimals) >= wanted
    requires Length(whole) >= wanted ==> decimals == ""
    ensures var keep := if Length(whole) >= wanted then 0
                        else (if whole == 0 then Leading(decimals) else 0) + wanted - Length(whole);
      keep >= |decimals|
  {
  }

  function Shortened(s: string, n: nat): (r: string)
  {
    if n < |s| then s[..n] else s
  }

  /** The decimals after the loop; a quotient that does not terminate keeps the wanted digits. */
  method KeepDecimals(decimals: string, quotient: string, wanted: nat, ghost whole: nat) returns (r: string)
    requires quotient == Digits(whole)
    requires Significant(whole, decimals) <= Max(wanted, Length(whole)) && Significant(whole, decimals) >= wanted
    requires Length(whole) >= wanted ==> decimals == ""
    ensures r == decimals
  {
    hide Digits, Significant, Length, Leading;
    LengthOf(whole);
    NumDigits(whole);
    AllKept(decimals, whole, wanted);
    var integerSignificant: nat := if quotient == "0" then 0 else |quotient|;
    var leadingZeros := if quotient == "0" then Leading(decimals) else 0;
    var keep := if integerSignificant >= wanted then 0 else leadingZeros + wanted - integerSignificant;
    r := Shortened(decimals, keep);
  }

  /** Whether the quotient terminates in time, and in how many places. */
  method FindPlaces(dividend: string, divisor: string, quotient: string, ghost d: nat)
    returns (terminates: bool, places: nat)
    requires AllDigits(dividend) && d > 0 && divisor == Digits(d)
    ensures Num(dividend) >= 0 && places == PlacesFor(d)
    ensures terminates == (|quotient| + places <= MAX_EXPANDED_DIGITS && Divides(Rest(d), Num(dividend)))
  {
    hide Num, Digits, Times, Without, Divides;
    NumBounds(dividend);
    var rest, twos := TakeOutFactor(divisor, 2, d);
    var fives;
    rest, fives := TakeOutFactor(rest, 5, Without(2, d));
    places := if twos > fives then twos else fives;
    terminates := |quotient| + places <= MAX_EXPANDED_DIGITS;
    if terminates {
      terminates := IsMultipleOf(dividend, rest, Rest(d));
    }
  }

  lemma ExactAtPlaces(n: nat, d: nat)
    requires d > 0 && Divides(Rest(d), n)
    ensures Left(n, d, PlacesFor(d)) == 0
  {
    ExactWithPlaces(n, d, PlacesFor(d));
  }

  /** Where the loop of decimals leaves the quotient, it stops. */
  lemma LoopStops(quotient: string, decimals: string, terminates: bool, wanted: nat, n: nat, d: nat)
    requires d > 0 && quotient == Digits(WholePart(n, d)) && AllDigits(decimals)
    requires Num(quotient + decimals) == Cut(n, d, |decimals|)
    requires TerminatesInTime(n, d, wanted) ==> terminates
    requires terminates ==> TerminatesInTime(n, d, wanted) && Left(n, d, |decimals|) == 0
    requires var s := Significant(WholePart(n, d), decimals);
      !terminates ==> s <= Max(wanted, Length(WholePart(n, d))) && (Left(n, d, |decimals|) != 0 ==> s >= wanted)
    requires !terminates && Length(WholePart(n, d)) >= wanted ==> decimals == ""
    ensures StopsAt(n, d, wanted, |decimals|)
  {
    hide Num, Digits, Cut, Left, Length, Significant, TerminatesInTime;
    NoneSignificant(quotient, decimals, n, d);
    if decimals == "" {
      NoPlaces(n, d);
    }
  }

  /** The division of two scaled integers, written as text. */
  method DivideDigits(dividend: string, divisor: string, wanted: nat, ghost d: nat) returns (r: string)
    requires AllDigits(dividend) && d > 0 && divisor == Digits(d)
    ensures Num(dividend) >= 0 && IsQuotient(r, Num(dividend), d, wanted, false)
  {
    hide Num, Digits, Cut, Left, Length, Significant, Divides, PlacesFor, Rest, Text;
    NumBounds(dividend);
    ghost var n := Num(dividend);
    ghost var whole := WholePart(n, d);
    var quotient, remainder := LongDivide(dividend, divisor, d);
    NumDigits(n % d);
    var terminates := remainder == "0";
    DividesIs(n, d);
    var places := 0;
    if !terminates && wanted > 0 {
      terminates, places := FindPlaces(dividend, divisor, quotient, d);
      if terminates {
        ExactAtPlaces(n, d);
      }
    }
    NoPlaces(n, d);
    assert terminates == TerminatesInTime(n, d, wanted);
    assert terminates ==> Left(n, d, places) == 0;
    var decimals;
    decimals, remainder := Decimals(quotient, divisor, remainder, terminates, places, wanted, n, d);
    NumDigits(Left(n, d, |decimals|));
    LoopStops(quotient, decimals, terminates, wanted, n, d);
    if remainder != "0" {
      decimals := KeepDecimals(decimals, quotient, wanted, whole);
    }
    r := Combine(quotient, decimals);
  }

  lemma DividesIs(n: nat, d: nat)
    requires d > 0
    ensures Divides(d, n) <==> n % d == 0
  {
  }
}
