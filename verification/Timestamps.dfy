/** Timestamps of src/type/timestamp.cpp and src/type/timezone.cpp: the ISO 8601 text and its reading, and
    exact conversion to the ticks of a clock. */
module Timestamps {
  import opened Wrappers
  import opened Decimal
  import NumberText

  const SECOND: int := 1_000_000_000
  const MAX_OFFSET: int := 23 * 60 + 59

  /** A date, the nanoseconds since midnight, and the minutes the local time is ahead of UTC. */
  datatype Stamp = Stamp(year: int, month: int, day: int, nanoseconds: int, offset: int)

  predicate IsLeap(year: int) {
    year % 4 == 0 && (year % 100 != 0 || year % 400 == 0)
  }

  function DaysIn(year: int, month: int): int {
    if month == 2 then (if IsLeap(year) then 29 else 28)
    else if month in {4, 6, 9, 11} then 30
    else 31
  }

  predicate IsDate(year: int, month: int, day: int) {
    0 <= year <= 9999 && 1 <= month <= 12 && 1 <= day <= DaysIn(year, month)
  }

  predicate InRange(offset: int) {
    -MAX_OFFSET <= offset <= MAX_OFFSET
  }

  predicate IsStamp(t: Stamp) {
    IsDate(t.year, t.month, t.day) && 0 <= t.nanoseconds < 86_400 * SECOND && InRange(t.offset)
  }

  /** timestamp::from_components() */
  function FromComponents(year: int, month: int, day: int, hour: int, minute: int, second: int, offset: int)
    : Option<Stamp>
  {
    if year < 0 || year > 9999 || month < 1 || month > 12 || day < 1 || day > 31 then None
    else if hour < 0 || hour > 23 || minute < 0 || minute > 59 || second < 0 || second > 59 then None
    else if day > DaysIn(year, month) then None
    else Some(Stamp(year, month, day, ((hour * 60 + minute) * 60 + second) * SECOND, offset))
  }

  // ---- writing ----

  function Hour(t: Stamp): int {
    t.nanoseconds / (3600 * SECOND)
  }

  function Minute(t: Stamp): int {
    t.nanoseconds / (60 * SECOND) % 60
  }

  function Second(t: Stamp): int {
    t.nanoseconds / SECOND % 60
  }

  function Subseconds(t: Stamp): int {
    t.nanoseconds % SECOND
  }

  /** The digits below a second, without zeros at the end. */
  function FractionText(f: nat): string {
    if f == 0 then "" else "." + Pad(f, 9)[..NumberText.Kept(Pad(f, 9))]
  }

  /** timezone::format() */
  function ZoneText(offset: int): string {
    if offset == 0 then "Z"
    else
      var a: nat := if offset < 0 then -offset else offset;
      (if offset >= 0 then "+" else "-") + Pad(a / 60, 2) + ":" + Pad(a % 60, 2)
  }

  /** timestamp::format_iso8601() */
  function FormatIso(t: Stamp): string
    requires IsStamp(t)
  {
    Pad(t.year, 4) + "-" + Pad(t.month, 2) + "-" + Pad(t.day, 2) + "T"
    + Pad(Hour(t), 2) + ":" + Pad(Minute(t), 2) + ":" + Pad(Second(t), 2)
    + FractionText(Subseconds(t)) + ZoneText(t.offset)
  }

  // ---- reading ----

  predicate DigitsAt(s: string, i: nat, n: nat) {
    i + n <= |s| && AllDigits(s[i..i + n])
  }

  function NumberAt(s: string, i: nat, n: nat): (x: int)
    requires DigitsAt(s, i, n)
    ensures x >= 0
  {
    NumBounds(s[i..i + n]);
    Num(s[i..i + n])
  }

  predicate CharAt(s: string, i: nat, c: char) {
    i < |s| && s[i] == c
  }

  /** The longest run of digits. */
  function DigitRun(s: string): (n: nat)
    ensures n <= |s| && AllDigits(s[..n]) && (n < |s| ==> !IsDigit(s[n]))
  {
    if s == "" || !IsDigit(s[0]) then 0
    else
      var n := DigitRun(s[1..]);
      assert s[..n + 1] == [s[0]] + s[1..][..n];
      1 + n
  }

  /** The offset of a sign, hours and minutes, if there is one. */
  function OffsetOf(sign: char, hours: int, minutes: int): (r: Option<int>)
    ensures r.Some? ==> InRange(r.value)
  {
    if minutes > 59 then None
    else
      var total := hours * 60 + minutes;
      var signed := if sign == '-' then -total else total;
      if InRange(signed) then Some(signed) else None
  }

  predicate IsSigned(z: string) {
    z != "" && (z[0] == '+' || z[0] == '-')
  }

  /** timezone::from_string(): one or two digits of hours, a colon or none, and two of minutes. */
  function ZoneFromString(z: string): (r: Option<int>)
    ensures r.Some? ==> InRange(r.value)
  {
    if z == "Z" || z == "z" then Some(0)
    else if !IsSigned(z) then None
    else if |z| == 4 && DigitsAt(z, 1, 1) && DigitsAt(z, 2, 2) then OffsetOf(z[0], NumberAt(z, 1, 1), NumberAt(z, 2, 2))
    else if |z| == 5 && DigitsAt(z, 1, 2) && DigitsAt(z, 3, 2) then OffsetOf(z[0], NumberAt(z, 1, 2), NumberAt(z, 3, 2))
    else if |z| == 5 && DigitsAt(z, 1, 1) && z[2] == ':' && DigitsAt(z, 3, 2) then
      OffsetOf(z[0], NumberAt(z, 1, 1), NumberAt(z, 3, 2))
    else if |z| == 6 && DigitsAt(z, 1, 2) && z[3] == ':' && DigitsAt(z, 4, 2) then
      OffsetOf(z[0], NumberAt(z, 1, 2), NumberAt(z, 4, 2))
    else None
  }

  /** The offset of a timestamp's text, which has two digits of hours and a colon. */
  function ZoneFromText(z: string): Option<int> {
    if z == "Z" then Some(0)
    else if IsSigned(z) && |z| == 6 && DigitsAt(z, 1, 2) && z[3] == ':' && DigitsAt(z, 4, 2) then ZoneFromString(z)
    else None
  }

  /** The nanoseconds of the digits after a decimal point; those below a nanosecond are dropped. */
  function FractionOf(digits: string): (f: nat)
    requires AllDigits(digits)
    ensures f < SECOND
  {
    var kept := if |digits| > 9 then digits[..9] else digits;
    NumBounds(kept + Zeros(9 - |kept|));
    NumberText.Billion();
    Num(kept + Zeros(9 - |kept|))
  }

  function WithNanoseconds(t: Option<Stamp>, f: nat): Option<Stamp> {
    match t
    case Some(stamp) => Some(stamp.(nanoseconds := stamp.nanoseconds + f))
    case None => None
  }

  /** timestamp::from_string() */
  function FromString(s: string): Option<Stamp> {
    if !(DigitsAt(s, 0, 4) && CharAt(s, 4, '-') && DigitsAt(s, 5, 2) && CharAt(s, 7, '-') && DigitsAt(s, 8, 2)) then None
    else
      var year, month, day := NumberAt(s, 0, 4), NumberAt(s, 5, 2), NumberAt(s, 8, 2);
      if |s| == 10 then FromComponents(year, month, day, 0, 0, 0, 0)
      else if !(CharAt(s, 10, 'T') && DigitsAt(s, 11, 2) && CharAt(s, 13, ':') && DigitsAt(s, 14, 2)
                && CharAt(s, 16, ':') && DigitsAt(s, 17, 2)) then None
      else FromTail(year, month, day, NumberAt(s, 11, 2), NumberAt(s, 14, 2), NumberAt(s, 17, 2), s[19..])
  }

  /** The fraction and the offset after the seconds; either may be missing, and no offset is UTC. */
  function FromTail(year: int, month: int, day: int, hour: int, minute: int, second: int, tail: string)
    : Option<Stamp>
  {
    var n := if CharAt(tail, 0, '.') then DigitRun(tail[1..]) else 0;
    if CharAt(tail, 0, '.') && n == 0 then None
    else
      var fraction := if n > 0 then tail[1..1 + n] else "";
      var zone := if n > 0 then tail[1 + n..] else tail;
      var offset := if zone == "" then Some(0) else ZoneFromText(zone);
      match offset
      case None => None
      case Some(o) =>
        assert n > 0 ==> fraction == tail[1..][..n];
        WithNanoseconds(FromComponents(year, month, day, hour, minute, second, o), FractionOf(fraction))
  }

  // ---- what is written reads back ----

  lemma PadReads(n: nat, k: nat)
    requires n < Pow10(k)
    ensures Num(Pad(n, k)) == n
  {
    AbovePad(n, k);
    NumBounds(Pad(n, k));
    hide Num, Pad, Above, Pow10;
    OnlyRemainder(Above(n, k), Pow10(k), Num(Pad(n, k)));
  }

  lemma OnlyRemainder(q: nat, d: nat, r: nat)
    requires q * d + r < d
    ensures q == 0
  {
    AtLeast(d, q);
  }

  lemma PadAt(s: string, i: nat, n: nat, k: nat)
    requires n < Pow10(k) && i + k <= |s| && s[i..i + k] == Pad(n, k)
    ensures DigitsAt(s, i, k) && NumberAt(s, i, k) == n
  {
    PadReads(n, k);
  }

  lemma Powers()
    ensures Pow10(2) == 100 && Pow10(4) == 10_000 && Pow10(9) == SECOND
  {
    NumberText.Billion();
  }

  lemma ZoneParts(sign: string, a: string, b: string)
    requires |sign| == 1 && |a| == 2 && |b| == 2
    ensures var z := sign + a + ":" + b; |z| == 6 && z[0] == sign[0] && z[3] == ':' && z[1..3] == a && z[4..6] == b
  {
  }

  lemma ZoneReadsBack(offset: int)
    requires InRange(offset)
    ensures ZoneFromText(ZoneText(offset)) == Some(offset) && ZoneText(offset) != ""
    ensures !IsDigit(ZoneText(offset)[0]) && ZoneText(offset)[0] != '.'
  {
    if offset != 0 {
      var a: nat := if offset < 0 then -offset else offset;
      var z := ZoneText(offset);
      Powers();
      ZoneParts(if offset >= 0 then "+" else "-", Pad(a / 60, 2), Pad(a % 60, 2));
      PadAt(z, 1, a / 60, 2);
      PadAt(z, 4, a % 60, 2);
      hide Pad, Pow10, DigitsAt, NumberAt, AllDigits;
    }
  }

  /** Every offset reads back from its text, with its colon or without. */
  lemma OffsetReadsBack(offset: int)
    requires InRange(offset)
    ensures ZoneFromString(ZoneText(offset)) == Some(offset)
    ensures offset != 0 ==>
      |ZoneText(offset)| == 6 && ZoneFromString(ZoneText(offset)[..3] + ZoneText(offset)[4..]) == Some(offset)
  {
    var z := ZoneText(offset);
    ZoneReadsBack(offset);
    if offset != 0 {
      var a: nat := if offset < 0 then -offset else offset;
      var short := z[..3] + z[4..];
      assert z[1..3] == Pad(a / 60, 2) && z[4..6] == Pad(a % 60, 2);
      assert short[1..3] == z[1..3] && short[3..5] == z[4..6];
      Powers();
      PadAt(short, 1, a / 60, 2);
      PadAt(short, 3, a % 60, 2);
      hide Pad, Pow10, DigitsAt, ZoneText;
    }
  }

  lemma FractionReadsBack(f: nat)
    requires 0 < f < SECOND
    ensures FractionText(f) != "" && FractionText(f)[0] == '.' && |FractionText(f)| > 1
    ensures AllDigits(FractionText(f)[1..]) && FractionOf(FractionText(f)[1..]) == f
  {
    var p := Pad(f, 9);
    var n := NumberText.Kept(p);
    Powers();
    PadReads(f, 9);
    if n == 0 {
      assert p == Zeros(9);
      NumZeros(9);
    }
    assert p == p[..n] + Zeros(9 - n);
    assert FractionText(f)[1..] == p[..n];
  }

  lemma DigitRunIs(a: string, b: string)
    requires AllDigits(a) && (b != "" ==> !IsDigit(b[0]))
    ensures DigitRun(a + b) == |a|
    decreases |a|
  {
    if a == "" {
      assert a + b == b;
    } else {
      assert (a + b)[1..] == a[1..] + b;
      DigitRunIs(a[1..], b);
    }
  }

  lemma TailReadsBack(year: int, month: int, day: int, hour: int, minute: int, second: int, f: nat, offset: int)
    requires f < SECOND && InRange(offset)
    ensures FromTail(year, month, day, hour, minute, second, FractionText(f) + ZoneText(offset))
            == WithNanoseconds(FromComponents(year, month, day, hour, minute, second, offset), f)
  {
    var zone := ZoneText(offset);
    ZoneReadsBack(offset);
    if f == 0 {
      assert FractionText(f) + zone == zone;
      NoFraction();
    } else {
      FractionReadsBack(f);
      var digits := FractionText(f)[1..];
      var tail := FractionText(f) + zone;
      hide ZoneText, FractionText, FractionOf, ZoneFromText;
      assert tail[1..] == digits + zone;
      DigitRunIs(digits, zone);
      assert tail[1..1 + |digits|] == digits && tail[1 + |digits|..] == zone;
    }
  }

  lemma NoFraction()
    ensures FractionOf("") == 0
  {
    assert "" + Zeros(9) == Zeros(9);
    NumZeros(9);
  }

  lemma Fields(x: int)
    requires 0 <= x < 86_400 * SECOND
    ensures var h, m, s := x / (3600 * SECOND), x / (60 * SECOND) % 60, x / SECOND % 60;
      && 0 <= h < 24 && 0 <= m < 60 && 0 <= s < 60
      && x == ((h * 60 + m) * 60 + s) * SECOND + x % SECOND
  {
    var q := x / SECOND;
    assert x / (60 * SECOND) == q / 60 && x / (3600 * SECOND) == q / 60 / 60;
  }

  /** A timestamp's text reads back as the same date, nanoseconds and offset. */
  lemma IsoReadsBack(t: Stamp)
    requires IsStamp(t)
    ensures FromString(FormatIso(t)) == Some(t)
  {
    hide FractionText, ZoneText, FormatIso, FromTail, FromComponents, DigitsAt, CharAt, NumberAt, Hour, Minute, Second,
         Subseconds, IsStamp;
    IsoParts(t);
    ComponentsOf(t);
    StampBounds(t);
    TailReadsBack(t.year, t.month, t.day, Hour(t), Minute(t), Second(t), Subseconds(t), t.offset);
  }

  lemma StampBounds(t: Stamp)
    requires IsStamp(t)
    ensures InRange(t.offset) && 0 <= Subseconds(t) < SECOND
  {
  }

  lemma ComponentsOf(t: Stamp)
    requires IsStamp(t)
    ensures WithNanoseconds(FromComponents(t.year, t.month, t.day, Hour(t), Minute(t), Second(t), t.offset), Subseconds(t))
            == Some(t)
  {
    Fields(t.nanoseconds);
  }

  /** Where the fields of a timestamp's text are. */
  lemma IsoParts(t: Stamp)
    requires IsStamp(t)
    ensures var s := FormatIso(t);
      && |s| > 19 && DigitsAt(s, 0, 4) && CharAt(s, 4, '-') && DigitsAt(s, 5, 2) && CharAt(s, 7, '-') && DigitsAt(s, 8, 2)
      && CharAt(s, 10, 'T') && DigitsAt(s, 11, 2) && CharAt(s, 13, ':') && DigitsAt(s, 14, 2)
      && CharAt(s, 16, ':') && DigitsAt(s, 17, 2)
      && NumberAt(s, 0, 4) == t.year && NumberAt(s, 5, 2) == t.month && NumberAt(s, 8, 2) == t.day
      && NumberAt(s, 11, 2) == Hour(t) && NumberAt(s, 14, 2) == Minute(t) && NumberAt(s, 17, 2) == Second(t)
      && s[19..] == FractionText(Subseconds(t)) + ZoneText(t.offset)
  {
    var s := FormatIso(t);
    Fields(t.nanoseconds);
    ZoneReadsBack(t.offset);
    Powers();
    hide Pad, Pow10, FractionText, ZoneText, Hour, Minute, Second, DigitsAt;
    IsoSlices(Pad(t.year, 4), Pad(t.month, 2), Pad(t.day, 2), Pad(Hour(t), 2), Pad(Minute(t), 2), Pad(Second(t), 2),
              FractionText(Subseconds(t)), ZoneText(t.offset));
    PadAt(s, 0, t.year, 4);
    PadAt(s, 5, t.month, 2);
    PadAt(s, 8, t.day, 2);
    PadAt(s, 11, Hour(t), 2);
    PadAt(s, 14, Minute(t), 2);
    PadAt(s, 17, Second(t), 2);
  }

  lemma IsoSlices(y: string, mo: string, d: string, h: string, mi: string, se: string, f: string, z: string)
    requires |y| == 4 && |mo| == 2 && |d| == 2 && |h| == 2 && |mi| == 2 && |se| == 2 && z != ""
    ensures var s := y + "-" + mo + "-" + d + "T" + h + ":" + mi + ":" + se + f + z;
      && |s| > 19 && s[0..4] == y && s[4] == '-' && s[5..7] == mo && s[7] == '-' && s[8..10] == d && s[10] == 'T'
      && s[11..13] == h && s[13] == ':' && s[14..16] == mi && s[16] == ':' && s[17..19] == se && s[19..] == f + z
  {
  }
}
