/** Numbers and timestamps written by src/format/toml.cpp read back. */
module TomlNumbers {
  import opened TomlText
  import opened TomlTree
  import opened TomlValues
  import D = Decimal
  import N = NumberText
  import O = NumberOrder
  import A = Number
  import opened Timestamps

  /** What can follow a value. */
  predicate Ends(rest: string) {
    rest == "" || rest[0] == '\n' || rest[0] == ',' || rest[0] == ']' || rest[0] == '}'
  }

  /** What can follow a row of digits. */
  predicate NoDigit(s: string) {
    s == "" || (!D.IsDigit(s[0]) && s[0] != '_')
  }

  lemma {:induction false} DigitsReadBack(d: string, tail: string, count: nat)
    requires D.AllDigits(d) && NoDigit(tail)
    ensures ReadDigits(d + tail, 10, count) == Done(d, tail)
  {
    if d == "" {
      assert d + tail == tail;
    } else {
      assert (d + tail)[1..] == d[1..] + tail;
      DigitsReadBack(d[1..], tail, count + 1);
      assert [d[0]] + d[1..] == d;
    }
  }

  /** The parts of a number as it is written: no leading zero, and digits on both sides of a point. */
  predicate IsWritten(q: D.Parts) {
    && D.AllDigits(q.integer) && D.AllDigits(q.fraction)
    && q.integer != "" && (|q.integer| > 1 ==> q.integer[0] != '0')
  }

  lemma NoExponent(text: string, rest: string)
    requires Ends(rest)
    ensures ReadExponent(text, rest) == AsNumber(text, rest)
  {
    hide AsNumber;
  }

  lemma UnsignedReadsBack(sign: string, integer: string, fraction: string, rest: string)
    requires IsWritten(D.Parts(false, integer, fraction)) && Ends(rest)
    ensures ReadUnsigned(sign, D.Plain(integer, fraction) + rest) == AsNumber(sign + D.Plain(integer, fraction), rest)
  {
    hide AsNumber, ReadExponent, ReadDigits;
    var s := D.Plain(integer, fraction) + rest;
    NoExponent(sign + D.Plain(integer, fraction), rest);
    if fraction == "" {
      DigitsReadBack(integer, rest, 0);
    } else {
      var tail := "." + fraction + rest;
      assert s == integer + tail;
      DigitsReadBack(integer, tail, 0);
      assert tail[1..] == fraction + rest;
      DigitsReadBack(fraction, rest, 0);
      assert sign + integer + "." + fraction == sign + D.Plain(integer, fraction);
    }
  }

  lemma WrittenReadsBack(q: D.Parts, rest: string)
    requires IsWritten(q) && Ends(rest)
    ensures ReadNumber(D.Join(q) + rest) == AsNumber(D.Join(q), rest)
  {
    hide ReadUnsigned, AsNumber, D.Plain, AtPrefix, ReadPrefixed;
    var plain := D.Plain(q.integer, q.fraction);
    var s := D.Join(q) + rest;
    NoPrefix(q, rest);
    PlainStarts(q);
    UnsignedReadsBack(if q.negative then "-" else "", q.integer, q.fraction, rest);
    if q.negative {
      assert s[0] == '-' && s[1..] == plain + rest;
    } else {
      assert s == plain + rest && D.Join(q) == "" + plain == plain;
    }
  }

  lemma PlainStarts(q: D.Parts)
    requires IsWritten(q)
    ensures var plain := D.Plain(q.integer, q.fraction);
      plain != "" && plain[0] == q.integer[0] && forall i :: 0 <= i < |plain| ==> D.IsDigit(plain[i]) || plain[i] == '.'
  {
  }

  lemma NoPrefix(q: D.Parts, rest: string)
    requires IsWritten(q) && Ends(rest)
    ensures !AtPrefix(D.Plain(q.integer, q.fraction) + rest) && (q.negative ==> !AtPrefix(D.Join(q) + rest))
  {
    var plain := D.Plain(q.integer, q.fraction);
    PlainStarts(q);
    var s := plain + rest;
    if |plain| > 1 {
      assert s[1] == plain[1];
    } else if rest != "" {
      assert s[1] == rest[0];
    }
  }

  /** The flag of a number as it will be read: whether a point is written. */
  predicate ReadsFloating(digits: string, floating: bool) {
    !IsWhole(digits) || floating || BeyondInt64(digits)
  }

  /** The parts that are written: a fraction of one zero marks a whole number as a float. */
  function WrittenParts(digits: string, floating: bool): D.Parts {
    var p := D.Split(digits);
    if IsWhole(digits) && (floating || BeyondInt64(digits)) then p.(fraction := "0") else p
  }

  lemma WrittenPartsAre(digits: string, floating: bool)
    requires D.IsCanonical(digits)
    ensures var q := WrittenParts(digits, floating);
      && IsWritten(q) && D.Join(q) == WriteNumber(digits, floating)
      && (q.fraction != "" <==> ReadsFloating(digits, floating))
  {
    hide D.Split, D.Find, D.IsCanonical, BeyondInt64;
    A.CanonicalParts(digits);
    A.PointShows(digits);
  }

  /** A zero after the point changes nothing of the value. */
  lemma PointZero(p: D.Parts)
    requires D.WellFormed(p) && p.fraction == ""
    ensures N.CanonicalText(D.Join(p.(fraction := "0"))) == D.Join(p)
  {
    hide N.IsNumber, D.Num, N.MarkAt, D.Canon, N.TooLong, N.Whole, N.Fraction, N.MantissaOf, D.Pow10, N.CanonicalText;
    var q := p.(fraction := "0");
    N.JoinReads(q);
    N.PlainMeans(D.Join(q));
    var n := D.Num(p.integer);
    assert p.integer + p.fraction == p.integer;
    D.NumBounds(p.integer + "0");
    D.NumBounds(p.integer);
    LastZero(p.integer);
    A.ShiftedDown(N.Signed(p.negative, n * 10), 1);
    D.CanonTimesTen(N.Signed(p.negative, n), 0);
    D.WellFormedIsCanon(p);
  }

  lemma {:induction false} LastZero(s: string)
    ensures D.Num(s + "0") == D.Num(s) * 10
  {
    assert (s + "0")[..|s|] == s;
  }

  lemma NumberReadsBack(digits: string, floating: bool, rest: string)
    requires D.IsCanonical(digits) && Ends(rest)
    ensures ReadNumber(WriteNumber(digits, floating) + rest) == Done(Numeric(digits, ReadsFloating(digits, floating)), rest)
  {
    var q := WrittenParts(digits, floating);
    WrittenPartsAre(digits, floating);
    hide D.Split, D.IsCanonical, IsWhole, BeyondInt64, ReadNumber, D.WellFormed;
    WrittenReadsBack(q, rest);
    A.CanonicalParts(digits);
    if q != D.Split(digits) {
      PointZero(D.Split(digits));
    } else {
      N.CanonicalStays(digits);
    }
    O.StoredIsNumber(digits);
    NotNan(digits);
    FloatShows(q);
  }

  lemma NotNan(digits: string)
    requires D.IsCanonical(digits)
    ensures digits != N.NOT_A_NUMBER
  {
    hide D.IsCanonical;
    N.NanIsNotCanonical();
  }

  lemma FloatShows(q: D.Parts)
    requires IsWritten(q)
    ensures WrittenAsFloat(D.Join(q)) <==> q.fraction != ""
  {
    var plain := D.Plain(q.integer, q.fraction);
    var s := D.Join(q);
    PlainStarts(q);
    if q.fraction != "" {
      assert s[(if q.negative then 1 else 0) + |q.integer|] == '.';
    } else {
      forall i | 0 <= i < |s| ensures s[i] == '-' || D.IsDigit(s[i]) {
        assert i > 0 || !q.negative ==> s[i] == plain[if q.negative then i - 1 else i];
      }
    }
  }

  /** A number is told from the other values by its first characters. */
  lemma NumberStarts(digits: string, floating: bool, rest: string)
    requires D.IsCanonical(digits) && Ends(rest)
    ensures var s := WriteNumber(digits, floating) + rest;
      && WriteNumber(digits, floating) != "" && (D.IsDigit(s[0]) || s[0] == '-')
      && !AtInfOrNan(s) && !AtDate(s) && !AtTime(s)
  {
    var q := WrittenParts(digits, floating);
    WrittenPartsAre(digits, floating);
    hide D.IsCanonical, WrittenParts, WriteNumber;
    JoinStarts(q, rest);
  }

  lemma JoinStarts(q: D.Parts, rest: string)
    requires IsWritten(q) && Ends(rest)
    ensures var s := D.Join(q) + rest;
      D.Join(q) != "" && (D.IsDigit(s[0]) || s[0] == '-') && !AtInfOrNan(s) && !AtDate(s) && !AtTime(s)
  {
    var plain, w := D.Plain(q.integer, q.fraction), D.Join(q);
    var s := w + rest;
    PlainStarts(q);
    var start := if q.negative then 1 else 0;
    assert forall i :: start <= i < |w| ==> w[i] == plain[i - start];
    assert s[start] == w[start];
    assert s[start..start + 1] == [s[start]];
    NotWord(s, start, "inf");
    NotWord(s, start, "nan");
    LaterPeek(w, rest, start, 2);
    LaterPeek(w, rest, start, 4);
  }

  lemma NotWord(s: string, start: nat, word: string)
    requires start < |s| && word != "" && s[start] != word[0]
    ensures !AtWord(s, start, word)
  {
  }

  lemma LaterPeek(w: string, rest: string, start: nat, k: nat)
    requires start < |w| && start <= 1 && k >= 1 && Ends(rest)
    requires forall i :: start <= i < |w| ==> D.IsDigit(w[i]) || w[i] == '.'
    ensures DigitsAhead(w + rest, 0, k) ==> Peek(w + rest, k) != '-' && Peek(w + rest, k) != ':'
  {
    assert !D.IsDigit(Peek(w + rest, |w|)) && Peek(w + rest, |w|) != '-' && Peek(w + rest, |w|) != ':';
    assert k < |w| ==> Peek(w + rest, k) == w[k];
  }

  // ---- timestamps ----

  /** Where the fields of a date and time are. */
  predicate HasFields(s: string) {
    && DigitsAt(s, 0, 4) && CharAt(s, 4, '-') && DigitsAt(s, 5, 2) && CharAt(s, 7, '-') && DigitsAt(s, 8, 2)
    && CharAt(s, 10, 'T') && DigitsAt(s, 11, 2) && CharAt(s, 13, ':') && DigitsAt(s, 14, 2)
    && CharAt(s, 16, ':') && DigitsAt(s, 17, 2)
  }

  lemma MoreFields(iso: string, rest: string)
    requires HasFields(iso)
    ensures HasFields(iso + rest)
  {
    MoreDigits(iso, rest, 0, 4);
    MoreDigits(iso, rest, 5, 2);
    MoreDigits(iso, rest, 8, 2);
    MoreDigits(iso, rest, 11, 2);
    MoreDigits(iso, rest, 14, 2);
    MoreDigits(iso, rest, 17, 2);
    hide DigitsAt;
  }

  lemma MoreDigits(iso: string, rest: string, i: nat, n: nat)
    requires DigitsAt(iso, i, n)
    ensures DigitsAt(iso + rest, i, n)
  {
    assert (iso + rest)[i..i + n] == iso[i..i + n];
  }

  lemma NotAtTime(s: string)
    requires HasFields(s)
    ensures !AtTime(s)
  {
    assert s[0..4][2] == s[2];
  }

  /** With its fields in place, a date and time is read up to its fraction and offset. */
  lemma FieldsRead(s: string)
    requires HasFields(s) && |s| > 19
    ensures var tail := s[19..];
      var n := if Peek(tail, 0) == '.' then 1 + DigitRun(tail[1..]) else 0;
      ReadMoment(s) == ReadZone(s[..10] + "T" + s[11..19] + tail[..n], tail[n..])
  {
    NotAtTime(s);
    hide ReadZone, AtTime, DigitsAt;
  }

  lemma MomentReadsBack(t: Stamp, rest: string)
    requires IsStamp(t) && Ends(rest)
    ensures ReadMoment(FormatIso(t) + rest) == Done(Moment(t), rest)
  {
    hide FormatIso, FractionText, FromString, ZoneText, ReadZone, IsStamp, ReadMoment, DigitsAt, NumberAt;
    var iso := FormatIso(t);
    var s := iso + rest;
    IsoParts(t);
    StampBounds(t);
    ZoneReadsBack(t.offset);
    IsoReadsBack(t);
    var frac, zone := FractionText(Subseconds(t)), ZoneText(t.offset);
    MoreFields(iso, rest);
    hide HasFields, Subseconds;
    FieldsRead(s);
    var tail := s[19..];
    assert tail == frac + (zone + rest);
    FractionEnds(Subseconds(t), zone + rest);
    assert tail[..|frac|] == frac && tail[|frac|..] == zone + rest;
    TIsKept(iso, rest);
    ZoneReads(iso[..19] + frac, t.offset, rest);
    assert iso[..19] + frac + zone == iso;
  }

  lemma TIsKept(iso: string, rest: string)
    requires |iso| >= 19 && iso[10] == 'T'
    ensures (iso + rest)[..10] + "T" + (iso + rest)[11..19] == iso[..19]
  {
  }

  lemma FractionEnds(f: nat, more: string)
    requires f < SECOND && more != "" && !D.IsDigit(more[0]) && more[0] != '.'
    ensures var tail := FractionText(f) + more;
      |FractionText(f)| == if Peek(tail, 0) == '.' then 1 + DigitRun(tail[1..]) else 0
  {
    var frac := FractionText(f);
    var tail := frac + more;
    if f == 0 {
      assert tail == more;
    } else {
      FractionReadsBack(f);
      hide FractionText, FractionOf;
      assert tail[1..] == frac[1..] + more;
      DigitRunIs(frac[1..], more);
    }
  }

  lemma ZoneReads(text: string, offset: int, rest: string)
    requires InRange(offset)
    ensures ReadZone(text, ZoneText(offset) + rest) == Stamped(text + ZoneText(offset), rest)
  {
    var zone := ZoneText(offset);
    var s := zone + rest;
    if offset == 0 {
      assert s[0] == 'Z' && s[1..] == rest;
    } else {
      var a: nat := if offset < 0 then -offset else offset;
      hide D.Pad;
      assert |zone| == 6;
      assert s[1..3] == D.Pad(a / 60, 2) && s[4..6] == D.Pad(a % 60, 2);
      assert s[..6] == zone && s[6..] == rest;
    }
  }

  lemma MomentStarts(t: Stamp, rest: string)
    requires IsStamp(t)
    ensures var s := FormatIso(t) + rest;
      FormatIso(t) != "" && D.IsDigit(s[0]) && !AtInfOrNan(s) && AtDate(s)
  {
    var iso := FormatIso(t);
    IsoParts(t);
    hide FormatIso;
    var s := iso + rest;
    assert forall i :: 0 <= i < 4 ==> iso[0..4][i] == s[i];
    assert s[4] == iso[4];
    NotWord(s, 0, "inf");
    NotWord(s, 0, "nan");
  }
}
