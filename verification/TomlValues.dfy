/** How src/format/toml.cpp writes a value and reads one. */
module TomlValues {
  import opened SortedMaps
  import opened TomlText
  import opened TomlTree
  import opened Timestamps
  import Decimal
  import NumberText
  import NumberOrder

  // ---- writing ----

  const INT64_MAX := "9223372036854775807"
  const INT64_MIN := "-9223372036854775808"

  /** number::is_integer() of a number that is not NaN */
  predicate IsWhole(digits: string) {
    Decimal.Find(digits, '.') == |digits|
  }

  predicate BeyondInt64(digits: string) {
    NumberOrder.Order(digits, INT64_MAX) > 0 || NumberOrder.Order(digits, INT64_MIN) < 0
  }

  /** A float keeps its fraction, and a larger integer than TOML has is written as a float. */
  function WriteNumber(digits: string, floating: bool): string {
    digits + if IsWhole(digits) && (floating || BeyondInt64(digits)) then ".0" else ""
  }

  /** The values a document can hold: stored numbers, timestamps in range, dictionaries in key order. */
  predicate Valid(v: Value)
    decreases v
  {
    match v
    case Text(_) => true
    case Truth(_) => true
    case Numeric(digits, _) => NumberOrder.Stored(digits)
    case Moment(stamp) => IsStamp(stamp)
    case List(vs) => forall i :: 0 <= i < |vs| ==> Valid(vs[i])
    case Dict(es) => Sorted(es) && forall i :: 0 <= i < |es| ==> Valid(es[i].value)
  }

  predicate HasNan(v: Value)
    decreases v
  {
    match v
    case Numeric(digits, _) => digits == NumberText.NOT_A_NUMBER
    case List(vs) => exists i :: 0 <= i < |vs| && HasNan(vs[i])
    case Dict(es) => exists i :: 0 <= i < |es| && HasNan(es[i].value)
    case _ => false
  }

  predicate ValidList(vs: seq<Value>) {
    forall i :: 0 <= i < |vs| ==> Valid(vs[i]) && !HasNan(vs[i])
  }

  predicate ValidEntries(es: seq<Pair<Value>>) {
    Sorted(es) && forall i :: 0 <= i < |es| ==> Valid(es[i].value) && !HasNan(es[i].value)
  }

  /** serialize_value() */
  function WriteValue(v: Value): string
    requires Valid(v)
    decreases v, 1
  {
    match v
    case Text(text) => Quoted(text)
    case Numeric(digits, floating) => WriteNumber(digits, floating)
    case Truth(truth) => if truth then "true" else "false"
    case Moment(stamp) => FormatIso(stamp)
    case List(vs) => "[" + WriteElements(vs) + "]"
    case Dict(es) => "{" + WritePairs(es) + "}"
  }

  function WriteElements(vs: seq<Value>): string
    requires forall i :: 0 <= i < |vs| ==> Valid(vs[i])
    decreases vs, 0
  {
    if vs == [] then ""
    else WriteValue(vs[0]) + (if |vs| == 1 then "" else ", " + WriteElements(vs[1..]))
  }

  function WritePairs(es: seq<Pair<Value>>): string
    requires forall i :: 0 <= i < |es| ==> Valid(es[i].value)
    decreases es, 0
  {
    if es == [] then ""
    else
      EscapeKey(es[0].key) + " = " + WriteValue(es[0].value) + (if |es| == 1 then "" else ", " + WritePairs(es[1..]))
  }

  // ---- reading ----

  datatype KeyValue = KeyValue(keys: seq<string>, value: Value)

  function AsText(r: Parsed<string>): Parsed<Value> {
    match r
    case Done(text, rest) => Done(Text(text), rest)
    case Failed => Failed
  }

  predicate AtWord(s: string, start: nat, word: string) {
    |s| >= start + |word| && s[start..start + |word|] == word && !IsBareKeyChar(Peek(s, start + |word|))
  }

  predicate AtInfOrNan(s: string) {
    var start := if Peek(s, 0) == '+' || Peek(s, 0) == '-' then 1 else 0;
    AtWord(s, start, "inf") || AtWord(s, start, "nan")
  }

  predicate DigitsAhead(s: string, k: nat, n: nat) {
    forall i :: k <= i < k + n ==> Decimal.IsDigit(Peek(s, i))
  }

  predicate AtDate(s: string) {
    DigitsAhead(s, 0, 4) && Peek(s, 4) == '-'
  }

  predicate AtTime(s: string) {
    DigitsAhead(s, 0, 2) && Peek(s, 2) == ':'
  }

  function ReadTruth(s: string): (r: Parsed<Value>)
    ensures r.Done? ==> |r.rest| < |s|
  {
    if |s| >= 4 && s[..4] == "true" then Done(Truth(true), s[4..])
    else if |s| >= 5 && s[..5] == "false" then Done(Truth(false), s[5..])
    else Failed
  }

  /** parse_datetime(): the offset has to be there, since a timestamp has one. */
  function ReadMoment(s: string): (r: Parsed<Value>)
    ensures r.Done? ==> |r.rest| < |s|
  {
    if AtTime(s) then Failed
    else if !(DigitsAt(s, 0, 4) && CharAt(s, 4, '-') && DigitsAt(s, 5, 2) && CharAt(s, 7, '-') && DigitsAt(s, 8, 2)) then
      Failed
    else if !(Peek(s, 10) == 'T' || Peek(s, 10) == 't'
              || (Peek(s, 10) == ' ' && DigitsAhead(s, 11, 2) && Peek(s, 13) == ':')) then Failed
    else if !(DigitsAt(s, 11, 2) && CharAt(s, 13, ':') && DigitsAt(s, 14, 2) && CharAt(s, 16, ':') && DigitsAt(s, 17, 2)) then
      Failed
    else
      var tail := s[19..];
      var n := if Peek(tail, 0) == '.' then 1 + DigitRun(tail[1..]) else 0;
      ReadZone(s[..10] + "T" + s[11..19] + tail[..n], tail[n..])
  }

  /** The offset of a date and time, and the timestamp of all that was read. */
  function ReadZone(text: string, s: string): (r: Parsed<Value>)
    ensures r.Done? ==> |r.rest| < |s|
  {
    if Peek(s, 0) == 'Z' || Peek(s, 0) == 'z' then Stamped(text + "Z", s[1..])
    else if (Peek(s, 0) == '+' || Peek(s, 0) == '-') && DigitsAt(s, 1, 2) && CharAt(s, 3, ':') && DigitsAt(s, 4, 2) then
      Stamped(text + s[..6], s[6..])
    else Failed
  }

  function Stamped(text: string, rest: string): (r: Parsed<Value>)
    ensures r.Done? ==> r.rest == rest
  {
    match FromString(text)
    case Some(stamp) => Done(Moment(stamp), rest)
    case None => Failed
  }

  /** read_digits(), after so many digits; an underscore has to be between two. */
  function ReadDigits(s: string, base: int, count: nat): (r: Parsed<string>)
    ensures r.Done? ==> |r.rest| + |r.value| <= |s|
    decreases |s|
  {
    if Peek(s, 0) == '_' && (count == 0 || DigitValue(Peek(s, 1), base) < 0) then Failed
    else
      var t := if Peek(s, 0) == '_' then s[1..] else s;
      if t == "" || DigitValue(t[0], base) < 0 then Done("", t)
      else Prepend([t[0]], ReadDigits(t[1..], base, count + 1))
  }

  predicate AtPrefix(s: string) {
    Peek(s, 0) == '0' && (Peek(s, 1) == 'x' || Peek(s, 1) == 'o' || Peek(s, 1) == 'b')
  }

  lemma NotNegative(x: nat, y: nat)
    ensures x * y >= 0
  {
  }

  /** The number that digits of a base stand for. */
  function Positional(digits: string, base: nat): (n: nat)
    requires forall i :: 0 <= i < |digits| ==> DigitValue(digits[i], base) >= 0
  {
    if digits == "" then 0
    else
      var before := Positional(digits[..|digits| - 1], base);
      NotNegative(before, base);
      before * base + DigitValue(digits[|digits| - 1], base)
  }

  lemma {:induction false} ReadAreDigits(s: string, base: int, count: nat)
    requires ReadDigits(s, base, count).Done?
    ensures forall i :: 0 <= i < |ReadDigits(s, base, count).value| ==>
                          DigitValue(ReadDigits(s, base, count).value[i], base) >= 0
    decreases |s|
  {
    var t := if Peek(s, 0) == '_' then s[1..] else s;
    if t != "" && DigitValue(t[0], base) >= 0 {
      ReadAreDigits(t[1..], base, count + 1);
    }
  }

  /** parse_prefixed_integer() */
  function ReadPrefixed(s: string): (r: Parsed<Value>)
    requires AtPrefix(s)
    ensures r.Done? ==> |r.rest| < |s|
  {
    var base := if s[1] == 'x' then 16 else if s[1] == 'o' then 8 else 2;
    match ReadDigits(s[2..], base, 0)
    case Failed => Failed
    case Done(digits, rest) =>
      if digits == "" then Failed
      else
        ReadAreDigits(s[2..], base, 0);
        Done(Numeric(Decimal.Digits(Positional(digits, base)), false), rest)
  }

  /** number's own flag: a point or an exponent was written. */
  predicate WrittenAsFloat(text: string) {
    exists i :: 0 <= i < |text| && (text[i] == '.' || text[i] == 'e' || text[i] == 'E')
  }

  /** The part of parse_number() after the sign. */
  function ReadUnsigned(sign: string, s: string): (r: Parsed<Value>)
    ensures r.Done? ==> |r.rest| < |s|
  {
    match ReadDigits(s, 10, 0)
    case Failed => Failed
    case Done(digits, rest) =>
      if digits == "" || (Peek(s, 0) == '0' && |digits| > 1) then Failed
      else if Peek(rest, 0) == '.' then
        match ReadDigits(rest[1..], 10, 0)
        case Failed => Failed
        case Done(fraction, more) =>
          if fraction == "" then Failed else ReadExponent(sign + digits + "." + fraction, more)
      else ReadExponent(sign + digits, rest)
  }

  function ReadExponent(text: string, s: string): (r: Parsed<Value>)
    ensures r.Done? ==> |r.rest| <= |s|
  {
    if Peek(s, 0) == 'e' || Peek(s, 0) == 'E' then
      var sign := if Peek(s, 1) == '+' || Peek(s, 1) == '-' then [s[1]] else "";
      match ReadDigits(s[1 + |sign|..], 10, 0)
      case Failed => Failed
      case Done(digits, rest) => if digits == "" then Failed else AsNumber(text + [s[0]] + sign + digits, rest)
    else AsNumber(text, s)
  }

  function AsNumber(text: string, rest: string): (r: Parsed<Value>)
    ensures r.Done? ==> r.rest == rest
  {
    var digits := NumberText.CanonicalText(text);
    if digits == NumberText.NOT_A_NUMBER then Failed else Done(Numeric(digits, WrittenAsFloat(text)), rest)
  }

  /** parse_number() */
  function ReadNumber(s: string): (r: Parsed<Value>)
    ensures r.Done? ==> |r.rest| < |s|
  {
    if AtPrefix(s) then ReadPrefixed(s)
    else if Peek(s, 0) == '+' || Peek(s, 0) == '-' then
      if AtPrefix(s[1..]) then Failed else ReadUnsigned([s[0]], s[1..])
    else ReadUnsigned("", s)
  }

  /** parse_value() */
  function ReadValue(s: string): (r: Parsed<Value>)
    ensures r.Done? ==> |r.rest| < |s|
    decreases |s|, 2
  {
    var t := SkipSpace(s);
    var c := Peek(t, 0);
    if AtInfOrNan(t) then Failed
    else if (c == '"' || c == '\'') && Peek(t, 1) == c && Peek(t, 2) == c then AsText(MultiLine(t[3..], c))
    else if c == '"' then AsText(BasicString(t))
    else if c == '\'' then AsText(LiteralBody(t[1..]))
    else if c == '[' then ReadList(t)
    else if c == '{' then ReadInline(t)
    else if c == 't' || c == 'f' then ReadTruth(t)
    else if AtDate(t) || AtTime(t) then ReadMoment(t)
    else if Decimal.IsDigit(c) || c == '-' || c == '+' then ReadNumber(t)
    else Failed
  }

  /** parse_array() */
  function ReadList(s: string): (r: Parsed<Value>)
    requires s != ""
    ensures r.Done? ==> |r.rest| < |s|
    decreases |s|, 1
  {
    var t := SkipBlank(s[1..]);
    if Peek(t, 0) == ']' then Done(List([]), t[1..])
    else
      match ReadElements(t)
      case Failed => Failed
      case Done(vs, rest) => Done(List(vs), rest)
  }

  function ReadElements(s: string): (r: Parsed<seq<Value>>)
    ensures r.Done? ==> |r.rest| < |s|
    decreases |s|, 3
  {
    match ReadValue(s)
    case Failed => Failed
    case Done(v, rest) =>
      var t := SkipBlank(rest);
      if Peek(t, 0) == ',' then
        var u := SkipBlank(t[1..]);
        if Peek(u, 0) == ']' then Done([v], u[1..])
        else
          match ReadElements(u)
          case Failed => Failed
          case Done(vs, more) => Done([v] + vs, more)
      else if Peek(t, 0) == ']' then Done([v], t[1..])
      else Failed
  }

  /** The keys before '=', or those of a header, with the space after them. */
  function ReadKeys(s: string): (r: Parsed<seq<string>>)
    ensures r.Done? ==> |r.rest| < |s| && r.value != []
    decreases |s|
  {
    match Key(s)
    case Failed => Failed
    case Done(key, rest) =>
      var t := SkipSpace(rest);
      if Peek(t, 0) == '.' then
        match ReadKeys(SkipSpace(t[1..]))
        case Failed => Failed
        case Done(keys, more) => Done([key] + keys, more)
      else Done([key], t)
  }

  /** parse_key_value() */
  function ReadPair(s: string): (r: Parsed<KeyValue>)
    ensures r.Done? ==> |r.rest| < |s| && r.value.keys != []
    decreases |s|, 3
  {
    match ReadKeys(s)
    case Failed => Failed
    case Done(keys, t) =>
      if Peek(t, 0) != '=' then Failed
      else
        match ReadValue(SkipSpace(t[1..]))
        case Failed => Failed
        case Done(v, rest) => Done(KeyValue(keys, v), rest)
  }

  /** parse_inline_table() */
  function ReadInline(s: string): (r: Parsed<Value>)
    requires s != ""
    ensures r.Done? ==> |r.rest| < |s|
    decreases |s|, 1
  {
    var t := SkipSpace(s[1..]);
    if Peek(t, 0) == '}' then Done(Dict([]), t[1..])
    else
      match ReadPairs(t, FRESH)
      case Failed => Failed
      case Done(n, rest) => Done(Dict(Merge(n)), rest)
  }

  function ReadPairs(s: string, n: Node): (r: Parsed<Node>)
    ensures r.Done? ==> |r.rest| < |s|
    decreases |s|, 4
  {
    match ReadPair(s)
    case Failed => Failed
    case Done(pair, rest) =>
      match AddPair(n, pair.keys, pair.value)
      case None => Failed
      case Some(m) =>
        var t := SkipSpace(rest);
        if Peek(t, 0) == ',' then ReadPairs(SkipSpace(t[1..]), m)
        else if Peek(t, 0) == '}' then Done(m, t[1..])
        else Failed
  }
}
