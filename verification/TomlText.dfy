/** The characters, strings and keys of src/format/toml.cpp. What is left of the input stands for the
    position of the parser; a char is one byte. */
module TomlText {
  import opened Decimal
  import opened Utf8

  datatype Parsed<+T> = Done(value: T, rest: string) | Failed

  /** peek_char(), 0 past the end of the input. */
  function Peek(s: string, k: nat): char {
    if k < |s| then s[k] else '\0'
  }

  predicate IsForbiddenControl(c: char) {
    (c as int < 0x20 && c != '\t') || c as int == 0x7F
  }

  predicate IsBareKeyChar(c: char) {
    'a' <= c <= 'z' || 'A' <= c <= 'Z' || IsDigit(c) || c == '_' || c == '-'
  }

  /** The value of a digit in a base up to 16, or -1. */
  function DigitValue(c: char, base: int): (d: int)
    ensures -1 <= d < 16 && (d >= 0 ==> d < base)
  {
    var d := if IsDigit(c) then c as int - '0' as int
             else if 'a' <= c <= 'f' then c as int - 'a' as int + 10
             else if 'A' <= c <= 'F' then c as int - 'A' as int + 10
             else -1;
    if d < base then d else -1
  }

  function HexChar(d: int): (c: char)
    requires 0 <= d < 16
    ensures DigitValue(c, 16) == d && IsAscii(c)
  {
    if d < 10 then ('0' as int + d) as char else ('A' as int + d - 10) as char
  }

  /** The number that hexadecimal digits stand for, or -1 when one is none. */
  function HexNumber(s: string): (n: int)
    ensures n >= -1
  {
    if s == "" then 0
    else
      var n, d := HexNumber(s[..|s| - 1]), DigitValue(s[|s| - 1], 16);
      if n < 0 || d < 0 then -1 else n * 16 + d
  }

  // ---- writing ----

  function EscapeChar(c: char): (e: string)
    ensures e != ""
  {
    if c == '"' then "\\\""
    else if c == '\\' then "\\\\"
    else if c == '\n' then "\\n"
    else if c == '\t' then "\\t"
    else if c == '\r' then "\\r"
    else if c as int == 8 then "\\b"
    else if c as int == 12 then "\\f"
    else if IsForbiddenControl(c) then "\\u00" + [HexChar(c as int / 16), HexChar(c as int % 16)]
    else [c]
  }

  function EscapeAll(s: string): string {
    if s == "" then "" else EscapeChar(s[0]) + EscapeAll(s[1..])
  }

  function Quoted(s: string): string {
    "\"" + EscapeAll(s) + "\""
  }

  predicate IsBareKey(key: string) {
    key != "" && forall i :: 0 <= i < |key| ==> IsBareKeyChar(key[i])
  }

  function EscapeKey(key: string): (e: string)
    ensures e != ""
  {
    if IsBareKey(key) then key else Quoted(key)
  }

  // ---- reading ----

  function Prepend(text: string, r: Parsed<string>): Parsed<string> {
    match r
    case Done(value, rest) => Done(text + value, rest)
    case Failed => Failed
  }

  /** append_escape(), at the letter after the backslash. */
  function Escape(s: string): (r: Parsed<string>)
    ensures r.Done? ==> |r.rest| < |s|
  {
    if s == "" then Failed
    else if s[0] == '"' then Done("\"", s[1..])
    else if s[0] == '\\' then Done("\\", s[1..])
    else if s[0] == 'n' then Done("\n", s[1..])
    else if s[0] == 't' then Done("\t", s[1..])
    else if s[0] == 'r' then Done("\r", s[1..])
    else if s[0] == 'b' then Done([8 as char], s[1..])
    else if s[0] == 'f' then Done([12 as char], s[1..])
    else if s[0] == 'u' then UnicodeEscape(s, 4)
    else if s[0] == 'U' then UnicodeEscape(s, 8)
    else Failed
  }

  function UnicodeEscape(s: string, digits: nat): (r: Parsed<string>)
    requires s != ""
    ensures r.Done? ==> |r.rest| < |s|
  {
    if |s| < 1 + digits then Failed
    else
      var n := HexNumber(s[1..1 + digits]);
      if n < 0 || !IsScalar(n) then Failed else Done(Utf8.Encode(n), s[1 + digits..])
  }

  /** The text up to a closing double quote, which is read too. */
  function BasicBody(s: string): (r: Parsed<string>)
    ensures r.Done? ==> |r.rest| < |s|
    decreases |s|
  {
    if s == "" then Failed
    else if s[0] == '"' then Done("", s[1..])
    else if s[0] == '\\' then
      match Escape(s[1..])
      case Done(piece, rest) => Prepend(piece, BasicBody(rest))
      case Failed => Failed
    else if IsForbiddenControl(s[0]) then Failed
    else Prepend([s[0]], BasicBody(s[1..]))
  }

  function BasicString(s: string): (r: Parsed<string>)
    ensures r.Done? ==> |r.rest| < |s|
  {
    if Peek(s, 0) != '"' then Failed else BasicBody(s[1..])
  }

  function LiteralBody(s: string): (r: Parsed<string>)
    ensures r.Done? ==> |r.rest| < |s|
  {
    if s == "" then Failed
    else if s[0] == '\'' then Done("", s[1..])
    else if IsForbiddenControl(s[0]) then Failed
    else Prepend([s[0]], LiteralBody(s[1..]))
  }

  /** The longest run of bare key characters. */
  function BareRun(s: string): (n: nat)
    ensures n <= |s| && (forall i :: 0 <= i < n ==> IsBareKeyChar(s[i])) && (n < |s| ==> !IsBareKeyChar(s[n]))
  {
    if s == "" || !IsBareKeyChar(s[0]) then 0 else 1 + BareRun(s[1..])
  }

  /** parse_key() */
  function Key(s: string): (r: Parsed<string>)
    ensures r.Done? ==> |r.rest| < |s|
  {
    if Peek(s, 0) == '"' then BasicString(s)
    else if Peek(s, 0) == '\'' then LiteralBody(s[1..])
    else if BareRun(s) > 0 then Done(s[..BareRun(s)], s[BareRun(s)..])
    else Failed
  }

  // ---- strings over several lines ----

  predicate AtLineEnd(s: string, k: nat) {
    Peek(s, k) == '\n' || (Peek(s, k) == '\r' && Peek(s, k + 1) == '\n')
  }

  function SkipLineEnd(s: string): (r: string)
    requires AtLineEnd(s, 0)
    ensures |r| < |s|
  {
    if s[0] == '\r' then s[2..] else s[1..]
  }

  /** Spaces, tabs and line ends after a backslash that ends a line. */
  function SkipLines(s: string): (r: string)
    ensures |r| <= |s|
    decreases |s|
  {
    if AtLineEnd(s, 0) then SkipLines(SkipLineEnd(s))
    else if Peek(s, 0) == ' ' || Peek(s, 0) == '\t' then SkipLines(s[1..])
    else s
  }

  /** The first place from k on that is no space or tab. */
  function AfterSpaces(s: string, k: nat): (r: nat)
    ensures r >= k
    decreases |s| - k
  {
    if Peek(s, k) == ' ' || Peek(s, k) == '\t' then AfterSpaces(s, k + 1) else k
  }

  function Quotes(quote: char, n: nat): string {
    seq(n, _ => quote)
  }

  /** The text up to three closing quotes, with up to two more before them. */
  function MultiLineBody(s: string, quote: char): (r: Parsed<string>)
    ensures r.Done? ==> |r.rest| < |s|
    decreases |s|
  {
    if s == "" then Failed
    else if s[0] == quote && Peek(s, 1) == quote && Peek(s, 2) == quote && |s| >= 3 then
      var extra := if Peek(s, 3) != quote || |s| < 4 then 0 else if Peek(s, 4) != quote || |s| < 5 then 1 else 2;
      Done(Quotes(quote, extra), s[3 + extra..])
    else if quote == '"' && s[0] == '\\' then
      var k := AfterSpaces(s, 1);
      if AtLineEnd(s, k) || k >= |s| then MultiLineBody(SkipLines(s[1..]), quote)
      else
        match Escape(s[1..])
        case Done(piece, rest) => Prepend(piece, MultiLineBody(rest, quote))
        case Failed => Failed
    else if AtLineEnd(s, 0) then
      Prepend(if s[0] == '\r' then "\r\n" else "\n", MultiLineBody(SkipLineEnd(s), quote))
    else if IsForbiddenControl(s[0]) then Failed
    else Prepend([s[0]], MultiLineBody(s[1..], quote))
  }

  /** parse_multi_line_string(), after the opening quotes. */
  function MultiLine(s: string, quote: char): (r: Parsed<string>)
    ensures r.Done? ==> |r.rest| < |s|
  {
    MultiLineBody(if AtLineEnd(s, 0) then SkipLineEnd(s) else s, quote)
  }

  // ---- space and comments ----

  /** skip_whitespace(): a CR only before an LF. */
  function SkipSpace(s: string): (r: string)
    ensures |r| <= |s|
  {
    if Peek(s, 0) == ' ' || Peek(s, 0) == '\t' || (Peek(s, 0) == '\r' && Peek(s, 1) == '\n') then SkipSpace(s[1..])
    else s
  }

  /** The rest of a comment, up to its line end or a control character that is left for the caller. */
  function SkipComment(s: string): (r: string)
    ensures |r| <= |s|
  {
    if s == "" || s[0] == '\n' then s
    else if IsForbiddenControl(s[0]) && !(s[0] == '\r' && Peek(s, 1) == '\n') then s
    else SkipComment(s[1..])
  }

  /** skip_whitespace_and_comments() */
  function SkipBlank(s: string): (r: string)
    ensures |r| <= |s|
    decreases |s|
  {
    if s == "" then s
    else
      var a := SkipSpace(s);
      var b := if Peek(a, 0) == '#' then SkipComment(a) else a;
      if Peek(b, 0) == '\n' then SkipBlank(b[1..]) else b
  }

  // ---- what is written reads back ----

  lemma EscapeReadsBack(c: char, tail: string)
    ensures BasicBody(EscapeChar(c) + tail) == Prepend([c], BasicBody(tail))
  {
    var s := EscapeChar(c) + tail;
    if |EscapeChar(c)| == 2 {
      assert s[1..] == [EscapeChar(c)[1]] + tail;
      assert s[1..][1..] == tail;
    } else if |EscapeChar(c)| == 6 {
      ControlReadsBack(c, tail);
    } else {
      assert s[1..] == tail;
    }
  }

  lemma ControlReadsBack(c: char, tail: string)
    requires IsForbiddenControl(c) && EscapeChar(c) == "\\u00" + [HexChar(c as int / 16), HexChar(c as int % 16)]
    ensures BasicBody(EscapeChar(c) + tail) == Prepend([c], BasicBody(tail))
  {
    var s := EscapeChar(c) + tail;
    var digits := "00" + [HexChar(c as int / 16), HexChar(c as int % 16)];
    assert s[1..] == "u" + digits + tail;
    assert s[1..][1..5] == digits && s[1..][5..] == tail;
    FourDigits(digits);
    assert HexNumber(digits) == c as int;
    assert Utf8.Encode(c as int) == [c];
    hide HexNumber;
    assert Escape(s[1..]) == Done([c], tail);
  }

  lemma FourDigits(d: string)
    requires |d| == 4 && d[0] == '0' && d[1] == '0' && DigitValue(d[2], 16) >= 0 && DigitValue(d[3], 16) >= 0
    ensures HexNumber(d) == DigitValue(d[2], 16) * 16 + DigitValue(d[3], 16)
  {
    assert d[..3][..2][..1][..0] == "";
    assert d[..3][..2][..1] == "0" && d[..3][..2] == "00" && d[..3] == "00" + [d[2]];
    assert HexNumber("0") == 0;
    assert "00"[..1] == "0";
    assert HexNumber("00") == 0;
  }

  /** Any text, quoted and escaped, reads back as itself, up to the closing quote and no further. */
  lemma QuotedReadsBack(s: string, rest: string)
    ensures BasicString(Quoted(s) + rest) == Done(s, rest)
  {
    var q := Quoted(s) + rest;
    assert q[0] == '"' && q[1..] == EscapeAll(s) + "\"" + rest;
    BodyReadsBack(s, rest);
  }

  lemma {:induction false} BodyReadsBack(s: string, rest: string)
    ensures BasicBody(EscapeAll(s) + "\"" + rest) == Done(s, rest)
  {
    if s == "" {
      assert EscapeAll(s) + "\"" + rest == "\"" + rest;
      assert ("\"" + rest)[1..] == rest;
    } else {
      var tail := EscapeAll(s[1..]) + "\"" + rest;
      assert EscapeAll(s) + "\"" + rest == EscapeChar(s[0]) + tail;
      EscapeReadsBack(s[0], tail);
      BodyReadsBack(s[1..], rest);
      assert [s[0]] + s[1..] == s;
    }
  }

  lemma {:induction false} BareRunIs(key: string, rest: string)
    requires forall i :: 0 <= i < |key| ==> IsBareKeyChar(key[i])
    requires rest != "" ==> !IsBareKeyChar(rest[0])
    ensures BareRun(key + rest) == |key|
  {
    if key == "" {
      assert key + rest == rest;
    } else {
      assert (key + rest)[1..] == key[1..] + rest;
      BareRunIs(key[1..], rest);
    }
  }

  /** Any key, written bare or quoted, reads back as itself. */
  lemma KeyReadsBack(key: string, rest: string)
    requires rest != "" ==> !IsBareKeyChar(rest[0])
    ensures Key(EscapeKey(key) + rest) == Done(key, rest)
  {
    var s := EscapeKey(key) + rest;
    if IsBareKey(key) {
      assert s[0] == key[0];
      BareRunIs(key, rest);
      assert s[..|key|] == key && s[|key|..] == rest;
    } else {
      QuotedReadsBack(key, rest);
      assert s[0] == '"';
    }
  }

  // ---- escaping keeps validity ----

  lemma {:induction false} AsciiPrefix(a: string, b: string)
    requires forall i :: 0 <= i < |a| ==> IsAscii(a[i])
    ensures IsUtf8(a + b) == IsUtf8(b)
  {
    if a == "" {
      assert a + b == b;
    } else {
      assert a + b == [a[0]] + (a[1..] + b);
      AsciiHead(a[0], a[1..] + b);
      AsciiPrefix(a[1..], b);
    }
  }

  lemma EscapeIsAscii(c: char)
    requires IsAscii(c)
    ensures forall i :: 0 <= i < |EscapeChar(c)| ==> IsAscii(EscapeChar(c)[i])
  {
  }

  /** Where the first ASCII character is, or the length. */
  function AsciiAt(s: string): (p: nat)
    ensures p <= |s| && (p < |s| ==> IsAscii(s[p])) && forall i :: 0 <= i < p ==> !IsAscii(s[i])
  {
    if s == "" || IsAscii(s[0]) then 0 else 1 + AsciiAt(s[1..])
  }

  lemma {:induction false} EscapeConcat(a: string, b: string)
    ensures EscapeAll(a + b) == EscapeAll(a) + EscapeAll(b)
  {
    if a == "" {
      assert a + b == b;
    } else {
      assert (a + b)[0] == a[0] && (a + b)[1..] == a[1..] + b;
      EscapeConcat(a[1..], b);
    }
  }

  lemma {:induction false} OthersStay(a: string)
    requires forall i :: 0 <= i < |a| ==> !IsAscii(a[i])
    ensures EscapeAll(a) == a
  {
    if a != "" {
      OthersStay(a[1..]);
      assert EscapeChar(a[0]) == [a[0]];
    }
  }

  /** The escaped text is valid UTF-8 exactly when the text is. */
  lemma {:induction false} EscapeKeepsUtf8(s: string)
    ensures IsUtf8(EscapeAll(s)) <==> IsUtf8(s)
    decreases |s|
  {
    hide IsUtf8, EscapeAll, AsciiAt;
    var p := AsciiAt(s);
    var a := s[..p];
    OthersStay(a);
    if p == |s| {
      assert a == s;
    } else {
      var c, b := s[p], s[p + 1..];
      assert s == a + [c] + b && s[p..] == [c] + b;
      CutAtAscii(a, c, b);
      EscapeKeepsUtf8(b);
      EscapeConcat(a, [c] + b);
      assert s == a + ([c] + b);
      EscapedCut(a, c, b);
    }
  }

  lemma {:induction false} EscapedCut(a: string, c: char, b: string)
    requires IsAscii(c)
    ensures IsUtf8(a + EscapeAll([c] + b)) <==> IsUtf8(a) && IsUtf8(EscapeAll(b))
  {
    hide IsUtf8, EscapeChar, IsAscii;
    var e := EscapeChar(c);
    EscapeIsAscii(c);
    assert ([c] + b)[1..] == b;
    assert EscapeAll([c] + b) == [e[0]] + (e[1..] + EscapeAll(b));
    assert a + EscapeAll([c] + b) == a + [e[0]] + (e[1..] + EscapeAll(b));
    CutAtAscii(a, e[0], e[1..] + EscapeAll(b));
    AsciiPrefix(e[1..], EscapeAll(b));
  }
}
