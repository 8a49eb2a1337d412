/** The parser of src/format/toml.cpp as it moves over its input. Each method reads what the function of
    the same syntax says, and stops where it says. */
module TomlParser {
  import opened Wrappers
  import opened Utf8
  import opened TomlText
  import opened TomlTree
  import opened TomlValues
  import opened TomlDocument
  import opened TomlIntegers
  import Decimal
  import NumberText
  import opened Timestamps
  import opened SortedMaps

  lemma PrependTwice(a: string, b: string, r: Parsed<string>)
    ensures Prepend(a, Prepend(b, r)) == Prepend(a + b, r)
  {
    if r.Done? {
      assert a + (b + r.value) == a + b + r.value;
    }
  }

  lemma PrependNothing(r: Parsed<string>)
    ensures Prepend("", r) == r
  {
    if r.Done? {
      assert "" + r.value == r.value;
    }
  }

  lemma {:induction false} ClosingQuotes(s: string, quote: char, extra: nat)
    requires quote != '\0' && Peek(s, 0) == quote && Peek(s, 1) == quote && Peek(s, 2) == quote
    requires extra == if Peek(s, 3) != quote then 0 else if Peek(s, 4) != quote then 1 else 2
    ensures |s| >= 3 + extra && MultiLineBody(s, quote) == Done(Quotes(quote, extra), s[3 + extra..])
  {
  }

  lemma NothingLeft(quote: char)
    ensures MultiLineBody("", quote) == Failed
  {
  }

  /** Elements read before others. */
  function ElementsAfter(vs: seq<Value>, r: Parsed<seq<Value>>): Parsed<seq<Value>> {
    match r
    case Done(more, rest) => Done(vs + more, rest)
    case Failed => Failed
  }

  lemma AfterTwice(a: seq<Value>, v: Value, r: Parsed<seq<Value>>)
    ensures ElementsAfter(a, ElementsAfter([v], r)) == ElementsAfter(a + [v], r)
  {
    if r.Done? {
      assert a + ([v] + r.value) == a + [v] + r.value;
    }
  }

  function KeysAfter(keys: seq<string>, r: Parsed<seq<string>>): Parsed<seq<string>> {
    match r
    case Done(more, rest) => Done(keys + more, rest)
    case Failed => Failed
  }

  class Parser {
    const input: string
    var pos: nat

    constructor (input: string)
      ensures this.input == input && pos == 0 && Valid() && Left() == input
    {
      this.input := input;
      pos := 0;
    }

    predicate Valid()
      reads this
    {
      pos <= |input|
    }

    /** What is left to read. */
    function Left(): (s: string)
      reads this
      requires Valid()
    {
      input[pos..]
    }

    /** What a method returns and where it stops, as a function of what was left says. */
    ghost predicate Gives<T(!new)>(expected: Parsed<T>, r: Option<T>)
      reads this
    {
      Valid() && match expected
                 case Done(value, rest) => r == Some(value) && Left() == rest
                 case Failed => r == None
    }

    /** peek_char() */
    function Char(k: nat): (c: char)
      reads this
      requires Valid()
      ensures c == Peek(Left(), k)
    {
      if pos + k < |input| then input[pos + k] else '\0'
    }

    /** advance() */
    method Advance()
      requires Valid()
      modifies this`pos
      ensures Valid() && (old(pos) < |input| ==> pos == old(pos) + 1 && Left() == old(Left())[1..])
      ensures old(pos) == |input| ==> pos == old(pos)
    {
      if pos < |input| {
        pos := pos + 1;
      }
    }

    // ---- space ----

    /** skip_whitespace() */
    method Space()
      requires Valid()
      modifies this`pos
      ensures Valid() && pos >= old(pos) && Left() == SkipSpace(old(Left()))
    {
      while Char(0) == ' ' || Char(0) == '\t' || (Char(0) == '\r' && Char(1) == '\n')
        invariant Valid() && pos >= old(pos) && SkipSpace(Left()) == SkipSpace(old(Left()))
        decreases |input| - pos
      {
        Advance();
      }
    }

    /** skip_whitespace_and_comments() */
    method Blank()
      requires Valid()
      modifies this`pos
      ensures Valid() && pos >= old(pos) && Left() == SkipBlank(old(Left()))
    {
      while pos < |input|
        invariant Valid() && pos >= old(pos) && SkipBlank(Left()) == SkipBlank(old(Left()))
        decreases |input| - pos
      {
        ghost var start := Left();
        Space();
        ghost var spaced := Left();
        if Char(0) == '#' {
          Comment();
        }
        if Char(0) == '\n' {
          Advance();
        } else {
          assert SkipBlank(start) == Left();
          return;
        }
      }
    }

    method Comment()
      requires Valid()
      modifies this`pos
      ensures Valid() && pos >= old(pos) && Left() == SkipComment(old(Left()))
    {
      while pos < |input| && Char(0) != '\n'
        invariant Valid() && pos >= old(pos) && SkipComment(Left()) == SkipComment(old(Left()))
        decreases |input| - pos
      {
        if IsForbiddenControl(Char(0)) && !(Char(0) == '\r' && Char(1) == '\n') {
          return;
        }
        Advance();
      }
    }

    // ---- strings ----

    /** append_escape(): left at the last character of the escape. */
    method AppendEscape() returns (r: Option<string>)
      requires Valid() && pos < |input|
      modifies this`pos
      ensures Valid() && pos >= old(pos)
      ensures match Escape(old(Left()))
              case Done(piece, rest) => r == Some(piece) && pos < |input| && Left()[1..] == rest
              case Failed => r == None
    {
      hide UnicodeEscape;
      var c := Char(0);
      if c == '"' { return Some("\""); }
      if c == '\\' { return Some("\\"); }
      if c == 'n' { return Some("\n"); }
      if c == 't' { return Some("\t"); }
      if c == 'r' { return Some("\r"); }
      if c == 'b' { return Some([8 as char]); }
      if c == 'f' { return Some([12 as char]); }
      if c == 'u' || c == 'U' {
        r := UnicodeDigits(if c == 'u' then 4 else 8);
        return;
      }
      r := None;
    }

    /** The digits of a Unicode escape, left at the last of them. */
    method UnicodeDigits(digits: nat) returns (r: Option<string>)
      requires Valid() && pos < |input| && (digits == 4 || digits == 8)
      modifies this`pos
      ensures Valid() && pos >= old(pos)
      ensures match UnicodeEscape(old(Left()), digits)
              case Done(piece, rest) => r == Some(piece) && pos < |input| && Left()[1..] == rest
              case Failed => r == None
    {
      hide Utf8.Encode, HexNumber;
      ghost var s := Left();
      for k := 1 to digits + 1
        invariant pos == old(pos) && |s| >= k && forall i :: 1 <= i < k ==> DigitValue(s[i], 16) >= 0
      {
        if DigitValue(Char(k), 16) < 0 {
          if |s| >= 1 + digits {
            NoHexNumber(s[1..1 + digits], k - 1);
          }
          return None;
        }
      }
      assert s[1..1 + digits] == input[pos + 1..pos + 1 + digits];
      HexNumberIs(s[1..1 + digits]);
      var n := HexNumber(input[pos + 1..pos + 1 + digits]);
      if !IsScalar(n) {
        return None;
      }
      pos := pos + digits;
      assert Left()[1..] == s[1 + digits..];
      r := Some(Utf8.Encode(n));
    }

    /** parse_basic_string() */
    method BasicText() returns (r: Option<string>)
      requires Valid()
      modifies this`pos
      ensures Gives(BasicString(old(Left())), r) && pos >= old(pos)
    {
      if Char(0) != '"' {
        return None;
      }
      Advance();
      ghost var start := Left();
      var result := "";
      PrependNothing(BasicBody(start));
      while pos < |input| && Char(0) != '"'
        invariant Valid() && pos >= old(pos) && BasicBody(start) == Prepend(result, BasicBody(Left()))
        decreases |input| - pos
      {
        ghost var s := Left();
        if Char(0) == '\\' {
          Advance();
          if pos >= |input| {
            return None;
          }
          var escaped := AppendEscape();
          if escaped.None? {
            return None;
          }
          Advance();
          PrependTwice(result, escaped.value, BasicBody(Left()));
          result := result + escaped.value;
        } else if IsForbiddenControl(Char(0)) {
          return None;
        } else {
          var c := Char(0);
          Advance();
          PrependTwice(result, [c], BasicBody(Left()));
          result := result + [c];
        }
      }
      if Char(0) != '"' {
        return None;
      }
      assert result + "" == result;
      Advance();
      r := Some(result);
    }

    /** parse_literal_string(), at its opening quote. */
    method LiteralText() returns (r: Option<string>)
      requires Valid() && pos < |input|
      modifies this`pos
      ensures Gives(LiteralBody(old(Left())[1..]), r) && pos >= old(pos)
    {
      Advance();
      ghost var start := Left();
      var result := "";
      PrependNothing(LiteralBody(start));
      while pos < |input| && Char(0) != '\''
        invariant Valid() && pos >= old(pos) && LiteralBody(start) == Prepend(result, LiteralBody(Left()))
        decreases |input| - pos
      {
        if IsForbiddenControl(Char(0)) {
          return None;
        }
        var c := Char(0);
        Advance();
        PrependTwice(result, [c], LiteralBody(Left()));
        result := result + [c];
      }
      if Char(0) != '\'' {
        return None;
      }
      assert result + "" == result;
      Advance();
      r := Some(result);
    }

    /** parse_key() */
    method KeyText() returns (r: Option<string>)
      requires Valid()
      modifies this`pos
      ensures Gives(Key(old(Left())), r) && pos >= old(pos)
    {
      if Char(0) == '"' {
        r := BasicText();
      } else if Char(0) == '\'' {
        r := LiteralText();
      } else if IsBareKeyChar(Char(0)) {
        ghost var start := Left();
        var result := "";
        while pos < |input| && IsBareKeyChar(Char(0))
          invariant Valid() && pos >= old(pos) && |result| <= |start|
          invariant result == start[..|result|] && Left() == start[|result|..]
          invariant BareRun(start) == |result| + BareRun(Left())
          decreases |input| - pos
        {
          result := result + [Char(0)];
          Advance();
        }
        r := Some(result);
      } else {
        r := None;
      }
    }

    /** Whether a line ends at some offset. */
    function LineEndAt(k: nat): (b: bool)
      reads this
      requires Valid()
      ensures b == AtLineEnd(Left(), k)
    {
      Char(k) == '\n' || (Char(k) == '\r' && Char(k + 1) == '\n')
    }

    method PassLineEnd()
      requires Valid() && AtLineEnd(Left(), 0)
      modifies this`pos
      ensures Valid() && pos > old(pos) && Left() == SkipLineEnd(old(Left()))
    {
      if Char(0) == '\r' {
        Advance();
      }
      Advance();
    }

    /** The line end after a backslash, and the blank lines and indentation after that. */
    method PassLines()
      requires Valid()
      modifies this`pos
      ensures Valid() && pos >= old(pos) && Left() == SkipLines(old(Left()))
    {
      while Char(0) == ' ' || Char(0) == '\t' || LineEndAt(0)
        invariant Valid() && pos >= old(pos) && SkipLines(Left()) == SkipLines(old(Left()))
        decreases |input| - pos
      {
        if LineEndAt(0) {
          PassLineEnd();
        } else {
          Advance();
        }
      }
    }

    /** parse_multi_line_string(), at its opening quotes. */
    method MultiLineText(quote: char) returns (r: Option<string>)
      requires Valid() && pos + 3 <= |input| && (quote == '"' || quote == '\'')
      modifies this`pos
      ensures Gives(MultiLine(old(Left())[3..], quote), r) && pos >= old(pos)
    {
      hide MultiLineBody, AfterSpaces, SkipLines, Escape;
      Advance();
      Advance();
      Advance();
      assert Left() == old(Left())[3..];
      if LineEndAt(0) {
        PassLineEnd();
      }
      ghost var start := Left();
      var result := "";
      PrependNothing(MultiLineBody(start, quote));
      while pos < |input|
        invariant Valid() && pos >= old(pos)
        invariant MultiLineBody(start, quote) == Prepend(result, MultiLineBody(Left(), quote))
        decreases |input| - pos
      {
        var c := Char(0);
        if c == quote && Char(1) == quote && Char(2) == quote {
          var last := Close(quote);
          return Some(result + last);
        }
        var piece := MultiLinePiece(quote);
        if piece.None? {
          return None;
        }
        PrependTwice(result, piece.value, MultiLineBody(Left(), quote));
        result := result + piece.value;
      }
      NothingLeft(quote);
      r := None;
    }

    /** The closing quotes of a string over several lines, and up to two quotes before them. */
    method Close(quote: char) returns (text: string)
      requires Valid() && quote != '\0' && Char(0) == quote && Char(1) == quote && Char(2) == quote
      modifies this`pos
      ensures Valid() && pos >= old(pos) && MultiLineBody(old(Left()), quote) == Done(text, Left())
    {
      var extra := 0;
      if Char(3) == quote {
        extra := if Char(4) == quote then 2 else 1;
      }
      ghost var s := Left();
      ClosingQuotes(s, quote, extra);
      hide MultiLineBody;
      pos := pos + 3 + extra;
      assert Left() == s[3 + extra..];
      text := Quotes(quote, extra);
    }

    /** One character, escape or line end of a string over several lines; nothing for a line that goes on. */
    method MultiLinePiece(quote: char) returns (piece: Option<string>)
      requires Valid() && pos < |input| && (quote == '"' || quote == '\'')
      requires !(Char(0) == quote && Char(1) == quote && Char(2) == quote)
      modifies this`pos
      ensures Valid() && pos >= old(pos)
      ensures match piece
              case Some(text) =>
                pos > old(pos) && MultiLineBody(old(Left()), quote) == Prepend(text, MultiLineBody(Left(), quote))
              case None => MultiLineBody(old(Left()), quote) == Failed
    {
      ghost var s := Left();
      var c := Char(0);
      if quote == '"' && c == '\\' {
        var k := 1;
        while Char(k) == ' ' || Char(k) == '\t'
          invariant Valid() && pos == old(pos) && AfterSpaces(s, 1) == AfterSpaces(s, k) && k >= 1
          decreases |input| - pos - k
        {
          k := k + 1;
        }
        if LineEndAt(k) || pos + k >= |input| {
          Advance();
          PassLines();
          PrependNothing(MultiLineBody(Left(), quote));
          return Some("");
        }
        Advance();
        if pos >= |input| {
          return None;
        }
        var escaped := AppendEscape();
        if escaped.None? {
          return None;
        }
        Advance();
        return escaped;
      }
      if LineEndAt(0) {
        PassLineEnd();
        return Some(if c == '\r' then "\r\n" else "\n");
      }
      if IsForbiddenControl(c) {
        return None;
      }
      Advance();
      piece := Some([c]);
    }

    // ---- numbers ----

    /** read_digits() */
    method Digits(base: int) returns (r: Option<string>)
      requires Valid()
      modifies this`pos
      ensures Gives(ReadDigits(old(Left()), base, 0), r) && pos >= old(pos)
    {
      ghost var start := Left();
      var text := "";
      var count: nat := 0;
      PrependNothing(ReadDigits(start, base, 0));
      while true
        invariant Valid() && pos >= old(pos)
        invariant ReadDigits(start, base, 0) == Prepend(text, ReadDigits(Left(), base, count))
        decreases |input| - pos
      {
        ghost var s := Left();
        if Char(0) == '_' {
          if count == 0 || DigitValue(Char(1), base) < 0 {
            return None;
          }
          Advance();
        }
        if DigitValue(Char(0), base) < 0 {
          assert text + "" == text;
          return Some(text);
        }
        var c := Char(0);
        Advance();
        PrependTwice(text, [c], ReadDigits(Left(), base, count + 1));
        text := text + [c];
        count := count + 1;
      }
    }

    /** parse_boolean() */
    method TruthValue() returns (r: Option<Value>)
      requires Valid()
      modifies this`pos
      ensures Gives(ReadTruth(old(Left())), r) && pos >= old(pos)
    {
      ghost var s := Left();
      if pos + 4 <= |input| && input[pos..pos + 4] == "true" {
        assert s[..4] == input[pos..pos + 4];
        pos := pos + 4;
        return Some(Truth(true));
      }
      assert |s| >= 4 ==> s[..4] == input[pos..pos + 4];
      if pos + 5 <= |input| && input[pos..pos + 5] == "false" {
        assert s[..5] == input[pos..pos + 5];
        pos := pos + 5;
        return Some(Truth(false));
      }
      assert |s| >= 5 ==> s[..5] == input[pos..pos + 5];
      r := None;
    }

    /** The part of parse_number() after the sign. */
    method UnsignedNumber(sign: string) returns (r: Option<Value>)
      requires Valid()
      modifies this`pos
      ensures Gives(ReadUnsigned(sign, old(Left())), r) && pos >= old(pos)
    {
      var leadingZero := Char(0) == '0';
      var digits := Digits(10);
      if digits.None? || digits.value == "" || (leadingZero && |digits.value| > 1) {
        return None;
      }
      var text := sign + digits.value;
      if Char(0) == '.' {
        Advance();
        var fraction := Digits(10);
        if fraction.None? || fraction.value == "" {
          return None;
        }
        text := text + "." + fraction.value;
      }
      r := Exponent(text);
    }

    method Exponent(text: string) returns (r: Option<Value>)
      requires Valid()
      modifies this`pos
      ensures Gives(ReadExponent(text, old(Left())), r) && pos >= old(pos)
    {
      hide ReadDigits, NumberText.CanonicalText, HasFloatMark;
      var number := text;
      if Char(0) == 'e' || Char(0) == 'E' {
        ghost var s := Left();
        number := number + [Char(0)];
        Advance();
        var sign := "";
        if Char(0) == '+' || Char(0) == '-' {
          sign := [Char(0)];
          Advance();
        }
        assert Left() == s[1 + |sign|..];
        var digits := Digits(10);
        if digits.None? || digits.value == "" {
          return None;
        }
        number := number + sign + digits.value;
        assert number == text + [s[0]] + sign + digits.value;
      }
      var canonical := NumberText.MakeCanonical(number);
      if canonical == NumberText.NOT_A_NUMBER {
        return None;
      }
      r := Some(Numeric(canonical, HasFloatMark(number)));
    }

    /** parse_number() */
    method NumberValue() returns (r: Option<Value>)
      requires Valid()
      modifies this`pos
      ensures Gives(ReadNumber(old(Left())), r) && pos >= old(pos)
    {
      if PrefixHere() {
        r := PrefixedInteger();
        return;
      }
      var sign := "";
      if Char(0) == '+' || Char(0) == '-' {
        sign := [Char(0)];
        Advance();
        if PrefixHere() {
          return None;
        }
      }
      r := UnsignedNumber(sign);
    }

    function PrefixHere(): (b: bool)
      reads this
      requires Valid()
      ensures b == AtPrefix(Left())
    {
      Char(0) == '0' && (Char(1) == 'x' || Char(1) == 'o' || Char(1) == 'b')
    }

    /** parse_prefixed_integer() */
    method PrefixedInteger() returns (r: Option<Value>)
      requires Valid() && AtPrefix(Left())
      modifies this`pos
      ensures Gives(ReadPrefixed(old(Left())), r) && pos >= old(pos)
    {
      var base, bits := 2, 1;
      if Char(1) == 'x' {
        base, bits := 16, 4;
      } else if Char(1) == 'o' {
        base, bits := 8, 3;
      }
      ghost var s := Left();
      Advance();
      Advance();
      assert Left() == s[2..];
      var digits := Digits(base);
      if digits.None? || digits.value == "" {
        return None;
      }
      ReadAreDigits(s[2..], base, 0);
      var number := ChunkedValue(digits.value, base, bits);
      r := Some(Numeric(number, false));
    }

    // ---- dates and times ----

    /** Takes digits onto the text of a date, if so many are ahead. */
    method TakeDigits(text: string, n: nat, ghost s: string) returns (ok: bool, more: string)
      requires Valid() && |text| <= |s| && Left() == s[|text|..]
      modifies this`pos
      ensures Valid() && pos >= old(pos) && ok == DigitsAt(s, |text|, n)
      ensures ok ==> more == text + s[|text|..|text| + n] && Left() == s[|text| + n..]
      ensures !ok ==> pos == old(pos)
    {
      for k := 0 to n
        invariant pos == old(pos) && |s| >= |text| + k && Decimal.AllDigits(s[|text|..|text| + k])
      {
        if !Decimal.IsDigit(Char(k)) {
          assert |s| >= |text| + n ==> s[|text|..|text| + n][k] == s[|text| + k];
          return false, text;
        }
        assert s[|text|..|text| + k + 1] == s[|text|..|text| + k] + [s[|text| + k]];
      }
      assert s[|text|..|text| + n] == input[pos..pos + n];
      more := text + input[pos..pos + n];
      pos := pos + n;
      assert Left() == s[|text| + n..];
      ok := true;
    }

    /** Takes a character onto the text of a date, if it is the next. */
    method TakeChar(text: string, c: char, ghost s: string) returns (ok: bool, more: string)
      requires Valid() && |text| <= |s| && Left() == s[|text|..] && c != '\0'
      modifies this`pos
      ensures Valid() && pos >= old(pos) && ok == CharAt(s, |text|, c)
      ensures ok ==> more == text + [c] && Left() == s[|text| + 1..]
      ensures !ok ==> pos == old(pos)
    {
      if Char(0) != c {
        return false, text;
      }
      Advance();
      assert Left() == s[|text| + 1..];
      return true, text + [c];
    }

    /** The date, with its separators. */
    method TakeDate(ghost s: string) returns (ok: bool, text: string)
      requires Valid() && Left() == s
      modifies this`pos
      ensures Valid() && pos >= old(pos)
      ensures ok == (DigitsAt(s, 0, 4) && CharAt(s, 4, '-') && DigitsAt(s, 5, 2) && CharAt(s, 7, '-') && DigitsAt(s, 8, 2))
      ensures ok ==> text == s[..10] && Left() == s[10..]
    {
      assert s[0..] == s;
      ok, text := TakeDigits("", 4, s);
      if ok { ok, text := TakeChar(text, '-', s); }
      if ok { ok, text := TakeDigits(text, 2, s); }
      if ok { ok, text := TakeChar(text, '-', s); }
      if ok { ok, text := TakeDigits(text, 2, s); }
    }

    /** The time, with its separators, after the text of a date. */
    method TakeTime(date: string, ghost s: string) returns (ok: bool, text: string)
      requires Valid() && |date| == 11 && |s| >= 11 && Left() == s[11..]
      modifies this`pos
      ensures Valid() && pos >= old(pos)
      ensures ok == (DigitsAt(s, 11, 2) && CharAt(s, 13, ':') && DigitsAt(s, 14, 2) && CharAt(s, 16, ':') && DigitsAt(s, 17, 2))
      ensures ok ==> text == date + s[11..19] && Left() == s[19..]
    {
      ok, text := TakeDigits(date, 2, s);
      if ok { ok, text := TakeChar(text, ':', s); }
      if ok { ok, text := TakeDigits(text, 2, s); }
      if ok { ok, text := TakeChar(text, ':', s); }
      if ok { ok, text := TakeDigits(text, 2, s); }
    }

    /** parse_datetime() */
    method MomentValue() returns (r: Option<Value>)
      requires Valid()
      modifies this`pos
      ensures Gives(ReadMoment(old(Left())), r) && pos >= old(pos)
    {
      ghost var s := Left();
      hide DigitsAt, ReadZone, AtTime, DigitsAhead, CharAt, DigitRun;
      if TimeHere() {
        return None;
      }
      var ok, text := TakeDate(s);
      if !ok {
        return None;
      }
      AheadFrom(s, 10, 1, 2);
      if !(Char(0) == 'T' || Char(0) == 't' || (Char(0) == ' ' && DigitsHere(1, 2) && Char(3) == ':')) {
        return None;
      }
      Advance();
      assert Left() == s[11..];
      ok, text := TakeTime(text + "T", s);
      if !ok {
        return None;
      }
      ghost var tail := Left();
      assert tail == s[19..] && text == s[..10] + "T" + s[11..19];
      if Char(0) == '.' {
        var digits := Fraction();
        text := text + digits;
      } else {
        assert text + tail[..0] == text && tail[0..] == tail;
      }
      r := Zone(text);
    }

    /** A decimal point and the digits after it. */
    method Fraction() returns (text: string)
      requires Valid() && Peek(Left(), 0) == '.'
      modifies this`pos
      ensures Valid() && pos >= old(pos)
      ensures var n := 1 + DigitRun(old(Left())[1..]); text == old(Left())[..n] && Left() == old(Left())[n..]
    {
      hide DigitRun;
      ghost var s := Left();
      text := ".";
      Advance();
      while Decimal.IsDigit(Char(0))
        invariant Valid() && pos >= old(pos) && 1 <= |text| <= |s| && text == s[..|text|] && Left() == s[|text|..]
        invariant DigitRun(s[1..]) == |text| - 1 + DigitRun(Left())
        decreases |input| - pos
      {
        RunStep(Left());
        text := text + [Char(0)];
        Advance();
      }
      RunStep(Left());
    }

    method Zone(text: string) returns (r: Option<Value>)
      requires Valid()
      modifies this`pos
      ensures Gives(ReadZone(text, old(Left())), r) && pos >= old(pos)
    {
      ghost var s := Left();
      if Char(0) == 'Z' || Char(0) == 'z' {
        Advance();
        return StampOf(text + "Z");
      }
      if Char(0) != '+' && Char(0) != '-' {
        return None;
      }
      var sign := Char(0);
      Advance();
      var ok, zone := TakeDigits([sign], 2, s);
      if ok { ok, zone := TakeChar(zone, ':', s); }
      if ok { ok, zone := TakeDigits(zone, 2, s); }
      if !ok {
        return None;
      }
      assert zone == s[..6];
      r := StampOf(text + zone);
    }

    function DigitsHere(k: nat, n: nat): (b: bool)
      reads this
      requires Valid()
      ensures b == DigitsAhead(Left(), k, n)
    {
      assert forall i :: k <= i < k + n ==> Char(i) == Peek(Left(), i);
      forall i :: k <= i < k + n ==> Decimal.IsDigit(Char(i))
    }

    function DateHere(): (b: bool)
      reads this
      requires Valid()
      ensures b == AtDate(Left())
    {
      DigitsHere(0, 4) && Char(4) == '-'
    }

    function TimeHere(): (b: bool)
      reads this
      requires Valid()
      ensures b == AtTime(Left())
    {
      DigitsHere(0, 2) && Char(2) == ':'
    }

    function WordHere(start: nat, word: string): (b: bool)
      reads this
      requires Valid()
      ensures b == AtWord(Left(), start, word)
    {
      assert pos + start + |word| <= |input| ==>
          Left()[start..start + |word|] == input[pos + start..pos + start + |word|];
      pos + start + |word| <= |input| && input[pos + start..pos + start + |word|] == word
      && !IsBareKeyChar(Char(start + |word|))
    }

    /** at_inf_or_nan() */
    function InfOrNanHere(): (b: bool)
      reads this
      requires Valid()
      ensures b == AtInfOrNan(Left())
    {
      var start := if Char(0) == '+' || Char(0) == '-' then 1 else 0;
      WordHere(start, "inf") || WordHere(start, "nan")
    }

    // ---- values ----

    /** parse_value() */
    method AnyValue() returns (r: Option<Value>)
      requires Valid()
      modifies this`pos
      ensures Gives(ReadValue(old(Left())), r) && pos >= old(pos)
      decreases |input| - pos, 2
    {
      Space();
      var c := Char(0);
      if InfOrNanHere() {
        return None;
      }
      if (c == '"' || c == '\'') && Char(1) == c && Char(2) == c {
        var text := MultiLineText(c);
        r := TextOf(text);
      } else if c == '"' {
        var text := BasicText();
        r := TextOf(text);
      } else if c == '\'' {
        var text := LiteralText();
        r := TextOf(text);
      } else if c == '[' {
        r := ListValue();
      } else if c == '{' {
        r := InlineValue();
      } else if c == 't' || c == 'f' {
        r := TruthValue();
      } else if DateHere() || TimeHere() {
        r := MomentValue();
      } else if Decimal.IsDigit(c) || c == '-' || c == '+' {
        r := NumberValue();
      } else {
        r := None;
      }
    }

    /** parse_array() */
    method ListValue() returns (r: Option<Value>)
      requires Valid() && pos < |input|
      modifies this`pos
      ensures Gives(ReadList(old(Left())), r) && pos >= old(pos)
      decreases |input| - pos, 1
    {
      hide ReadValue, SkipBlank;
      Advance();
      var vs := [];
      Blank();
      if Char(0) == ']' {
        Advance();
        return Some(List(vs));
      }
      ghost var start := Left();
      AfterNothing(ReadElements(start));
      while true
        invariant Valid() && pos > old(pos) && ReadElements(start) == ElementsAfter(vs, ReadElements(Left()))
        decreases |input| - pos
      {
        var v := AnyValue();
        if v.None? {
          return None;
        }
        Blank();
        if Char(0) == ',' {
          Advance();
          Blank();
          if Char(0) == ']' {
            Advance();
            vs := vs + [v.value];
            break;
          }
          AfterTwice(vs, v.value, ReadElements(Left()));
          vs := vs + [v.value];
        } else if Char(0) == ']' {
          Advance();
          vs := vs + [v.value];
          break;
        } else {
          return None;
        }
      }
      r := Some(List(vs));
    }

    // ---- pairs and headers ----

    /** The keys of a pair or a header, with the points between them. */
    method KeyPath() returns (r: Option<seq<string>>)
      requires Valid()
      modifies this`pos
      ensures Gives(ReadKeys(old(Left())), r) && pos >= old(pos)
    {
      ghost var start := Left();
      var keys := [];
      KeysNothing(ReadKeys(start));
      while true
        invariant Valid() && pos >= old(pos) && ReadKeys(start) == KeysAfter(keys, ReadKeys(Left()))
        decreases |input| - pos
      {
        var key := KeyText();
        if key.None? {
          return None;
        }
        Space();
        if Char(0) != '.' {
          return Some(keys + [key.value]);
        }
        Advance();
        Space();
        KeysTwice(keys, key.value, ReadKeys(Left()));
        keys := keys + [key.value];
      }
    }

    /** parse_key_value() */
    method PairValue() returns (r: Option<KeyValue>)
      requires Valid()
      modifies this`pos
      ensures Gives(ReadPair(old(Left())), r) && pos >= old(pos)
      decreases |input| - pos, 3
    {
      var keys := KeyPath();
      if keys.None? || Char(0) != '=' {
        return None;
      }
      Advance();
      Space();
      var v := AnyValue();
      if v.None? {
        return None;
      }
      r := Some(KeyValue(keys.value, v.value));
    }

    /** parse_inline_table() */
    method InlineValue() returns (r: Option<Value>)
      requires Valid() && pos < |input|
      modifies this`pos
      ensures Gives(ReadInline(old(Left())), r) && pos >= old(pos)
      decreases |input| - pos, 1
    {
      Advance();
      Space();
      if Char(0) == '}' {
        Advance();
        return Some(Dict([]));
      }
      var n := FRESH;
      ghost var start := Left();
      while true
        invariant Valid() && pos > old(pos) && ReadPairs(start, FRESH) == ReadPairs(Left(), n)
        decreases |input| - pos
      {
        var pair := PairValue();
        if pair.None? {
          return None;
        }
        var added := AddPair(n, pair.value.keys, pair.value.value);
        if added.None? {
          return None;
        }
        Space();
        if Char(0) == '\n' || Char(0) == '#' {
          return None;
        }
        if Char(0) == ',' {
          Advance();
          Space();
          n := added.value;
        } else if Char(0) == '}' {
          Advance();
          return Some(Dict(Merge(added.value)));
        } else {
          return None;
        }
      }
    }

    /** parse_table_header() */
    method HeaderLine() returns (r: Option<Event>)
      requires Valid() && Peek(Left(), 0) == '['
      modifies this`pos
      ensures Gives(ReadHeader(old(Left())), r) && pos >= old(pos)
    {
      ghost var s := Left();
      Advance();
      var isArray := Char(0) == '[';
      if isArray {
        Advance();
      }
      assert Left() == if isArray then s[2..] else s[1..];
      Space();
      var keys := KeyPath();
      if keys.None? || Char(0) != ']' {
        return None;
      }
      ghost var t := Left();
      Advance();
      if isArray {
        if Char(0) != ']' {
          return None;
        }
        Advance();
        assert Left() == t[2..];
      }
      r := Some(Header(keys.value, isArray));
    }

    /** A header or a pair, up to the end of its line. */
    method Item() returns (r: Option<Event>)
      requires Valid()
      modifies this`pos
      ensures Gives(ReadItem(old(Left())), r) && pos >= old(pos)
    {
      var e;
      if Char(0) == '[' {
        e := HeaderLine();
      } else {
        var pair := PairValue();
        e := LineOf(pair);
      }
      if e.None? {
        return None;
      }
      Space();
      if pos < |input| && Char(0) != '\n' && Char(0) != '#' {
        return None;
      }
      r := e;
    }

    /** parse_document() */
    method WholeDocument() returns (r: Option<State>)
      requires Valid()
      modifies this`pos
      ensures Valid() && IsState(State(FRESH, [])) && r == Document(old(Left()), State(FRESH, []))
    {
      FreshState();
      var st := State(FRESH, []);
      ghost var start := Left();
      while pos < |input|
        invariant Valid() && IsState(st) && Document(start, State(FRESH, [])) == Document(Left(), st)
        decreases |input| - pos
      {
        Blank();
        if pos >= |input| {
          break;
        }
        var e := Item();
        if e.None? {
          return None;
        }
        var next := Apply(st, e.value);
        if next.None? {
          return None;
        }
        ApplyKeeps(st, e.value);
        st := next.value;
      }
      r := Some(st);
    }
  }

  /** deserialize() */
  method ReadDocument(text: string) returns (r: Option<seq<Pair<Value>>>)
    ensures r == Deserialize(text)
  {
    if text == "" {
      return Some([]);
    }
    var valid := IsValidUtf8(text);
    if !valid {
      return None;
    }
    var parser := new Parser(text);
    var st := parser.WholeDocument();
    r := if st.Some? then Some(Merge(st.value.root)) else None;
  }

  /** A character that is no hexadecimal digit makes the whole no number. */
  lemma {:induction false} NoHexNumber(d: string, k: nat)
    requires k < |d| && DigitValue(d[k], 16) < 0
    ensures HexNumber(d) < 0
    decreases |d|
  {
    if k < |d| - 1 {
      NoHexNumber(d[..|d| - 1], k);
    }
  }

  lemma {:induction false} HexNumberIs(d: string)
    requires forall i :: 0 <= i < |d| ==> DigitValue(d[i], 16) >= 0
    ensures HexNumber(d) >= 0
    decreases |d|
  {
    if d != "" {
      HexNumberIs(d[..|d| - 1]);
    }
  }

  /** Whether a number was written as a float. */
  function HasFloatMark(text: string): (b: bool)
    ensures b == WrittenAsFloat(text)
  {
    text != "" && (text[0] == '.' || text[0] == 'e' || text[0] == 'E' || HasFloatMark(text[1..]))
  }

  function TextOf(text: Option<string>): Option<Value> {
    if text.Some? then Some(Text(text.value)) else None
  }

  /** The timestamp of a text, if it is one. */
  function StampOf(text: string): Option<Value> {
    match FromString(text)
    case Some(stamp) => Some(Moment(stamp))
    case None => None
  }

  lemma {:induction false} RunStep(s: string)
    ensures DigitRun(s) == if s != "" && Decimal.IsDigit(s[0]) then 1 + DigitRun(s[1..]) else 0
  {
  }

  lemma AfterNothing(r: Parsed<seq<Value>>)
    ensures ElementsAfter([], r) == r
  {
    if r.Done? {
      assert [] + r.value == r.value;
    }
  }

  function LineOf(pair: Option<KeyValue>): Option<Event> {
    if pair.Some? then Some(Line(pair.value.keys, pair.value.value)) else None
  }

  lemma AheadFrom(s: string, from: nat, k: nat, n: nat)
    requires from <= |s|
    ensures DigitsAhead(s[from..], k, n) == DigitsAhead(s, from + k, n)
  {
    assert forall i: nat :: Peek(s[from..], i) == Peek(s, from + i);
    if DigitsAhead(s[from..], k, n) {
      forall i | from + k <= i < from + k + n ensures Decimal.IsDigit(Peek(s, i)) {
        assert Peek(s, i) == Peek(s[from..], i - from);
      }
    }
  }

  lemma KeysNothing(r: Parsed<seq<string>>)
    ensures KeysAfter([], r) == r
  {
    if r.Done? {
      assert [] + r.value == r.value;
    }
  }

  lemma KeysTwice(a: seq<string>, key: string, r: Parsed<seq<string>>)
    ensures KeysAfter(a, KeysAfter([key], r)) == KeysAfter(a + [key], r)
  {
    if r.Done? {
      assert a + ([key] + r.value) == a + [key] + r.value;
    }
  }
}
