/** When src/format/toml.cpp can write a dictionary: its output is valid UTF-8 exactly when every string
    and key in it is. */
module TomlValidText {
  import opened SortedMaps
  import opened Utf8
  import opened TomlText
  import opened TomlTree
  import opened TomlValues
  import opened TomlNumbers
  import opened TomlReadsBack
  import opened TomlDocument
  import opened TomlRoundTrip
  import opened Timestamps
  import D = Decimal

  /** Every string and key of a value is valid UTF-8. */
  predicate TextsValid(v: Value)
    decreases v, 1
  {
    match v
    case Text(text) => IsUtf8(text)
    case List(vs) => AllTextsValid(vs)
    case Dict(es) => EntriesTextsValid(es)
    case _ => true
  }

  predicate AllTextsValid(vs: seq<Value>)
    decreases vs, 0
  {
    vs == [] || (TextsValid(vs[0]) && AllTextsValid(vs[1..]))
  }

  predicate EntriesTextsValid(es: seq<Pair<Value>>)
    decreases es, 0
  {
    es == [] || (IsUtf8(es[0].key) && TextsValid(es[0].value) && EntriesTextsValid(es[1..]))
  }

  // ---- joining texts ----

  predicate IsAsciiText(s: string) {
    forall i :: 0 <= i < |s| ==> IsAscii(s[i])
  }

  lemma {:induction false} AsciiIsUtf8(s: string)
    requires IsAsciiText(s)
    ensures IsUtf8(s)
  {
    AsciiPrefix(s, "");
    assert s + "" == s;
  }

  /** Before a text that starts with ASCII, or after one that ends with it, each part counts for itself. */
  lemma {:induction false} JoinStart(a: string, b: string)
    requires b == "" || IsAscii(b[0])
    ensures IsUtf8(a + b) <==> IsUtf8(a) && IsUtf8(b)
  {
    hide IsUtf8;
    if b == "" {
      assert a + b == a;
      AsciiIsUtf8("");
    } else {
      assert a + b == a + [b[0]] + b[1..];
      CutAtAscii(a, b[0], b[1..]);
      AsciiHead(b[0], b[1..]);
      assert b == [b[0]] + b[1..];
    }
  }

  lemma {:induction false} JoinEnd(a: string, b: string)
    requires a == "" || IsAscii(a[|a| - 1])
    ensures IsUtf8(a + b) <==> IsUtf8(a) && IsUtf8(b)
  {
    hide IsUtf8;
    if a == "" {
      assert a + b == b;
      AsciiIsUtf8("");
    } else {
      var n := |a| - 1;
      assert a + b == a[..n] + [a[n]] + b && a == a[..n] + [a[n]] + "";
      CutAtAscii(a[..n], a[n], b);
      CutAtAscii(a[..n], a[n], "");
      AsciiIsUtf8("");
    }
  }

  lemma {:induction false} QuotedUtf8(s: string)
    ensures IsUtf8(Quoted(s)) <==> IsUtf8(s)
  {
    hide IsUtf8, EscapeAll;
    EscapeKeepsUtf8(s);
    assert Quoted(s) == "\"" + (EscapeAll(s) + "\"");
    JoinEnd("\"", EscapeAll(s) + "\"");
    JoinStart(EscapeAll(s), "\"");
    AsciiIsUtf8("\"");
  }

  lemma {:induction false} KeyUtf8(key: string)
    ensures IsUtf8(EscapeKey(key)) <==> IsUtf8(key)
  {
    hide IsUtf8, Quoted;
    if IsBareKey(key) {
      AsciiIsUtf8(key);
    } else {
      QuotedUtf8(key);
    }
  }

  // ---- values ----

  lemma NumberIsAscii(digits: string, floating: bool)
    requires D.IsCanonical(digits)
    ensures IsAsciiText(WriteNumber(digits, floating))
  {
    var q := WrittenParts(digits, floating);
    WrittenPartsAre(digits, floating);
    hide D.IsCanonical, WrittenParts, WriteNumber;
    PlainStarts(q);
  }

  lemma DigitsAreAscii(s: string)
    requires D.AllDigits(s)
    ensures IsAsciiText(s)
  {
  }

  lemma AsciiTogether(a: string, b: string)
    requires IsAsciiText(a) && IsAsciiText(b)
    ensures IsAsciiText(a + b)
  {
  }

  /** Six rows of digits with ASCII between and after them. */
  lemma FieldsAscii(y: string, mo: string, d: string, h: string, mi: string, s: string, f: string, z: string)
    requires D.AllDigits(y) && D.AllDigits(mo) && D.AllDigits(d) && D.AllDigits(h) && D.AllDigits(mi) && D.AllDigits(s)
    requires IsAsciiText(f) && IsAsciiText(z)
    ensures IsAsciiText(y + "-" + mo + "-" + d + "T" + h + ":" + mi + ":" + s + f + z)
  {
    DigitsAreAscii(y);
    DigitsAreAscii(mo);
    DigitsAreAscii(d);
    DigitsAreAscii(h);
    DigitsAreAscii(mi);
    DigitsAreAscii(s);
    assert IsAsciiText("-") && IsAsciiText("T") && IsAsciiText(":");
    hide IsAsciiText;
    AsciiTogether(y, "-");
    AsciiTogether(y + "-", mo);
    AsciiTogether(y + "-" + mo, "-");
    AsciiTogether(y + "-" + mo + "-", d);
    var date := y + "-" + mo + "-" + d;
    AsciiTogether(date, "T");
    AsciiTogether(date + "T", h);
    AsciiTogether(date + "T" + h, ":");
    AsciiTogether(date + "T" + h + ":", mi);
    AsciiTogether(date + "T" + h + ":" + mi, ":");
    AsciiTogether(date + "T" + h + ":" + mi + ":", s);
    var time := date + "T" + h + ":" + mi + ":" + s;
    AsciiTogether(time, f);
    AsciiTogether(time + f, z);
  }

  lemma MomentIsAscii(t: Stamp)
    requires IsStamp(t)
    ensures IsAsciiText(FormatIso(t))
  {
    Fields(t.nanoseconds);
    ZoneIsAscii(t.offset);
    FractionIsAscii(Subseconds(t));
    hide ZoneText, FractionText, D.Pad, IsAsciiText;
    FieldsAscii(D.Pad(t.year, 4), D.Pad(t.month, 2), D.Pad(t.day, 2), D.Pad(Hour(t), 2), D.Pad(Minute(t), 2),
                D.Pad(Second(t), 2), FractionText(Subseconds(t)), ZoneText(t.offset));
  }

  lemma ZoneIsAscii(offset: int)
    ensures IsAsciiText(ZoneText(offset))
  {
    hide D.Pad;
  }

  lemma FractionIsAscii(f: nat)
    ensures IsAsciiText(FractionText(f))
  {
    hide D.Pad;
  }

  lemma {:induction false} ValueUtf8(v: Value)
    requires Valid(v) && !HasNan(v)
    ensures IsUtf8(WriteValue(v)) <==> TextsValid(v)
    decreases v, 1
  {
    hide IsUtf8;
    match v {
      case Text(text) => QuotedUtf8(text);
      case Truth(truth) => AsciiIsUtf8(WriteValue(v));
      case Numeric(digits, floating) =>
        NumberIsAscii(digits, floating);
        AsciiIsUtf8(WriteValue(v));
      case Moment(t) =>
        MomentIsAscii(t);
        AsciiIsUtf8(WriteValue(v));
      case List(vs) =>
        ElementsUtf8(vs);
        Bracketed1("[", WriteElements(vs), "]");
      case Dict(es) =>
        PairsUtf8(es);
        Bracketed1("{", WritePairs(es), "}");
    }
  }

  lemma {:induction false} Bracketed1(open: string, inside: string, close: string)
    requires |open| == 1 && IsAscii(open[0]) && |close| == 1 && IsAscii(close[0])
    ensures IsUtf8(open + inside + close) <==> IsUtf8(inside)
  {
    hide IsUtf8;
    AsciiIsUtf8(open);
    AsciiIsUtf8(close);
    JoinEnd(open, inside);
    JoinStart(open + inside, close);
  }

  lemma {:induction false} ElementsUtf8(vs: seq<Value>)
    requires ValidList(vs)
    ensures IsUtf8(WriteElements(vs)) <==> AllTextsValid(vs)
    decreases vs, 0
  {
    hide IsUtf8, Valid, HasNan, WriteValue, TextsValid;
    if vs == [] {
      AsciiIsUtf8("");
    } else {
      ValueUtf8(vs[0]);
      if |vs| == 1 {
        assert WriteElements(vs) == WriteValue(vs[0]) + "" == WriteValue(vs[0]);
      } else {
        ElementsUtf8(vs[1..]);
        JoinStart(WriteValue(vs[0]), ", " + WriteElements(vs[1..]));
        JoinEnd(", ", WriteElements(vs[1..]));
        AsciiIsUtf8(", ");
      }
    }
  }

  /** A key, what stands between, a value and what follows. */
  lemma {:induction false} PairUtf8(key: string, v: Value, tail: string)
    requires Valid(v) && !HasNan(v) && (IsUtf8(WriteValue(v)) <==> TextsValid(v)) && (tail == "" || IsAscii(tail[0]))
    ensures IsUtf8(EscapeKey(key) + " = " + WriteValue(v) + tail) <==> IsUtf8(key) && TextsValid(v) && IsUtf8(tail)
  {
    hide IsUtf8, WriteValue, EscapeKey, TextsValid, Valid, HasNan;
    KeyUtf8(key);
    JoinStart(EscapeKey(key), " = ");
    AsciiIsUtf8(" = ");
    JoinEnd(EscapeKey(key) + " = ", WriteValue(v));
    JoinStart(EscapeKey(key) + " = " + WriteValue(v), tail);
  }

  lemma {:induction false} PairsUtf8(es: seq<Pair<Value>>)
    requires ValidValues(es)
    ensures IsUtf8(WritePairs(es)) <==> EntriesTextsValid(es)
    decreases es, 0
  {
    hide IsUtf8, Valid, HasNan, WriteValue, TextsValid, EscapeKey;
    AsciiIsUtf8("");
    if es != [] {
      ValueUtf8(es[0].value);
      if |es| == 1 {
        PairUtf8(es[0].key, es[0].value, "");
      } else {
        var tail := ", " + WritePairs(es[1..]);
        PairsUtf8(es[1..]);
        JoinEnd(", ", WritePairs(es[1..]));
        AsciiIsUtf8(", ");
        PairUtf8(es[0].key, es[0].value, tail);
      }
    }
  }

  // ---- documents ----

  predicate PathValid(path: seq<string>) {
    forall i :: 0 <= i < |path| ==> IsUtf8(path[i])
  }

  lemma {:induction false} PathUtf8(path: seq<string>)
    ensures IsUtf8(JoinPath(path)) <==> PathValid(path)
    decreases |path|
  {
    hide IsUtf8, EscapeKey;
    AsciiIsUtf8("");
    if path != [] {
      KeyUtf8(path[0]);
      assert PathValid(path) <==> IsUtf8(path[0]) && PathValid(path[1..]) by {
        PathFirst(path);
      }
      if |path| == 1 {
        assert EscapeKey(path[0]) + "" == EscapeKey(path[0]);
        assert path[1..] == [];
      } else {
        PathUtf8(path[1..]);
        JoinStart(EscapeKey(path[0]), "." + JoinPath(path[1..]));
        JoinEnd(".", JoinPath(path[1..]));
        AsciiIsUtf8(".");
      }
    }
  }

  lemma PathFirst(path: seq<string>)
    requires path != []
    ensures PathValid(path) <==> IsUtf8(path[0]) && PathValid(path[1..])
  {
    hide IsUtf8;
    if IsUtf8(path[0]) && PathValid(path[1..]) {
      forall i | 0 <= i < |path| ensures IsUtf8(path[i]) {
        if i > 0 {
          assert path[i] == path[1..][i - 1];
        }
      }
    }
  }

  lemma {:induction false} PathMore(path: seq<string>, key: string)
    ensures PathValid(path + [key]) <==> PathValid(path) && IsUtf8(key)
  {
    hide IsUtf8;
    assert (path + [key])[|path|] == key;
    assert forall i :: 0 <= i < |path| ==> (path + [key])[i] == path[i];
  }

  lemma HeaderUtf8(path: seq<string>, isArray: bool)
    ensures IsUtf8(HeaderText(path, isArray)) <==> PathValid(path)
    ensures HeaderText(path, isArray) != "" && HeaderText(path, isArray)[0] == '\n'
    ensures HeaderText(path, isArray)[|HeaderText(path, isArray)| - 1] == '\n'
  {
    hide IsUtf8, JoinPath, PathValid;
    PathUtf8(path);
    var open := if isArray then "\n[[" else "\n[";
    var close := if isArray then "]]\n" else "]\n";
    AsciiIsUtf8(open);
    AsciiIsUtf8(close);
    JoinEnd(open, JoinPath(path));
    JoinStart(open + JoinPath(path), close);
  }

  /** The entries that are written as lines have valid texts. */
  predicate LinesValid(es: seq<Pair<Value>>) {
    forall i :: 0 <= i < |es| && !WrittenAsTable(es[i].value) ==> IsUtf8(es[i].key) && TextsValid(es[i].value)
  }

  lemma {:induction false} LinesUtf8(es: seq<Pair<Value>>)
    requires NoNanIn(es)
    ensures IsUtf8(WriteLines(es)) <==> LinesValid(es)
    decreases es, 0
  {
    hide IsUtf8, Valid, HasNan, WriteValue, TextsValid, EscapeKey, WrittenAsTable;
    AsciiIsUtf8("");
    if es != [] {
      var key, v := es[0].key, es[0].value;
      LinesUtf8(es[1..]);
      LinesFirst(es);
      if WrittenAsTable(v) {
        assert WriteLines(es) == WriteLines(es[1..]);
      } else {
        ValueUtf8(v);
        AsciiIsUtf8("\n");
        PairUtf8(key, v, "\n");
        JoinEnd(LineText(key, v), WriteLines(es[1..]));
      }
    }
  }

  lemma LinesFirst(es: seq<Pair<Value>>)
    requires es != []
    ensures LinesValid(es) <==> (WrittenAsTable(es[0].value) || (IsUtf8(es[0].key) && TextsValid(es[0].value)))
                                && LinesValid(es[1..])
  {
    hide IsUtf8, TextsValid, WrittenAsTable;
    assert forall i :: 1 <= i < |es| ==> es[i] == es[1..][i - 1];
  }

  /** The entries that are written as tables have valid texts. */
  predicate TablesValid(es: seq<Pair<Value>>) {
    forall i :: 0 <= i < |es| && WrittenAsTable(es[i].value) ==> IsUtf8(es[i].key) && TextsValid(es[i].value)
  }

  lemma TablesFirstValid(es: seq<Pair<Value>>)
    requires es != []
    ensures TablesValid(es) <==> (!WrittenAsTable(es[0].value) || (IsUtf8(es[0].key) && TextsValid(es[0].value)))
                                 && TablesValid(es[1..])
  {
    hide IsUtf8, TextsValid, WrittenAsTable;
    assert forall i :: 1 <= i < |es| ==> es[i] == es[1..][i - 1];
  }

  lemma {:induction false} EntriesAre(es: seq<Pair<Value>>)
    ensures EntriesTextsValid(es) <==> LinesValid(es) && TablesValid(es)
    decreases es
  {
    hide IsUtf8, TextsValid, WrittenAsTable;
    if es != [] {
      EntriesAre(es[1..]);
      LinesFirst(es);
      TablesFirstValid(es);
    }
  }

  lemma {:induction false} TablesStart(es: seq<Pair<Value>>, path: seq<string>)
    requires NoNanIn(es)
    ensures WriteTables(es, path) == "" || WriteTables(es, path)[0] == '\n'
    decreases es
  {
    hide Valid, HasNan, WrittenAsTable, WriteTable;
    if es != [] {
      TablesStart(es[1..], path);
      if WrittenAsTable(es[0].value) {
        TableStarts(es[0].value, path + [es[0].key]);
      }
    }
  }

  lemma TableStarts(v: Value, path: seq<string>)
    requires Valid(v) && WrittenAsTable(v)
    ensures WriteTable(v, path) != "" && WriteTable(v, path)[0] == '\n'
  {
  }

  lemma {:induction false} DictionaryUtf8(es: seq<Pair<Value>>, path: seq<string>)
    requires NoNanIn(es) && PathValid(path)
    ensures IsUtf8(WriteDictionary(es, path)) <==> EntriesTextsValid(es)
    decreases es, 2
  {
    LinesUtf8(es);
    TablesUtf8(es, path);
    TablesStart(es, path);
    EntriesAre(es);
    hide IsUtf8, Valid, HasNan, WriteLines, WriteTables, EntriesTextsValid, LinesValid, TablesValid;
    JoinStart(WriteLines(es), WriteTables(es, path));
  }

  lemma {:induction false} TablesUtf8(es: seq<Pair<Value>>, path: seq<string>)
    requires NoNanIn(es) && PathValid(path)
    ensures IsUtf8(WriteTables(es, path)) <==> TablesValid(es)
    decreases es, 1
  {
    hide IsUtf8, Valid, HasNan, TextsValid, WrittenAsTable, WriteTable, PathValid;
    AsciiIsUtf8("");
    if es != [] {
      var key, v := es[0].key, es[0].value;
      TablesUtf8(es[1..], path);
      TablesFirstValid(es);
      TablesStart(es[1..], path);
      if WrittenAsTable(v) {
        TableUtf8(v, path, key);
        JoinStart(WriteTable(v, path + [key]), WriteTables(es[1..], path));
      } else {
        assert WriteTables(es, path) == WriteTables(es[1..], path);
      }
    }
  }

  lemma {:induction false} TableUtf8(v: Value, path: seq<string>, key: string)
    requires Valid(v) && !HasNan(v) && WrittenAsTable(v) && PathValid(path)
    ensures IsUtf8(WriteTable(v, path + [key])) <==> IsUtf8(key) && TextsValid(v)
    decreases v, 3
  {
    var at := path + [key];
    PathMore(path, key);
    if v.Dict? {
      NoNanInside(v);
      HeaderUtf8(at, false);
      if PathValid(at) {
        DictionaryUtf8(v.entries, at);
      }
      hide IsUtf8, Valid, HasNan, HeaderText, WriteDictionary, PathValid, EntriesTextsValid;
      JoinEnd(HeaderText(at, false), WriteDictionary(v.entries, at));
    } else {
      ElementsDictUtf8(v.elements, at);
      hide IsUtf8, Valid, HasNan, WriteArrayOfTables, PathValid, AllTextsValid;
    }
  }

  lemma ArrayStarts(vs: seq<Value>, path: seq<string>)
    requires NoNanTables(vs)
    ensures WriteArrayOfTables(vs, path) == "" || WriteArrayOfTables(vs, path)[0] == '\n'
  {
    hide Valid, HasNan, WriteDictionary;
  }

  lemma {:induction false} ElementsDictUtf8(vs: seq<Value>, path: seq<string>)
    requires NoNanTables(vs)
    ensures IsUtf8(WriteArrayOfTables(vs, path)) <==> (vs == [] || PathValid(path)) && AllTextsValid(vs)
    decreases vs, 0
  {
    hide IsUtf8, Valid, HasNan, WriteDictionary, HeaderText, PathValid, EntriesTextsValid;
    AsciiIsUtf8("");
    if vs != [] {
      var es := vs[0].entries;
      NoNanInside(vs[0]);
      HeaderUtf8(path, true);
      ElementsDictUtf8(vs[1..], path);
      ArrayStarts(vs[1..], path);
      if PathValid(path) {
        DictionaryUtf8(es, path);
      }
      assert TextsValid(vs[0]) == EntriesTextsValid(es);
      JoinEnd(HeaderText(path, true), WriteDictionary(es, path));
      JoinStart(HeaderText(path, true) + WriteDictionary(es, path), WriteArrayOfTables(vs[1..], path));
    }
  }

  /** serialize() succeeds exactly for the dictionaries without NaN whose strings and keys are valid UTF-8. */
  lemma SerializesExactly(es: seq<Pair<Value>>)
    requires Valid(Dict(es))
    ensures Serialize(es).Some? <==> !HasNan(Dict(es)) && TextsValid(Dict(es))
  {
    if !HasNan(Dict(es)) {
      NoNanInside(Dict(es));
      hide IsUtf8, Valid, HasNan, WriteDictionary, EntriesTextsValid;
      DictionaryUtf8(es, []);
    }
  }
}
