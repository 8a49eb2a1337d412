/** The serializer of src/format/toml.cpp as it appends to its output. */
module TomlWriter {
  import opened Wrappers
  import opened SortedMaps
  import opened Utf8
  import opened TomlText
  import opened TomlTree
  import opened TomlValues
  import opened TomlDocument
  import opened Timestamps
  import N = NumberText

  /** escape_string() */
  method EscapeString(s: string) returns (r: string)
    ensures r == EscapeAll(s)
  {
    r := "";
    assert s[0..] == s && "" + EscapeAll(s) == EscapeAll(s);
    for i := 0 to |s|
      invariant EscapeAll(s) == r + EscapeAll(s[i..])
    {
      var c := s[i];
      assert s[i..][0] == c && s[i..][1..] == s[i + 1..];
      assert r + (EscapeChar(c) + EscapeAll(s[i + 1..])) == r + EscapeChar(c) + EscapeAll(s[i + 1..]);
      if c == '"' {
        r := r + "\\\"";
      } else if c == '\\' {
        r := r + "\\\\";
      } else if c == '\n' {
        r := r + "\\n";
      } else if c == '\t' {
        r := r + "\\t";
      } else if c == '\r' {
        r := r + "\\r";
      } else if c as int == 8 {
        r := r + "\\b";
      } else if c as int == 12 {
        r := r + "\\f";
      } else if IsForbiddenControl(c) {
        r := r + ("\\u00" + [HexChar(c as int / 16), HexChar(c as int % 16)]);
      } else {
        r := r + [c];
      }
    }
    assert s[|s|..] == "" && r + "" == r;
  }

  /** escape_key() */
  method KeyText(key: string) returns (r: string)
    ensures r == EscapeKey(key)
  {
    var needsQuotes := key == "";
    for i := 0 to |key|
      invariant needsQuotes == (key == "" || exists j :: 0 <= j < i && !IsBareKeyChar(key[j]))
    {
      if !IsBareKeyChar(key[i]) {
        needsQuotes := true;
        break;
      }
    }
    if needsQuotes {
      var escaped := EscapeString(key);
      r := "\"" + escaped + "\"";
    } else {
      r := key;
    }
  }

  /** join_path() */
  method PathText(path: seq<string>) returns (r: string)
    ensures r == JoinPath(path)
  {
    r := "";
    assert path[0..] == path;
    for i := 0 to |path|
      invariant JoinPath(path) == r + (if 0 < i < |path| then "." else "") + JoinPath(path[i..])
    {
      if i > 0 {
        r := r + ".";
      }
      var key := KeyText(path[i]);
      assert path[i..][0] == path[i] && path[i..][1..] == path[i + 1..];
      PathStep(r, path[i..]);
      r := r + key;
    }
    assert path[|path|..] == [];
  }

  lemma {:induction false} PathStep(r: string, path: seq<string>)
    requires path != []
    ensures r + JoinPath(path) == r + EscapeKey(path[0]) + (if |path| > 1 then "." else "") + JoinPath(path[1..])
  {
    hide EscapeKey;
    if |path| == 1 {
      assert path[1..] == [];
      assert r + (EscapeKey(path[0]) + "") == r + EscapeKey(path[0]) + "" + "";
    } else {
      var k, more := EscapeKey(path[0]), JoinPath(path[1..]);
      assert JoinPath(path) == k + ("." + more);
      assert r + (k + ("." + more)) == r + k + "." + more;
    }
  }

  class Serializer {
    var output: string

    constructor ()
      ensures output == ""
    {
      output := "";
    }

    method Append(text: string)
      modifies this
      ensures output == old(output) + text
    {
      output := output + text;
    }

    method NumberText(digits: string, floating: bool)
      modifies this
      ensures output == old(output) + WriteNumber(digits, floating)
    {
      hide BeyondInt64, IsWhole;
      Append(digits);
      if IsWhole(digits) && (floating || BeyondInt64(digits)) {
        Append(".0");
      }
    }

    method QuotedText(text: string)
      modifies this
      ensures output == old(output) + Quoted(text)
    {
      hide EscapeAll;
      var escaped := EscapeString(text);
      Append("\"" + escaped + "\"");
    }

    /** serialize_value(): a NaN cannot be written. */
    method AnyValue(v: Value) returns (written: bool)
      requires Valid(v)
      modifies this
      ensures written == !HasNan(v)
      ensures written ==> output == old(output) + WriteValue(v)
      decreases v, 3
    {
      hide Quoted, WriteNumber, FormatIso, WriteElements, WritePairs;
      match v
      case Text(text) =>
        QuotedText(text);
        written := true;
      case Numeric(digits, floating) =>
        if digits == N.NOT_A_NUMBER {
          return false;
        }
        NumberText(digits, floating);
        written := true;
      case Truth(truth) =>
        Append(if truth then "true" else "false");
        written := true;
      case Moment(stamp) =>
        Append(FormatIso(stamp));
        written := true;
      case List(vs) =>
        written := ListText(vs);
      case Dict(es) =>
        written := InlineText(es);
    }

    /** serialize_array() */
    method ListText(vs: seq<Value>) returns (written: bool)
      requires Valid(List(vs))
      modifies this
      ensures written == !HasNan(List(vs))
      ensures written ==> output == old(output) + WriteValue(List(vs))
      decreases vs, 2
    {
      hide Valid, HasNan, WriteValue, WriteElements;
      ListParts(vs);
      Append("[");
      ghost var start := output;
      assert vs[0..] == vs;
      for i := 0 to |vs|
        invariant forall j :: 0 <= j < i ==> !HasNan(vs[j])
        invariant AllValues(vs[i..])
        invariant start + WriteElements(vs) == output + (if 0 < i < |vs| then ", " else "") + WriteElements(vs[i..])
      {
        if i > 0 {
          Append(", ");
        }
        ghost var before := output;
        assert vs[i..][0] == vs[i] && vs[i..][1..] == vs[i + 1..];
        ElementsStep(before, vs[i..]);
        var ok := AnyValue(vs[i]);
        if !ok {
          return false;
        }
      }
      ElementsEnd(vs[|vs|..]);
      assert output == start + WriteElements(vs);
      Append("]");
      assert output == old(output) + ("[" + WriteElements(vs) + "]");
      written := true;
    }

    /** serialize_inline_table() */
    method InlineText(es: seq<Pair<Value>>) returns (written: bool)
      requires Valid(Dict(es))
      modifies this
      ensures written == !HasNan(Dict(es))
      ensures written ==> output == old(output) + WriteValue(Dict(es))
      decreases es, 2
    {
      hide Valid, HasNan, WriteValue, WritePairs, EscapeKey;
      DictParts(es);
      Append("{");
      ghost var start := output;
      assert es[0..] == es;
      for i := 0 to |es|
        invariant forall j :: 0 <= j < i ==> !HasNan(es[j].value)
        invariant AllValid(es[i..])
        invariant start + WritePairs(es) == output + (if 0 < i < |es| then ", " else "") + WritePairs(es[i..])
      {
        if i > 0 {
          Append(", ");
        }
        ghost var before := output;
        assert es[i..][0] == es[i] && es[i..][1..] == es[i + 1..];
        PairsStep(before, es[i..]);
        var key := KeyText(es[i].key);
        Append(key + " = ");
        var ok := AnyValue(es[i].value);
        if !ok {
          return false;
        }
      }
      PairsEnd(es[|es|..]);
      assert output == start + WritePairs(es);
      Append("}");
      assert output == old(output) + ("{" + WritePairs(es) + "}");
      written := true;
    }

    /** serialize_dictionary(): the pairs first, then the tables. */
    method Dictionary(es: seq<Pair<Value>>, path: seq<string>) returns (written: bool)
      requires AllValid(es)
      modifies this
      ensures written == !NanIn(es)
      ensures written ==> output == old(output) + WriteDictionary(es, path)
      decreases es, 4
    {
      hide Valid, HasNan, WriteValue, WriteLines, WriteTables, WriteTable, WrittenAsTable, EscapeKey;
      ghost var start := output;
      assert es[0..] == es;
      for i := 0 to |es|
        invariant forall j :: 0 <= j < i && !WrittenAsTable(es[j].value) ==> !HasNan(es[j].value)
        invariant AllValid(es[i..])
        invariant start + WriteLines(es) == output + WriteLines(es[i..])
      {
        assert es[i..][0] == es[i] && es[i..][1..] == es[i + 1..];
        LinesStep(output, es[i..]);
        if !WrittenAsTable(es[i].value) {
          var key := KeyText(es[i].key);
          Append(key + " = ");
          var ok := AnyValue(es[i].value);
          if !ok {
            return false;
          }
          Append("\n");
        }
      }
      LinesEnd(es[|es|..], path);
      ghost var middle := output;
      assert middle == start + WriteLines(es);
      for i := 0 to |es|
        invariant forall j :: 0 <= j < |es| && (j < i || !WrittenAsTable(es[j].value)) ==> !HasNan(es[j].value)
        invariant AllValid(es[i..])
        invariant middle + WriteTables(es, path) == output + WriteTables(es[i..], path)
      {
        assert es[i..][0] == es[i] && es[i..][1..] == es[i + 1..];
        TablesStep(output, es[i..], path);
        if WrittenAsTable(es[i].value) {
          var ok := Table(es[i].value, path + [es[i].key]);
          if !ok {
            return false;
          }
        }
      }
      assert output == middle + WriteTables(es, path);
      assert start + WriteLines(es) + WriteTables(es, path) == start + (WriteLines(es) + WriteTables(es, path));
      written := true;
    }

    /** A table under its header, or each element of an array of tables under one. */
    method Table(v: Value, path: seq<string>) returns (written: bool)
      requires Valid(v) && WrittenAsTable(v)
      modifies this
      ensures written == !HasNan(v)
      ensures written ==> output == old(output) + WriteTable(v, path)
      decreases v, 5
    {
      hide Valid, HasNan, WriteDictionary, WriteArrayOfTables, JoinPath;
      TableParts(v, path);
      var name := PathText(path);
      if v.Dict? {
        Append("\n[" + name + "]\n");
        written := Dictionary(v.entries, path);
        assert written ==> output == old(output) + ("\n[" + name + "]\n" + WriteDictionary(v.entries, path));
      } else {
        written := ArrayTables(v.elements, path, name);
      }
    }

    method ArrayTables(vs: seq<Value>, path: seq<string>, name: string) returns (written: bool)
      requires forall i :: 0 <= i < |vs| ==> Valid(vs[i]) && vs[i].Dict?
      requires name == JoinPath(path)
      modifies this
      ensures written == !HasNan(List(vs))
      ensures written ==> output == old(output) + WriteArrayOfTables(vs, path)
      decreases vs, 2
    {
      hide Valid, HasNan, WriteDictionary, WriteArrayOfTables;
      ListNan(vs);
      ghost var start := output;
      assert vs[0..] == vs;
      for i := 0 to |vs|
        invariant forall j :: 0 <= j < i ==> !HasNan(vs[j])
        invariant forall j :: 0 <= j < |vs[i..]| ==> Valid(vs[i..][j]) && vs[i..][j].Dict?
        invariant start + WriteArrayOfTables(vs, path) == output + WriteArrayOfTables(vs[i..], path)
      {
        assert vs[i..][0] == vs[i] && vs[i..][1..] == vs[i + 1..];
        ArrayStep(output, vs[i..], path);
        DictNan(vs[i]);
        Append("\n[[" + name + "]]\n");
        var ok := Dictionary(vs[i].entries, path);
        if !ok {
          return false;
        }
      }
      ArrayEnd(vs[|vs|..], path);
      written := true;
    }
  }

  predicate NanIn(es: seq<Pair<Value>>) {
    exists i :: 0 <= i < |es| && HasNan(es[i].value)
  }

  predicate AllValues(vs: seq<Value>) {
    forall i :: 0 <= i < |vs| ==> Valid(vs[i])
  }

  lemma {:induction false} ListParts(vs: seq<Value>)
    requires Valid(List(vs))
    ensures AllValues(vs) && WriteValue(List(vs)) == "[" + WriteElements(vs) + "]"
    ensures HasNan(List(vs)) <==> exists i :: 0 <= i < |vs| && HasNan(vs[i])
  {
  }

  lemma ListNan(vs: seq<Value>)
    ensures HasNan(List(vs)) <==> exists i :: 0 <= i < |vs| && HasNan(vs[i])
  {
  }

  lemma {:induction false} DictParts(es: seq<Pair<Value>>)
    requires Valid(Dict(es))
    ensures AllValid(es) && WriteValue(Dict(es)) == "{" + WritePairs(es) + "}"
    ensures HasNan(Dict(es)) <==> NanIn(es)
    ensures NanIn(es) <==> exists i :: 0 <= i < |es| && HasNan(es[i].value)
  {
  }

  lemma DictNan(v: Value)
    requires Valid(v) && v.Dict?
    ensures AllValid(v.entries) && (HasNan(v) <==> NanIn(v.entries))
  {
    DictParts(v.entries);
  }

  lemma {:induction false} TableParts(v: Value, path: seq<string>)
    requires Valid(v) && WrittenAsTable(v)
    ensures v.Dict? ==> AllValid(v.entries) && (HasNan(v) <==> NanIn(v.entries))
                        && WriteTable(v, path) == "\n[" + JoinPath(path) + "]\n" + WriteDictionary(v.entries, path)
    ensures !v.Dict? ==> v.List? && (forall i :: 0 <= i < |v.elements| ==> Valid(v.elements[i]) && v.elements[i].Dict?)
                         && v == List(v.elements) && WriteTable(v, path) == WriteArrayOfTables(v.elements, path)
  {
    if v.Dict? {
      DictNan(v);
    }
    hide HasNan, WriteDictionary, JoinPath;
  }

  lemma {:induction false} ElementsStep(out: string, vs: seq<Value>)
    requires AllValues(vs) && vs != []
    ensures Valid(vs[0]) && AllValues(vs[1..])
    ensures out + WriteElements(vs) == out + WriteValue(vs[0]) + (if |vs| > 1 then ", " else "") + WriteElements(vs[1..])
  {
    hide Valid, WriteValue;
    var a, b := WriteValue(vs[0]), WriteElements(vs[1..]);
    if |vs| == 1 {
      assert vs[1..] == [] && WriteElements(vs) == a + "";
    } else {
      assert WriteElements(vs) == a + (", " + b);
    }
    hide *;
    Grouped(out, a, ", ", b);
  }

  lemma Grouped(out: string, a: string, m: string, b: string)
    ensures out + (a + (m + b)) == out + a + m + b
    ensures out + (a + "") == out + a + "" + ""
  {
  }

  lemma ElementsEnd(vs: seq<Value>)
    requires vs == []
    ensures WriteElements(vs) == ""
  {
  }

  lemma {:induction false} PairsStep(out: string, es: seq<Pair<Value>>)
    requires AllValid(es) && es != []
    ensures Valid(es[0].value) && AllValid(es[1..])
    ensures out + WritePairs(es) == out + (EscapeKey(es[0].key) + " = ") + WriteValue(es[0].value)
                                    + (if |es| > 1 then ", " else "") + WritePairs(es[1..])
  {
    hide Valid, WriteValue, EscapeKey;
    var k := EscapeKey(es[0].key) + " = ";
    var a, b := WriteValue(es[0].value), WritePairs(es[1..]);
    if |es| == 1 {
      assert es[1..] == [] && WritePairs(es) == k + a + "";
    } else {
      assert WritePairs(es) == k + a + (", " + b);
    }
    hide *;
    Grouped(out, k + a, ", ", b);
    assert out + (k + a) == out + k + a;
  }

  lemma PairsEnd(es: seq<Pair<Value>>)
    requires es == []
    ensures WritePairs(es) == ""
  {
  }

  lemma {:induction false} LinesStep(out: string, es: seq<Pair<Value>>)
    requires AllValid(es) && es != []
    ensures Valid(es[0].value) && AllValid(es[1..])
    ensures WrittenAsTable(es[0].value) ==> WriteLines(es) == WriteLines(es[1..])
    ensures !WrittenAsTable(es[0].value) ==>
              out + WriteLines(es)
              == out + (EscapeKey(es[0].key) + " = ") + WriteValue(es[0].value) + "\n" + WriteLines(es[1..])
  {
    hide Valid, WriteValue, EscapeKey, WrittenAsTable;
    var k := EscapeKey(es[0].key) + " = ";
    var a, b := WriteValue(es[0].value), WriteLines(es[1..]);
    if WrittenAsTable(es[0].value) {
      assert WriteLines(es) == "" + b == b;
    } else {
      assert WriteLines(es) == k + a + "\n" + b;
      hide *;
      assert k + a + "\n" + b == k + a + ("\n" + b);
      Grouped(out, k + a, "\n", b);
      assert out + (k + a) == out + k + a;
    }
  }

  lemma LinesEnd(es: seq<Pair<Value>>, path: seq<string>)
    requires es == []
    ensures WriteLines(es) == "" && WriteTables(es, path) == ""
  {
  }

  lemma TablesStep(out: string, es: seq<Pair<Value>>, path: seq<string>)
    requires AllValid(es) && es != []
    ensures Valid(es[0].value) && AllValid(es[1..])
    ensures !WrittenAsTable(es[0].value) ==> WriteTables(es, path) == WriteTables(es[1..], path)
    ensures WrittenAsTable(es[0].value) ==>
              out + WriteTables(es, path) == out + WriteTable(es[0].value, path + [es[0].key]) + WriteTables(es[1..], path)
  {
    hide Valid, WriteTable, WrittenAsTable;
    if !WrittenAsTable(es[0].value) {
      assert WriteTables(es, path) == "" + WriteTables(es[1..], path);
    } else {
      var a, b := WriteTable(es[0].value, path + [es[0].key]), WriteTables(es[1..], path);
      assert WriteTables(es, path) == a + b;
      hide *;
      assert out + (a + b) == out + a + b;
    }
  }

  lemma ArrayStep(out: string, vs: seq<Value>, path: seq<string>)
    requires (forall i :: 0 <= i < |vs| ==> Valid(vs[i]) && vs[i].Dict?) && vs != []
    ensures AllValid(vs[0].entries) && Valid(vs[0])
    ensures forall i :: 0 <= i < |vs[1..]| ==> Valid(vs[1..][i]) && vs[1..][i].Dict?
    ensures out + WriteArrayOfTables(vs, path)
            == out + ("\n[[" + JoinPath(path) + "]]\n") + WriteDictionary(vs[0].entries, path)
               + WriteArrayOfTables(vs[1..], path)
  {
    DictNan(vs[0]);
    hide Valid, WriteDictionary, JoinPath;
    var h, a, b := "\n[[" + JoinPath(path) + "]]\n", WriteDictionary(vs[0].entries, path), WriteArrayOfTables(vs[1..], path);
    assert WriteArrayOfTables(vs, path) == h + a + b;
    hide *;
    assert out + (h + a + b) == out + h + a + b;
  }

  lemma ArrayEnd(vs: seq<Value>, path: seq<string>)
    requires vs == []
    ensures WriteArrayOfTables(vs, path) == ""
  {
  }

  /** serialize() */
  method WriteDocument(es: seq<Pair<Value>>) returns (r: Option<string>)
    requires Valid(Dict(es))
    ensures r == Serialize(es)
  {
    DictParts(es);
    var serializer := new Serializer();
    var written := serializer.Dictionary(es, []);
    if !written {
      return None;
    }
    var valid := IsValidUtf8(serializer.output);
    assert "" + WriteDictionary(es, []) == WriteDictionary(es, []);
    r := if valid then Some(serializer.output) else None;
  }
}
