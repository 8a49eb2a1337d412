/** Every value written by src/format/toml.cpp reads back, with numbers as floats when they were written
    so, and is then written the same way again. */
module TomlReadsBack {
  import opened Wrappers
  import opened SortedMaps
  import opened TomlText
  import opened TomlTree
  import opened TomlValues
  import opened TomlNumbers
  import opened Timestamps
  import O = NumberOrder
  import D = Decimal

  // ---- what is read back ----

  /** A value as it is read back: the flag of a number is whether a point was written. */
  function Normal(v: Value): Value
    decreases v
  {
    match v
    case Numeric(digits, floating) => Numeric(digits, ReadsFloating(digits, floating))
    case List(vs) => List(NormalAll(vs))
    case Dict(es) => Dict(NormalPairs(es))
    case _ => v
  }

  function NormalAll(vs: seq<Value>): (r: seq<Value>)
    ensures |r| == |vs|
    decreases vs
  {
    if vs == [] then [] else [Normal(vs[0])] + NormalAll(vs[1..])
  }

  function NormalPairs(es: seq<Pair<Value>>): (r: seq<Pair<Value>>)
    ensures |r| == |es|
    decreases es
  {
    if es == [] then [] else [Pair(es[0].key, Normal(es[0].value))] + NormalPairs(es[1..])
  }

  /** A value without the flags of its numbers, which are no part of comparing them. */
  function Unflagged(v: Value): Value
    decreases v
  {
    match v
    case Numeric(digits, _) => Numeric(digits, false)
    case List(vs) => List(UnflaggedAll(vs))
    case Dict(es) => Dict(UnflaggedPairs(es))
    case _ => v
  }

  function UnflaggedAll(vs: seq<Value>): seq<Value>
    decreases vs
  {
    if vs == [] then [] else [Unflagged(vs[0])] + UnflaggedAll(vs[1..])
  }

  function UnflaggedPairs(es: seq<Pair<Value>>): seq<Pair<Value>>
    decreases es
  {
    if es == [] then [] else [Pair(es[0].key, Unflagged(es[0].value))] + UnflaggedPairs(es[1..])
  }

  lemma {:induction false} NormalIsEqual(v: Value)
    ensures Unflagged(Normal(v)) == Unflagged(v)
    decreases v, 1
  {
    match v {
      case List(vs) => NormalAllEqual(vs);
      case Dict(es) => NormalPairsEqual(es);
      case _ =>
    }
  }

  lemma {:induction false} NormalAllEqual(vs: seq<Value>)
    ensures UnflaggedAll(NormalAll(vs)) == UnflaggedAll(vs)
    decreases vs, 0
  {
    if vs != [] {
      NormalIsEqual(vs[0]);
      NormalAllEqual(vs[1..]);
      assert NormalAll(vs)[1..] == NormalAll(vs[1..]);
    }
  }

  lemma {:induction false} NormalPairsEqual(es: seq<Pair<Value>>)
    ensures UnflaggedPairs(NormalPairs(es)) == UnflaggedPairs(es)
    decreases es, 0
  {
    if es != [] {
      NormalIsEqual(es[0].value);
      NormalPairsEqual(es[1..]);
      assert NormalPairs(es)[1..] == NormalPairs(es[1..]);
    }
  }

  lemma {:induction false} NormalPairsAre(es: seq<Pair<Value>>)
    ensures forall i :: 0 <= i < |es| ==> NormalPairs(es)[i] == Pair(es[i].key, Normal(es[i].value))
    decreases es
  {
    hide Normal;
    if es != [] {
      NormalPairsAre(es[1..]);
      var x, r := Pair(es[0].key, Normal(es[0].value)), NormalPairs(es[1..]);
      assert NormalPairs(es) == [x] + r;
      forall i | 0 <= i < |es| ensures NormalPairs(es)[i] == Pair(es[i].key, Normal(es[i].value)) {
        if i > 0 {
          assert ([x] + r)[i] == r[i - 1] && es[1..][i - 1] == es[i];
        }
      }
    }
  }

  lemma {:induction false} NormalSorted(es: seq<Pair<Value>>)
    requires Sorted(es)
    ensures Sorted(NormalPairs(es))
  {
    NormalPairsAre(es);
    hide Normal, NormalPairs;
  }

  /** What is read back can be written, has no NaN, and is written with the same bytes. */
  lemma {:induction false} NormalWrites(v: Value)
    requires Valid(v) && !HasNan(v)
    ensures Valid(Normal(v)) && !HasNan(Normal(v)) && WriteValue(Normal(v)) == WriteValue(v)
    decreases v, 1
  {
    match v {
      case List(vs) =>
        NormalAllWrites(vs);
      case Dict(es) =>
        NormalSorted(es);
        NormalPairsWrites(es);
      case Numeric(digits, floating) =>
        hide BeyondInt64, IsWhole;
      case _ =>
    }
  }

  lemma {:induction false} NormalAllWrites(vs: seq<Value>)
    requires ValidList(vs)
    ensures ValidList(NormalAll(vs)) && WriteElements(NormalAll(vs)) == WriteElements(vs)
    decreases vs, 0
  {
    if vs != [] {
      NormalWrites(vs[0]);
      NormalAllWrites(vs[1..]);
      assert NormalAll(vs)[1..] == NormalAll(vs[1..]);
      assert forall i :: 1 <= i < |vs| ==> NormalAll(vs)[i] == NormalAll(vs[1..])[i - 1];
    }
  }

  predicate ValidValues(es: seq<Pair<Value>>) {
    forall i :: 0 <= i < |es| ==> Valid(es[i].value) && !HasNan(es[i].value)
  }

  lemma {:induction false} NormalPairsWrites(es: seq<Pair<Value>>)
    requires ValidValues(es)
    ensures ValidValues(NormalPairs(es)) && WritePairs(NormalPairs(es)) == WritePairs(es)
    decreases es, 0
  {
    hide Normal, WriteValue, Valid, HasNan;
    if es != [] {
      var x, r := Pair(es[0].key, Normal(es[0].value)), NormalPairs(es[1..]);
      NormalWrites(es[0].value);
      NormalPairsWrites(es[1..]);
      assert NormalPairs(es) == [x] + r;
      assert ([x] + r)[1..] == r;
    }
  }

  // ---- the first character ----

  /** A character that starts a value or a key is no space, line end, comment, comma or bracket's end. */
  predicate Starts(c: char) {
    c != ' ' && c != '\t' && c != '\r' && c != '\n' && c != '#' && c != ',' && c != ']' && c != '}'
  }

  lemma {:induction false} StartsStay(s: string)
    requires s != "" && Starts(s[0])
    ensures SkipSpace(s) == s && SkipBlank(s) == s
  {
  }

  lemma {:induction false} SpaceSkipped(s: string)
    requires s != "" && Starts(s[0])
    ensures SkipSpace(" " + s) == s && SkipBlank(" " + s) == s
  {
    assert (" " + s)[1..] == s;
    StartsStay(s);
  }

  lemma KeyStarts(key: string)
    ensures EscapeKey(key) != "" && Starts(EscapeKey(key)[0])
  {
  }

  lemma ValueStarts(v: Value)
    requires Valid(v) && !HasNan(v)
    ensures WriteValue(v) != "" && Starts(WriteValue(v)[0])
  {
    match v {
      case Numeric(digits, floating) =>
        NumberStarts(digits, floating, "");
        assert WriteNumber(digits, floating) + "" == WriteNumber(digits, floating);
      case Moment(t) =>
        MomentStarts(t, "");
        assert FormatIso(t) + "" == FormatIso(t);
      case _ =>
    }
  }

  // ---- one value ----

  lemma TextReads(text: string, rest: string)
    requires Ends(rest)
    ensures ReadValue(Quoted(text) + rest) == Done(Text(text), rest)
  {
    var s := Quoted(text) + rest;
    QuotedReadsBack(text, rest);
    StartsStay(s);
    NotWord(s, 0, "inf");
    NotWord(s, 0, "nan");
    QuotesApart(text, rest);
    hide EscapeAll, BasicString, MultiLine, Quoted, SkipSpace;
  }

  /** A quoted text does not start with three quotes. */
  lemma QuotesApart(text: string, rest: string)
    requires Ends(rest)
    ensures var s := Quoted(text) + rest; s[0] == '"' && !(Peek(s, 1) == '"' && Peek(s, 2) == '"')
  {
    var s := Quoted(text) + rest;
    if text == "" {
      assert s == "\"\"" + rest;
    } else {
      assert s[1] == EscapeAll(text)[0] == EscapeChar(text[0])[0];
    }
  }

  lemma TruthReads(truth: bool, rest: string)
    requires Ends(rest)
    ensures ReadValue((if truth then "true" else "false") + rest) == Done(Truth(truth), rest)
  {
    var word := if truth then "true" else "false";
    var s := word + rest;
    StartsStay(s);
    NotWord(s, 0, "inf");
    NotWord(s, 0, "nan");
    assert s[..|word|] == word && s[|word|..] == rest;
    if !truth {
      assert s[0] == 'f';
      assert |s| >= 4 && s[..4][0] == 'f';
    }
    hide SkipSpace, AtWord;
  }

  lemma NumericReads(digits: string, floating: bool, rest: string)
    requires D.IsCanonical(digits) && Ends(rest)
    ensures ReadValue(WriteNumber(digits, floating) + rest) == Done(Numeric(digits, ReadsFloating(digits, floating)), rest)
  {
    hide D.IsCanonical, WriteNumber, ReadsFloating, AtInfOrNan, AtDate, AtTime, ReadNumber;
    NumberStarts(digits, floating, rest);
    NumberReadsBack(digits, floating, rest);
    StartsStay(WriteNumber(digits, floating) + rest);
    hide SkipSpace, SkipBlank;
  }

  lemma MomentReads(t: Stamp, rest: string)
    requires IsStamp(t) && Ends(rest)
    ensures ReadValue(FormatIso(t) + rest) == Done(Moment(t), rest)
  {
    hide IsStamp, FormatIso, AtInfOrNan, AtDate, ReadMoment;
    MomentStarts(t, rest);
    MomentReadsBack(t, rest);
    StartsStay(FormatIso(t) + rest);
    hide SkipSpace, SkipBlank;
  }

  lemma ListStarts(s: string)
    requires s != "" && s[0] == '['
    ensures ReadValue(s) == ReadList(s)
  {
    StartsStay(s);
    NotWord(s, 0, "inf");
    NotWord(s, 0, "nan");
    hide SkipSpace, AtWord, ReadList;
  }

  lemma InlineStarts(s: string)
    requires s != "" && s[0] == '{'
    ensures ReadValue(s) == ReadInline(s)
  {
    StartsStay(s);
    NotWord(s, 0, "inf");
    NotWord(s, 0, "nan");
    hide SkipSpace, AtWord, ReadInline;
  }

  /** Every value reads back as it was written, up to what can follow it. */
  lemma {:induction false} ValueReadsBack(v: Value, rest: string)
    requires Valid(v) && !HasNan(v) && Ends(rest)
    ensures ReadValue(WriteValue(v) + rest) == Done(Normal(v), rest)
    decreases v, 1
  {
    match v {
      case Text(text) => TextReads(text, rest);
      case Truth(truth) => TruthReads(truth, rest);
      case Numeric(digits, floating) => NumericReads(digits, floating, rest);
      case Moment(t) => MomentReads(t, rest);
      case List(vs) => ListReadsBack(vs, rest);
      case Dict(es) => InlineReadsBack(es, rest);
    }
  }

  lemma EmptyList(rest: string)
    ensures ReadList("[]" + rest) == Done(List([]), rest)
  {
    var s := "[]" + rest;
    assert s[1..] == "]" + rest && s[1..][1..] == rest;
    BracketStays(s[1..]);
  }

  lemma SomeList(inside: string, vs: seq<Value>, rest: string)
    requires inside != "" && Starts(inside[0]) && ReadElements(inside) == Done(vs, rest)
    ensures ReadList("[" + inside) == Done(List(vs), rest)
  {
    hide ReadElements, SkipBlank;
    assert ("[" + inside)[1..] == inside;
    StartsStay(inside);
  }

  lemma {:induction false} ListReadsBack(vs: seq<Value>, rest: string)
    requires ValidList(vs) && Ends(rest)
    ensures ReadValue("[" + WriteElements(vs) + "]" + rest) == Done(List(NormalAll(vs)), rest)
    decreases vs, 3
  {
    hide ReadValue, ReadList, ReadElements;
    var s := "[" + WriteElements(vs) + "]" + rest;
    ListStarts(s);
    if vs == [] {
      assert s == "[]" + rest;
      EmptyList(rest);
    } else {
      ElementsReadBack(vs, rest);
      ElementsStart(vs);
      assert s == "[" + (WriteElements(vs) + "]" + rest);
      hide WriteElements;
      SomeList(WriteElements(vs) + "]" + rest, NormalAll(vs), rest);
    }
  }

  lemma ElementsStart(vs: seq<Value>)
    requires ValidList(vs) && vs != []
    ensures WriteElements(vs) != "" && Starts(WriteElements(vs)[0])
  {
    ValueStarts(vs[0]);
  }

  /** A comma or a closing bracket is no blank. */
  lemma BracketStays(s: string)
    requires s != "" && (s[0] == ',' || s[0] == ']' || s[0] == '}')
    ensures SkipBlank(s) == s && SkipSpace(s) == s
  {
  }

  lemma {:induction false} LastElement(s: string, v: Value, rest: string)
    requires ReadValue(s) == Done(v, "]" + rest)
    ensures ReadElements(s) == Done([v], rest)
  {
    hide ReadValue;
    BracketStays("]" + rest);
    assert ("]" + rest)[1..] == rest;
  }

  lemma NextElement(s: string, v: Value, next: string, vs: seq<Value>, rest: string)
    requires ReadValue(s) == Done(v, ", " + next) && next != "" && Starts(next[0])
    requires ReadElements(next) == Done(vs, rest)
    ensures ReadElements(s) == Done([v] + vs, rest)
  {
    hide ReadValue;
    BracketStays(", " + next);
    assert (", " + next)[1..] == " " + next;
    SpaceSkipped(next);
    hide SkipBlank;
  }

  lemma {:induction false} ElementsReadBack(vs: seq<Value>, rest: string)
    requires ValidList(vs) && vs != [] && Ends(rest)
    ensures ReadElements(WriteElements(vs) + "]" + rest) == Done(NormalAll(vs), rest)
    decreases vs, 2
  {
    hide ReadElements, ReadValue, WriteValue;
    var s := WriteElements(vs) + "]" + rest;
    if |vs| == 1 {
      assert s == WriteValue(vs[0]) + ("]" + rest);
      ValueReadsBack(vs[0], "]" + rest);
      LastElement(s, Normal(vs[0]), rest);
      assert NormalAll(vs) == [Normal(vs[0])];
    } else {
      var next := WriteElements(vs[1..]) + "]" + rest;
      assert s == WriteValue(vs[0]) + (", " + next);
      ValueReadsBack(vs[0], ", " + next);
      ElementsStart(vs[1..]);
      ElementsReadBack(vs[1..], rest);
      NextElement(s, Normal(vs[0]), next, NormalAll(vs[1..]), rest);
    }
  }

  // ---- pairs ----

  /** A key and a value that reads back read back. */
  lemma PairReadsBack(key: string, v: Value, rest: string)
    requires Valid(v) && !HasNan(v) && ReadValue(WriteValue(v) + rest) == Done(Normal(v), rest)
    ensures ReadPair(EscapeKey(key) + " = " + WriteValue(v) + rest) == Done(KeyValue([key], Normal(v)), rest)
  {
    hide Valid, HasNan, ReadValue, WriteValue, EscapeKey, Key, Normal;
    var w := WriteValue(v) + rest;
    ValueStarts(v);
    var t := " = " + w;
    assert EscapeKey(key) + " = " + WriteValue(v) + rest == EscapeKey(key) + t;
    KeyReadsBack(key, t);
    assert t[1..] == "= " + w && SkipSpace(t) == "= " + w;
    assert ("= " + w)[1..] == " " + w;
    SpaceSkipped(w);
  }

  lemma EmptyInline(rest: string)
    ensures ReadInline("{}" + rest) == Done(Dict([]), rest)
  {
    var s := "{}" + rest;
    assert s[1..] == "}" + rest && s[1..][1..] == rest;
    BracketStays(s[1..]);
  }

  lemma SomeInline(inside: string, n: Node, rest: string)
    requires inside != "" && Starts(inside[0]) && ReadPairs(inside, FRESH) == Done(n, rest)
    ensures ReadInline("{" + inside) == Done(Dict(Merge(n)), rest)
  {
    hide ReadPairs, SkipSpace, Merge;
    assert ("{" + inside)[1..] == inside;
    StartsStay(inside);
  }

  lemma {:induction false} InlineReadsBack(es: seq<Pair<Value>>, rest: string)
    requires ValidEntries(es) && Ends(rest)
    ensures ReadValue("{" + WritePairs(es) + "}" + rest) == Done(Dict(NormalPairs(es)), rest)
    decreases es, 3
  {
    hide ReadValue, ReadInline, ReadPairs, Merge, NormalPairs, Valid, HasNan, Sorted;
    var s := "{" + WritePairs(es) + "}" + rest;
    InlineStarts(s);
    NothingToMerge(NormalPairs(es));
    if es == [] {
      assert s == "{}" + rest;
      EmptyInline(rest);
    } else {
      hide WritePairs;
      PairsReadBack(es, FRESH, rest);
      PairsStart(es);
      assert FRESH.pairs + NormalPairs(es) == NormalPairs(es);
      Bracketed("{", WritePairs(es), "}", rest);
      SomeInline(WritePairs(es) + "}" + rest, FRESH.(pairs := NormalPairs(es)), rest);
    }
  }

  lemma NothingToMerge(es: seq<Pair<Value>>)
    ensures Merge(FRESH.(pairs := es)) == es
  {
  }

  lemma PairsStart(es: seq<Pair<Value>>)
    requires ValidValues(es) && es != []
    ensures WritePairs(es) != "" && Starts(WritePairs(es)[0])
  {
    KeyStarts(es[0].key);
  }

  /** All keys of one map before all of another. */
  predicate AllBefore<V>(a: seq<Pair<V>>, b: seq<Pair<V>>) {
    forall i, j :: 0 <= i < |a| && 0 <= j < |b| ==> O.Lex(a[i].key, b[j].key) < 0
  }

  /** A key after all others is put last. */
  lemma {:induction false} PutLast<V>(es: seq<Pair<V>>, key: string, value: V)
    requires forall i :: 0 <= i < |es| ==> O.Lex(es[i].key, key) < 0
    ensures Put(es, key, value) == es + [Pair(key, value)] && !Has(es, key)
  {
    if es != [] {
      LexOpposite(es[0].key, key);
      LexEqual(es[0].key, key);
      PutLast(es[1..], key, value);
      assert es == [es[0]] + es[1..];
      if Has(es, key) {
        HasHead(es, key);
      }
    }
  }

  lemma {:induction false} LastPair(s: string, n: Node, pair: KeyValue, m: Node, rest: string)
    requires pair.keys != [] && ReadPair(s) == Done(pair, "}" + rest) && AddPair(n, pair.keys, pair.value) == Some(m)
    ensures ReadPairs(s, n) == Done(m, rest)
  {
    hide ReadPair, AddPair;
    BracketStays("}" + rest);
    assert ("}" + rest)[1..] == rest;
  }

  lemma {:induction false} NextPair(s: string, n: Node, pair: KeyValue, m: Node, next: string)
    requires pair.keys != [] && ReadPair(s) == Done(pair, ", " + next) && AddPair(n, pair.keys, pair.value) == Some(m)
    requires next != "" && Starts(next[0])
    ensures ReadPairs(s, n) == ReadPairs(next, m)
  {
    hide ReadPair, AddPair;
    BracketStays(", " + next);
    assert (", " + next)[1..] == " " + next;
    SpaceSkipped(next);
    hide SkipSpace;
  }

  lemma {:induction false} AddLast(n: Node, key: string, v: Value)
    requires n.tables == [] && forall i :: 0 <= i < |n.pairs| ==> O.Lex(n.pairs[i].key, key) < 0
    ensures AddPair(n, [key], v) == Some(n.(pairs := n.pairs + [Pair(key, v)]))
  {
    PutLast(n.pairs, key, v);
  }

  lemma NextIsLater(pairs: seq<Pair<Value>>, es: seq<Pair<Value>>, v: Value)
    requires ValidEntries(es) && es != [] && AllBefore(pairs, es)
    ensures Valid(es[0].value) && !HasNan(es[0].value) && ValidEntries(es[1..]) && ValidValues(es)
    ensures ValidValues(es[1..])
    ensures forall i :: 0 <= i < |pairs| ==> O.Lex(pairs[i].key, es[0].key) < 0
    ensures AllBefore(pairs + [Pair(es[0].key, v)], es[1..])
  {
    hide Valid, HasNan;
    SortedHead(es);
  }

  lemma {:induction false} NormalFirst(pairs: seq<Pair<Value>>, es: seq<Pair<Value>>)
    requires es != []
    ensures pairs + [Pair(es[0].key, Normal(es[0].value))] + NormalPairs(es[1..]) == pairs + NormalPairs(es)
    ensures |es| == 1 ==> NormalPairs(es) == [Pair(es[0].key, Normal(es[0].value))]
  {
    hide Normal;
    var x, r := Pair(es[0].key, Normal(es[0].value)), NormalPairs(es[1..]);
    assert NormalPairs(es) == [x] + r;
    hide *;
    Associates(pairs, x, r);
  }

  lemma Associates<T>(a: seq<T>, x: T, b: seq<T>)
    ensures a + [x] + b == a + ([x] + b)
    ensures b == [] ==> [x] + b == [x]
  {
  }

  /** The text of pairs by their first. */
  lemma {:induction false} PairsText(es: seq<Pair<Value>>, rest: string)
    requires ValidValues(es) && es != []
    ensures |es| == 1 ==> WritePairs(es) + "}" + rest == EscapeKey(es[0].key) + " = " + WriteValue(es[0].value) + ("}" + rest)
    ensures |es| > 1 ==> WritePairs(es) + "}" + rest
                         == EscapeKey(es[0].key) + " = " + WriteValue(es[0].value) + (", " + (WritePairs(es[1..]) + "}" + rest))
  {
    hide WriteValue, EscapeKey, Valid, HasNan;
    var a := EscapeKey(es[0].key) + " = " + WriteValue(es[0].value);
    if |es| == 1 {
      assert WritePairs(es) == a + "";
      hide *;
      assert a + "" + "}" + rest == a + ("}" + rest);
    } else {
      var b := WritePairs(es[1..]);
      assert WritePairs(es) == a + (", " + b);
      hide *;
      Regrouped(a, b, rest);
    }
  }

  lemma Regrouped(a: string, b: string, rest: string)
    ensures a + (", " + b) + "}" + rest == a + (", " + (b + "}" + rest))
  {
  }

  lemma Bracketed(open: string, inside: string, close: string, rest: string)
    ensures open + inside + close + rest == open + (inside + close + rest)
  {
  }

  lemma {:induction false} PairsReadBack(es: seq<Pair<Value>>, n: Node, rest: string)
    requires ValidEntries(es) && es != [] && Ends(rest)
    requires n == FRESH.(pairs := n.pairs) && AllBefore(n.pairs, es)
    ensures ReadPairs(WritePairs(es) + "}" + rest, n) == Done(n.(pairs := n.pairs + NormalPairs(es)), rest)
    decreases es, 2
  {
    hide ReadPairs, ReadPair, ReadValue, WriteValue, AddPair, Put, ValidEntries, AllBefore, NormalPairs, WritePairs,
         Normal, Valid, HasNan, EscapeKey;
    var key, v := es[0].key, es[0].value;
    NextIsLater(n.pairs, es, Normal(v));
    PairsText(es, rest);
    NormalFirst(n.pairs, es);
    AddLast(n, key, Normal(v));
    var m := n.(pairs := n.pairs + [Pair(key, Normal(v))]);
    if |es| == 1 {
      ValueReadsBack(v, "}" + rest);
      PairReadsBack(key, v, "}" + rest);
      LastPair(WritePairs(es) + "}" + rest, n, KeyValue([key], Normal(v)), m, rest);
    } else {
      var next := WritePairs(es[1..]) + "}" + rest;
      ValueReadsBack(v, ", " + next);
      PairReadsBack(key, v, ", " + next);
      PairsStart(es[1..]);
      NextPair(WritePairs(es) + "}" + rest, n, KeyValue([key], Normal(v)), m, next);
      PairsReadBack(es[1..], m, rest);
    }
  }
}
