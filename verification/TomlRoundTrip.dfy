/** A dictionary written as a document reads back, and is then written with the same bytes. */
module TomlRoundTrip {
  import opened Wrappers
  import opened SortedMaps
  import opened Utf8
  import opened TomlText
  import opened TomlTree
  import opened TomlValues
  import opened TomlNumbers
  import opened TomlReadsBack
  import opened TomlDocument
  import opened TomlTables

  /** Whatever the state and whatever follows, a text reads as these lines. */
  ghost predicate ReadsAs(text: string, events: seq<Event>) {
    AllEvents(events)
    && forall rest, st :: IsState(st) ==>
                            Document(text + rest, st) == match ApplyAll(st, events)
                                                         case None => None
                                                         case Some(next) => Document(rest, next)
  }

  lemma ReadsNothing()
    ensures ReadsAs("", [])
  {
    hide IsState;
    forall rest, st | IsState(st) ensures Document("" + rest, st) == Document(rest, st) {
      assert "" + rest == rest;
    }
    hide Document;
  }

  lemma ReadsTogether(a: string, ea: seq<Event>, b: string, eb: seq<Event>)
    requires ReadsAs(a, ea) && ReadsAs(b, eb)
    ensures ReadsAs(a + b, ea + eb)
  {
    hide IsState, Document, ApplyAll;
    forall rest, st | IsState(st)
      ensures Document(a + b + rest, st) == match ApplyAll(st, ea + eb)
                                            case None => None
                                            case Some(next) => Document(rest, next)
    {
      assert a + b + rest == a + (b + rest);
      ApplyConcat(st, ea, eb);
    }
  }

  // ---- one line ----

  lemma LineBreakFirst(s: string, st: State)
    requires IsState(st)
    ensures Document("\n" + s, st) == Document(s, st)
  {
    hide IsState, ReadItem, Apply;
    assert ("\n" + s)[1..] == s;
    assert SkipBlank("\n" + s) == SkipBlank(s);
  }

  lemma LineBreakStays(s: string)
    ensures SkipSpace("\n" + s) == "\n" + s
  {
  }

  /** A text that is one item up to its line end reads as that item. */
  lemma ItemReads(item: string, e: Event, rest: string, st: State)
    requires IsState(st) && IsEvent(e) && item != "" && Starts(item[0])
    requires ReadItem(item + "\n" + rest) == Done(e, "\n" + rest)
    ensures Document(item + "\n" + rest, st) == match ApplyAll(st, [e])
                                                case None => None
                                                case Some(next) => Document(rest, next)
  {
    var s := item + "\n" + rest;
    StartsStay(s);
    hide IsState, ReadItem, Apply, SkipBlank;
    if Apply(st, e).Some? {
      ApplyKeeps(st, e);
      LineBreakFirst(rest, Apply(st, e).value);
    }
    OneEvent(st, e);
  }

  lemma OneEvent(st: State, e: Event)
    requires IsState(st) && IsEvent(e)
    ensures ApplyAll(st, [e]) == Apply(st, e)
  {
    hide IsState, Apply;
    if Apply(st, e).Some? {
      ApplyKeeps(st, e);
      assert [e][1..] == [];
    }
  }

  lemma KeyIsNoHeader(key: string)
    ensures EscapeKey(key)[0] != '['
  {
  }

  function LineText(key: string, v: Value): string
    requires Valid(v)
  {
    EscapeKey(key) + " = " + WriteValue(v) + "\n"
  }

  /** The line of a key and value is read as that pair, and the text after it goes on from there. */
  lemma LineReadsBefore(key: string, v: Value, rest: string, st: State)
    requires Valid(v) && !HasNan(v) && IsState(st)
    ensures Document(LineText(key, v) + rest, st) == match ApplyAll(st, [Line([key], Normal(v))])
                                                     case None => None
                                                     case Some(next) => Document(rest, next)
  {
    var item, tail := EscapeKey(key) + " = " + WriteValue(v), "\n" + rest;
    LineSplits(key, v, rest);
    hide *;
    ItemIsPair(key, v, rest);
    ItemReads(item, Line([key], Normal(v)), rest, st);
  }

  lemma LineSplits(key: string, v: Value, rest: string)
    requires Valid(v)
    ensures LineText(key, v) + rest == EscapeKey(key) + " = " + WriteValue(v) + "\n" + rest
  {
    hide EscapeKey, WriteValue, Valid;
  }

  /** What is written for a key and value, to the end of its line, reads as that pair. */
  lemma ItemIsPair(key: string, v: Value, rest: string)
    requires Valid(v) && !HasNan(v)
    ensures var item, e := EscapeKey(key) + " = " + WriteValue(v), Line([key], Normal(v));
      && IsEvent(e) && item != "" && Starts(item[0]) && ReadItem(item + "\n" + rest) == Done(e, "\n" + rest)
  {
    hide ReadPair, Valid, HasNan, EscapeKey, WriteValue, Normal, Ends, Starts;
    var item, tail := EscapeKey(key) + " = " + WriteValue(v), "\n" + rest;
    assert item + "\n" + rest == item + tail;
    assert Ends(tail) by {
      LineBreakEnds(rest);
    }
    ValueReadsBack(v, tail);
    PairReadsBack(key, v, tail);
    KeyStarts(key);
    KeyIsNoHeader(key);
    LineBreakStays(rest);
  }

  lemma LineBreakEnds(s: string)
    ensures Ends("\n" + s)
  {
  }

  lemma LineReads(key: string, v: Value)
    requires Valid(v) && !HasNan(v)
    ensures ReadsAs(LineText(key, v), [Line([key], Normal(v))])
  {
    hide IsState, Document, ApplyAll, Valid, HasNan, LineText, Normal;
    var e := Line([key], Normal(v));
    forall rest, st | IsState(st)
      ensures Document(LineText(key, v) + rest, st) == match ApplyAll(st, [e])
                                                       case None => None
                                                       case Some(next) => Document(rest, next)
    {
      LineReadsBefore(key, v, rest, st);
    }
  }

  // ---- headers ----

  lemma {:induction false} KeysReadBack(path: seq<string>, tail: string)
    requires path != [] && tail != "" && tail[0] == ']'
    ensures ReadKeys(JoinPath(path) + tail) == Done(path, tail)
    decreases |path|
  {
    hide Key, EscapeKey, SkipSpace;
    var s := JoinPath(path) + tail;
    BracketStays(tail);
    if |path| == 1 {
      assert s == EscapeKey(path[0]) + tail;
      KeyReadsBack(path[0], tail);
      assert path == [path[0]];
    } else {
      var next := JoinPath(path[1..]) + tail;
      assert s == EscapeKey(path[0]) + ("." + next);
      KeyReadsBack(path[0], "." + next);
      PointStays(next);
      assert ("." + next)[1..] == next;
      PathStarts(path[1..]);
      StartsStay(next);
      KeysReadBack(path[1..], tail);
      assert path == [path[0]] + path[1..];
    }
  }

  lemma PointStays(s: string)
    ensures SkipSpace("." + s) == "." + s
  {
  }

  lemma {:induction false} PathStarts(path: seq<string>)
    requires path != []
    ensures JoinPath(path) != "" && Starts(JoinPath(path)[0]) && JoinPath(path)[0] != '['
  {
    KeyStarts(path[0]);
    KeyIsNoHeader(path[0]);
  }

  lemma HeaderIs(path: seq<string>, isArray: bool, tail: string)
    requires path != [] && tail != "" && tail[0] == '\n'
    ensures var text := if isArray then "[[" + JoinPath(path) + "]]" else "[" + JoinPath(path) + "]";
      ReadItem(text + tail) == Done(Header(path, isArray), tail)
  {
    var keys := JoinPath(path);
    var close := if isArray then "]]" else "]";
    var open := if isArray then "[[" else "[";
    var s := open + keys + close + tail;
    hide JoinPath, ReadKeys, ReadPair, SkipSpace, SkipBlank;
    PathStarts(path);
    KeysReadBack(path, close + tail);
    assert s == open + (keys + (close + tail));
    assert s[|open|..] == keys + (close + tail);
    StartsStay(keys + (close + tail));
    assert (close + tail)[|close|..] == tail;
    LineBreakStays(tail[1..]);
    assert tail == "\n" + tail[1..];
  }

  lemma HeaderReads(path: seq<string>, isArray: bool)
    requires path != []
    ensures ReadsAs(HeaderText(path, isArray), [Header(path, isArray)])
  {
    var item := if isArray then "[[" + JoinPath(path) + "]]" else "[" + JoinPath(path) + "]";
    var e := Header(path, isArray);
    hide IsState, Document, ApplyAll, ReadItem, JoinPath;
    forall rest, st | IsState(st)
      ensures Document(HeaderText(path, isArray) + rest, st) == match ApplyAll(st, [e])
                                                                case None => None
                                                                case Some(next) => Document(rest, next)
    {
      assert HeaderText(path, isArray) + rest == "\n" + (item + "\n" + rest);
      assert item + ("\n" + rest) == item + "\n" + rest;
      LineBreakFirst(item + "\n" + rest, st);
      HeaderIs(path, isArray, "\n" + rest);
      ItemReads(item, e, rest, st);
    }
  }

  // ---- whole dictionaries ----

  predicate NoNanIn(es: seq<Pair<Value>>) {
    forall i :: 0 <= i < |es| ==> Valid(es[i].value) && !HasNan(es[i].value)
  }

  lemma {:induction false} LinesRead(es: seq<Pair<Value>>)
    requires NoNanIn(es)
    ensures ReadsAs(WriteLines(es), Lines(es))
    decreases es
  {
    hide ReadsAs, Valid, HasNan, WrittenAsTable, Normal, WriteValue, EscapeKey;
    if es == [] {
      ReadsNothing();
    } else {
      var key, v := es[0].key, es[0].value;
      LinesRead(es[1..]);
      if WrittenAsTable(v) {
        assert WriteLines(es) == WriteLines(es[1..]) && Lines(es) == Lines(es[1..]);
      } else {
        LineReads(key, v);
        ReadsTogether(LineText(key, v), [Line([key], Normal(v))], WriteLines(es[1..]), Lines(es[1..]));
      }
    }
  }

  lemma {:induction false} DictionaryReads(es: seq<Pair<Value>>, path: seq<string>)
    requires NoNanIn(es)
    ensures ReadsAs(WriteDictionary(es, path), Events(es, path))
    decreases es, 2
  {
    LinesRead(es);
    TablesRead(es, path);
    hide ReadsAs, Valid, HasNan, WriteLines, WriteTables, Lines, TableEvents;
    ReadsTogether(WriteLines(es), Lines(es), WriteTables(es, path), TableEvents(es, path));
  }

  lemma {:induction false} TablesRead(es: seq<Pair<Value>>, path: seq<string>)
    requires NoNanIn(es)
    ensures ReadsAs(WriteTables(es, path), TableEvents(es, path))
    decreases es, 1
  {
    hide ReadsAs, Valid, HasNan, WrittenAsTable, WriteTable, EventsOf;
    if es == [] {
      ReadsNothing();
    } else {
      var at, v := path + [es[0].key], es[0].value;
      TablesRead(es[1..], path);
      if WrittenAsTable(v) {
        TableReads(v, at);
        ReadsTogether(WriteTable(v, at), EventsOf(v, at), WriteTables(es[1..], path), TableEvents(es[1..], path));
      } else {
        assert WriteTables(es, path) == WriteTables(es[1..], path) && TableEvents(es, path) == TableEvents(es[1..], path);
      }
    }
  }

  lemma NoNanInside(v: Value)
    requires Valid(v) && !HasNan(v) && v.Dict?
    ensures NoNanIn(v.entries) && AllValid(v.entries)
  {
  }

  lemma {:induction false} TableReads(v: Value, path: seq<string>)
    requires Valid(v) && !HasNan(v) && WrittenAsTable(v) && path != []
    ensures ReadsAs(WriteTable(v, path), EventsOf(v, path))
    decreases v, 3
  {
    if v.Dict? {
      NoNanInside(v);
      DictionaryReads(v.entries, path);
      HeaderReads(path, false);
      hide ReadsAs, Valid, HasNan, HeaderText, WriteDictionary, Events;
      ReadsTogether(HeaderText(path, false), [Header(path, false)], WriteDictionary(v.entries, path), Events(v.entries, path));
    } else {
      ElementsRead(v.elements, path);
      hide ReadsAs, Valid, HasNan;
    }
  }

  lemma {:induction false} ElementsRead(vs: seq<Value>, path: seq<string>)
    requires (forall i :: 0 <= i < |vs| ==> Valid(vs[i]) && !HasNan(vs[i]) && vs[i].Dict?) && path != []
    ensures ReadsAs(WriteArrayOfTables(vs, path), ArrayEvents(vs, path))
    decreases vs, 0
  {
    hide ReadsAs, Valid, HasNan, HeaderText, WriteDictionary, Events;
    if vs == [] {
      ReadsNothing();
    } else {
      var es := vs[0].entries;
      NoNanInside(vs[0]);
      DictionaryReads(es, path);
      HeaderReads(path, true);
      ReadsTogether(HeaderText(path, true), [Header(path, true)], WriteDictionary(es, path), Events(es, path));
      ElementsRead(vs[1..], path);
      ReadsTogether(HeaderText(path, true) + WriteDictionary(es, path), [Header(path, true)] + Events(es, path),
                    WriteArrayOfTables(vs[1..], path), ArrayEvents(vs[1..], path));
    }
  }

  // ---- the round trip ----

  lemma DocumentEnds(st: State)
    requires IsState(st)
    ensures Document("", st) == Some(st)
  {
  }

  lemma ReadsAtEnd(text: string, events: seq<Event>, st: State)
    requires ReadsAs(text, events) && IsState(st)
    ensures AllEvents(events) && Document(text, st) == ApplyAll(st, events)
  {
    hide IsState, Document, ApplyAll;
    assert Document(text + "", st) == match ApplyAll(st, events)
                                      case None => None
                                      case Some(next) => Document("", next);
    assert text + "" == text;
    if ApplyAll(st, events).Some? {
      DocumentEnds(ApplyAll(st, events).value);
    }
  }

  lemma RootReplaced(n: Node, m: Node)
    ensures Reaches(n, []) && NodeAt(n, []) == n && ReplaceAt(n, [], m) == m
  {
  }

  /** Reading what was written for a dictionary gives the dictionary, its numbers equal and flagged as
      they were written. */
  lemma WrittenReadsBack(es: seq<Pair<Value>>)
    requires Valid(Dict(es)) && !HasNan(Dict(es))
    ensures AllValid(es)
    ensures var text := WriteDictionary(es, []); IsUtf8(text) ==> Deserialize(text) == Some(NormalPairs(es))
  {
    NoNanInside(Dict(es));
    var text, st := WriteDictionary(es, []), State(FRESH, []);
    FreshState();
    RootReplaced(FRESH, Build(FRESH, es));
    DictionaryReads(es, []);
    hide Valid, HasNan, ReadsAs, IsState, Document, WriteDictionary, Events, NodeAt, ReplaceAt, Reaches, Merge, Build, IsUtf8,
         ApplyAll;
    ReadsAtEnd(text, Events(es, []), st);
    DictionaryApplies(FRESH, [], es);
    BuildMerges(FRESH, es);
    NothingRead(es);
  }

  lemma NothingRead(es: seq<Pair<Value>>)
    requires Valid(Dict(es)) && !HasNan(Dict(es))
    ensures AllValid(es) && (WriteDictionary(es, []) == "" ==> es == [])
  {
    EntriesValid(es);
    if es != [] {
      WritesSomething(es, []);
    }
  }

  lemma WritesSomething(es: seq<Pair<Value>>, path: seq<string>)
    requires AllValid(es) && es != []
    ensures WriteDictionary(es, path) != ""
  {
    var v := es[0].value;
    if WrittenAsTable(v) {
      hide WriteDictionary, WriteLines, WrittenAsTable;
      TableTextNotEmpty(v, path + [es[0].key]);
      assert WriteTables(es, path) != "";
      WrittenWhole(es, path);
    } else {
      assert WriteLines(es) != "";
    }
  }

  lemma WrittenWhole(es: seq<Pair<Value>>, path: seq<string>)
    requires AllValid(es)
    ensures WriteDictionary(es, path) == WriteLines(es) + WriteTables(es, path)
  {
  }

  lemma TableTextNotEmpty(v: Value, path: seq<string>)
    requires Valid(v) && WrittenAsTable(v)
    ensures WriteTable(v, path) != ""
  {
  }

  // ---- the same bytes again ----

  lemma {:induction false} NormalKind(v: Value)
    ensures WrittenAsTable(Normal(v)) == WrittenAsTable(v)
  {
    if v.List? {
      NormalAllAre(v.elements);
      hide NormalAll;
      if IsArrayOfTables(Normal(v)) {
        forall i | 0 <= i < |v.elements| ensures v.elements[i].Dict? {
          assert NormalAll(v.elements)[i] == Normal(v.elements[i]);
        }
      }
    }
  }

  lemma {:induction false} NormalAllAre(vs: seq<Value>)
    ensures forall i :: 0 <= i < |vs| ==> NormalAll(vs)[i] == Normal(vs[i])
    decreases vs
  {
    hide Normal;
    if vs != [] {
      NormalAllAre(vs[1..]);
      var x, r := Normal(vs[0]), NormalAll(vs[1..]);
      assert NormalAll(vs) == [x] + r;
      forall i | 0 <= i < |vs| ensures NormalAll(vs)[i] == Normal(vs[i]) {
        if i > 0 {
          assert ([x] + r)[i] == r[i - 1] && vs[1..][i - 1] == vs[i];
        }
      }
    }
  }

  lemma {:induction false} NormalFirstEntry(es: seq<Pair<Value>>)
    requires NoNanIn(es) && es != []
    ensures NormalPairs(es) != [] && NormalPairs(es)[0] == Pair(es[0].key, Normal(es[0].value))
    ensures NormalPairs(es)[1..] == NormalPairs(es[1..]) && NoNanIn(es[1..])
    ensures Valid(Normal(es[0].value)) && !HasNan(Normal(es[0].value))
    ensures WriteValue(Normal(es[0].value)) == WriteValue(es[0].value)
    ensures WrittenAsTable(Normal(es[0].value)) == WrittenAsTable(es[0].value)
  {
    NormalWrites(es[0].value);
    NormalKind(es[0].value);
    hide Valid, HasNan, Normal, WriteValue, WrittenAsTable;
  }

  lemma {:induction false} NormalLines(es: seq<Pair<Value>>)
    requires NoNanIn(es)
    ensures AllValid(NormalPairs(es)) && WriteLines(NormalPairs(es)) == WriteLines(es)
    decreases es, 0
  {
    hide Valid, HasNan, Normal, WriteValue, WrittenAsTable, EscapeKey;
    if es != [] {
      NormalFirstEntry(es);
      NormalLines(es[1..]);
      FirstValid(NormalPairs(es));
      hide NormalPairs;
    }
  }

  lemma FirstValid(es: seq<Pair<Value>>)
    requires es != [] && Valid(es[0].value) && AllValid(es[1..])
    ensures AllValid(es)
  {
    hide Valid;
    forall i | 0 <= i < |es| ensures Valid(es[i].value) {
      if i > 0 {
        assert es[i] == es[1..][i - 1];
      }
    }
  }

  lemma {:induction false} NormalDictionary(es: seq<Pair<Value>>, path: seq<string>)
    requires NoNanIn(es)
    ensures AllValid(NormalPairs(es)) && WriteDictionary(NormalPairs(es), path) == WriteDictionary(es, path)
    decreases es, 2
  {
    NormalLines(es);
    NormalTables(es, path);
    hide WriteLines, WriteTables, NormalPairs, Valid, HasNan;
  }

  lemma {:induction false} NormalTables(es: seq<Pair<Value>>, path: seq<string>)
    requires NoNanIn(es)
    ensures AllValid(NormalPairs(es)) && WriteTables(NormalPairs(es), path) == WriteTables(es, path)
    decreases es, 1
  {
    hide Valid, HasNan, Normal, WriteTable, WrittenAsTable, WriteValue;
    NormalLines(es);
    if es != [] {
      NormalFirstEntry(es);
      NormalTables(es[1..], path);
      if WrittenAsTable(es[0].value) {
        NormalTable(es[0].value, path + [es[0].key]);
      }
      hide NormalPairs;
    }
  }

  lemma {:induction false} NormalTable(v: Value, path: seq<string>)
    requires Valid(v) && !HasNan(v) && WrittenAsTable(v)
    ensures Valid(Normal(v)) && WrittenAsTable(Normal(v)) && WriteTable(Normal(v), path) == WriteTable(v, path)
    decreases v, 3
  {
    NormalWrites(v);
    NormalKind(v);
    if v.Dict? {
      NoNanInside(v);
      NormalDictionary(v.entries, path);
      hide WriteDictionary, NormalPairs, Valid, HasNan, WriteValue;
    } else {
      NormalElements(v.elements, path);
      hide NormalAll, Valid, HasNan, WriteValue, WriteArrayOfTables;
    }
  }

  predicate NoNanTables(vs: seq<Value>) {
    forall i :: 0 <= i < |vs| ==> Valid(vs[i]) && !HasNan(vs[i]) && vs[i].Dict?
  }

  lemma {:induction false} NormalElements(vs: seq<Value>, path: seq<string>)
    requires NoNanTables(vs)
    ensures forall i :: 0 <= i < |vs| ==> Valid(NormalAll(vs)[i]) && NormalAll(vs)[i].Dict?
    ensures WriteArrayOfTables(NormalAll(vs), path) == WriteArrayOfTables(vs, path)
    decreases vs, 0
  {
    hide Valid, HasNan, WriteDictionary, WriteValue, HeaderText;
    if vs != [] {
      NormalElements(vs[1..], path);
      NormalWrites(vs[0]);
      NoNanInside(vs[0]);
      NormalDictionary(vs[0].entries, path);
      var all := NormalAll(vs);
      assert all[0] == Normal(vs[0]) && all[1..] == NormalAll(vs[1..]);
      forall i | 0 <= i < |vs| ensures Valid(all[i]) && all[i].Dict? {
        if i > 0 {
          assert all[i] == NormalAll(vs[1..])[i - 1];
        }
      }
      assert Normal(vs[0]) == Dict(NormalPairs(vs[0].entries));
      hide NormalAll, Normal, NormalPairs;
    }
  }

  /** What serialize() writes deserialize() reads back, as a dictionary with equal values, and that one is
      written with the very same bytes. */
  lemma RoundTrip(es: seq<Pair<Value>>)
    requires Valid(Dict(es)) && Serialize(es).Some?
    ensures var back := NormalPairs(es);
      && Deserialize(Serialize(es).value) == Some(back)
      && UnflaggedPairs(back) == UnflaggedPairs(es)
      && Valid(Dict(back)) && Serialize(back) == Serialize(es)
  {
    NoNanInside(Dict(es));
    NormalPairsEqual(es);
    NormalWrites(Dict(es));
    NormalDictionary(es, []);
    hide Valid, HasNan, WriteDictionary, NormalPairs, IsUtf8, Deserialize, WriteValue, UnflaggedPairs;
    WrittenReadsBack(es);
    assert Normal(Dict(es)) == Dict(NormalPairs(es));
  }
}
