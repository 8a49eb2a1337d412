/** The tree that the headers and pairs of a written dictionary build, and the dictionary it merges to. */
module TomlTables {
  import opened Wrappers
  import opened SortedMaps
  import opened TomlTree
  import opened TomlLeaves
  import opened TomlValues
  import opened TomlDocument
  import opened TomlReadsBack
  import O = NumberOrder

  // ---- the lines of a dictionary ----

  function Lines(es: seq<Pair<Value>>): (r: seq<Event>)
    ensures forall i :: 0 <= i < |r| ==> IsEvent(r[i])
    decreases es, 0
  {
    if es == [] then []
    else (if WrittenAsTable(es[0].value) then [] else [Line([es[0].key], Normal(es[0].value))]) + Lines(es[1..])
  }

  function Events(es: seq<Pair<Value>>, path: seq<string>): (r: seq<Event>)
    ensures forall i :: 0 <= i < |r| ==> IsEvent(r[i])
    decreases es, 2
  {
    Lines(es) + TableEvents(es, path)
  }

  function TableEvents(es: seq<Pair<Value>>, path: seq<string>): (r: seq<Event>)
    ensures forall i :: 0 <= i < |r| ==> IsEvent(r[i])
    decreases es, 1
  {
    if es == [] then []
    else
      (if WrittenAsTable(es[0].value) then EventsOf(es[0].value, path + [es[0].key]) else [])
      + TableEvents(es[1..], path)
  }

  function EventsOf(v: Value, path: seq<string>): (r: seq<Event>)
    requires WrittenAsTable(v) && path != []
    ensures forall i :: 0 <= i < |r| ==> IsEvent(r[i])
    decreases v, 3
  {
    if v.Dict? then [Header(path, false)] + Events(v.entries, path) else ArrayEvents(v.elements, path)
  }

  function ArrayEvents(vs: seq<Value>, path: seq<string>): (r: seq<Event>)
    requires (forall i :: 0 <= i < |vs| ==> vs[i].Dict?) && path != []
    ensures forall i :: 0 <= i < |r| ==> IsEvent(r[i])
    decreases vs, 0
  {
    if vs == [] then []
    else [Header(path, true)] + Events(vs[0].entries, path) + ArrayEvents(vs[1..], path)
  }

  lemma {:induction false} ApplyConcat(st: State, a: seq<Event>, b: seq<Event>)
    requires IsState(st) && AllEvents(a) && AllEvents(b)
    ensures AllEvents(a + b)
    ensures ApplyAll(st, a + b)
            == match ApplyAll(st, a)
               case None => None
               case Some(next) => ApplyAll(next, b)
    decreases |a|
  {
    hide IsState, Apply;
    if a == [] {
      assert a + b == b;
    } else {
      assert (a + b)[0] == a[0] && (a + b)[1..] == a[1..] + b;
      if Apply(st, a[0]).Some? {
        ApplyKeeps(st, a[0]);
        ApplyConcat(Apply(st, a[0]).value, a[1..], b);
      }
    }
  }

  // ---- the tree they build ----

  /** The entries that are written as tables, or the others, as they are read back. */
  function Chosen(es: seq<Pair<Value>>, asTables: bool): seq<Pair<Value>>
    decreases es, 0
  {
    if es == [] then []
    else
      (if WrittenAsTable(es[0].value) == asTables then [Pair(es[0].key, Normal(es[0].value))] else [])
      + Chosen(es[1..], asTables)
  }

  function Plain(es: seq<Pair<Value>>): seq<Pair<Value>> {
    Chosen(es, false)
  }

  /** An empty table with the entries of a dictionary put in. */
  function Build(n: Node, es: seq<Pair<Value>>): Node
    decreases es, 2
  {
    n.(pairs := Plain(es), tables := Tables(es))
  }

  function Tables(es: seq<Pair<Value>>): seq<Pair<Node>>
    decreases es, 1
  {
    if es == [] then []
    else
      (if WrittenAsTable(es[0].value) then [Pair(es[0].key, TableOf(es[0].value))] else []) + Tables(es[1..])
  }

  const NAMED := FRESH.(named := true)

  function ArrayOf(elements: seq<Node>): Node {
    FRESH.(isArray := true, elements := elements)
  }

  function TableOf(v: Value): Node
    requires WrittenAsTable(v)
    decreases v, 3
  {
    if v.Dict? then Build(NAMED, v.entries) else ArrayOf(Elements(v.elements))
  }

  function Elements(vs: seq<Value>): (r: seq<Node>)
    requires forall i :: 0 <= i < |vs| ==> vs[i].Dict?
    ensures |r| == |vs|
    decreases vs, 0
  {
    if vs == [] then [] else [Build(FRESH, vs[0].entries)] + Elements(vs[1..])
  }

  // ---- pairs ----

  /** A pair with a key after all others goes last into the table at the path. */
  lemma {:induction false} OneLine(root: Node, path: seq<string>, key: string, v: Value)
    requires IsState(State(root, path)) && NodeAt(root, path).tables == []
    requires forall i :: 0 <= i < |NodeAt(root, path).pairs| ==> O.Lex(NodeAt(root, path).pairs[i].key, key) < 0
    ensures var n := NodeAt(root, path); var m := n.(pairs := n.pairs + [Pair(key, v)]);
      && Sound(m) && !m.isArray
      && Apply(State(root, path), Line([key], v)) == Some(State(ReplaceAt(root, path, m), path))
      && IsState(State(ReplaceAt(root, path, m), path)) && NodeAt(ReplaceAt(root, path, m), path) == m
  {
    var n := NodeAt(root, path);
    hide Sound, AddPair;
    AddLast(n, key, v);
    NodeSound(root, path);
    AddPairSound(n, [key], v);
    ReplacedAt(root, path, n.(pairs := n.pairs + [Pair(key, v)]));
  }

  lemma ReplacedOver(root: Node, path: seq<string>, a: Node, b: Node)
    requires IsState(State(root, path)) && Sound(a) && !a.isArray
    ensures Reaches(ReplaceAt(root, path, a), path)
    ensures ReplaceAt(ReplaceAt(root, path, a), path, b) == ReplaceAt(root, path, b)
  {
    hide Sound, Reaches, ReplaceAt;
    ReplacedTwice(root, path, a, b);
  }

  lemma KeysGoOn(pairs: seq<Pair<Value>>, es: seq<Pair<Value>>, v: Value)
    requires Sorted(es) && es != [] && AllBefore(pairs, es)
    ensures Sorted(es[1..]) && AllBefore(pairs, es[1..])
    ensures forall i :: 0 <= i < |pairs| ==> O.Lex(pairs[i].key, es[0].key) < 0
    ensures AllBefore(pairs + [Pair(es[0].key, v)], es[1..])
  {
    SortedHead(es);
  }

  lemma PlainFirst(pairs: seq<Pair<Value>>, es: seq<Pair<Value>>)
    requires es != []
    ensures WrittenAsTable(es[0].value) ==> Lines(es) == Lines(es[1..]) && Plain(es) == Plain(es[1..])
    ensures !WrittenAsTable(es[0].value) ==>
              Lines(es) == [Line([es[0].key], Normal(es[0].value))] + Lines(es[1..])
              && pairs + [Pair(es[0].key, Normal(es[0].value))] + Plain(es[1..]) == pairs + Plain(es)
  {
    hide Normal, WrittenAsTable;
    var x := Pair(es[0].key, Normal(es[0].value));
    if !WrittenAsTable(es[0].value) {
      assert Plain(es) == [x] + Plain(es[1..]);
      hide Plain;
      Associates(pairs, x, Plain(es[1..]));
    }
  }

  /** The pairs of a dictionary are put into the table at the path, one after the other. */
  lemma {:induction false} LinesApply(root: Node, path: seq<string>, es: seq<Pair<Value>>)
    requires IsState(State(root, path)) && Sorted(es)
    requires NodeAt(root, path).tables == [] && AllBefore(NodeAt(root, path).pairs, es)
    ensures var n := NodeAt(root, path);
      ApplyAll(State(root, path), Lines(es)) == Some(State(ReplaceAt(root, path, n.(pairs := n.pairs + Plain(es))), path))
    decreases es
  {
    var n := NodeAt(root, path);
    if es == [] {
      hide IsState, NodeAt, ReplaceAt;
      assert n.pairs + Plain(es) == n.pairs;
      SameReplaced(root, path);
    } else {
      hide NodeAt, ReplaceAt, Apply, Sound, Reaches, Normal, WrittenAsTable, Lines, Plain, AllBefore, Sorted;
      var v := Normal(es[0].value);
      KeysGoOn(n.pairs, es, v);
      PlainFirst(n.pairs, es);
      if WrittenAsTable(es[0].value) {
        LinesApply(root, path, es[1..]);
      } else {
        var m := n.(pairs := n.pairs + [Pair(es[0].key, v)]);
        OneLine(root, path, es[0].key, v);
        var next := ReplaceAt(root, path, m);
        LinesApply(next, path, es[1..]);
        ReplacedOver(root, path, m, m.(pairs := m.pairs + Plain(es[1..])));
        FirstApplied(State(root, path), Line([es[0].key], v), Lines(es[1..]));
      }
    }
  }

  lemma FirstApplied(st: State, e: Event, more: seq<Event>)
    requires IsState(st) && IsEvent(e) && AllEvents(more)
    ensures AllEvents([e] + more)
    ensures Apply(st, e).Some? ==> IsState(Apply(st, e).value)
                                   && ApplyAll(st, [e] + more) == ApplyAll(Apply(st, e).value, more)
  {
    hide IsState, Apply;
    assert ([e] + more)[1..] == more;
    if Apply(st, e).Some? {
      ApplyKeeps(st, e);
    }
  }

  lemma {:induction false} SameReplaced(root: Node, path: seq<string>)
    requires IsState(State(root, path))
    ensures ReplaceAt(root, path, NodeAt(root, path)) == root
    decreases |path|
  {
    if path != [] {
      NextSound(root, path[0]);
      SortedTables(root);
      var child := Get(root.tables, path[0]);
      hide Sound;
      SameReplaced(Target(child), path[1..]);
      WithSame(child);
      PutSame(root.tables, path[0]);
    }
  }

  lemma WithSame(child: Node)
    requires child.isArray ==> child.elements != []
    ensures WithTarget(child, Target(child)) == child
  {
  }

  // ---- tables ----

  /** A header opens a child of the table at a path. */
  lemma HeaderApplies(root: Node, from: seq<string>, path: seq<string>, key: string, isArray: bool, child: Node)
    requires IsState(State(root, from)) && IsState(State(root, path)) && Sound(NodeAt(root, path))
    requires Open(NodeAt(root, path), [key], isArray) == Some(Under1(NodeAt(root, path), key, child))
    requires child.isArray ==> child.elements != []
    ensures var n := NodeAt(root, path); var m := Under1(n, key, child);
      && Sound(m) && !m.isArray
      && Apply(State(root, from), Header(path + [key], isArray)) == Some(State(ReplaceAt(root, path, m), path + [key]))
      && IsState(State(ReplaceAt(root, path, m), path + [key])) && IsState(State(ReplaceAt(root, path, m), path))
      && NodeAt(ReplaceAt(root, path, m), path) == m && NodeAt(ReplaceAt(root, path, m), path + [key]) == Target(child)
  {
    var n := NodeAt(root, path);
    var m := Under1(n, key, child);
    hide Sound, Open;
    NodeSound(root, path);
    OpenSound(n, [key], isArray);
    OpenBelow(root, path, key, isArray);
    ReplacedAt(root, path, m);
    OpenSound(root, path + [key], isArray);
    SortedTables(n);
    PutGet(n.tables, key, child, key);
    hide Reaches, ReplaceAt;
    OneFurther(ReplaceAt(root, path, m), path, key);
  }

  /** A table with a child under a key. */
  function Under1(n: Node, key: string, child: Node): Node {
    n.(tables := Put(n.tables, key, child))
  }

  lemma OpenNamed(n: Node, key: string)
    requires Sound(n) && !Has(n.pairs, key) && !Has(n.tables, key)
    ensures Open(n, [key], false) == Some(Under1(n, key, NAMED))
  {
    hide Sound;
  }

  lemma {:induction false} OpenElement(n: Node, key: string, done: seq<Node>)
    requires Sound(n) && !Has(n.pairs, key)
    requires if done == [] then !Has(n.tables, key) else Has(n.tables, key) && Get(n.tables, key) == ArrayOf(done)
    ensures Open(n, [key], true) == Some(Under1(n, key, ArrayOf(done + [FRESH])))
  {
    hide Sound;
    assert [] + [FRESH] == [FRESH];
  }

  /** Filling the target of a child fills that child of the table at the path. */
  lemma ChildFilled(root: Node, path: seq<string>, key: string, child: Node, b: Node)
    requires IsState(State(root, path)) && Sound(Under1(NodeAt(root, path), key, child)) && !NodeAt(root, path).isArray
    requires child.isArray ==> child.elements != []
    requires IsState(State(ReplaceAt(root, path, Under1(NodeAt(root, path), key, child)), path + [key]))
    ensures var n := NodeAt(root, path);
      ReplaceAt(ReplaceAt(root, path, Under1(n, key, child)), path + [key], b)
      == ReplaceAt(root, path, Under1(n, key, WithTarget(child, b)))
  {
    var n := NodeAt(root, path);
    var m := Under1(n, key, child);
    hide Sound, Reaches, ReplaceAt;
    NodeSound(root, path);
    SortedTables(n);
    ReplacedAt(root, path, m);
    ReplaceFurther(ReplaceAt(root, path, m), path, key, b);
    PutGet(n.tables, key, child, key);
    PutTwice(n.tables, key, child, WithTarget(child, b));
    ReplacedTwice(root, path, m, Under1(n, key, WithTarget(child, b)));
  }

  /** What is left of a dictionary's tables has keys the table at the path does not have yet. */
  predicate TablesAhead(n: Node, es: seq<Pair<Value>>) {
    && Sorted(es) && (forall i, j :: 0 <= i < |n.tables| && 0 <= j < |es| ==> O.Lex(n.tables[i].key, es[j].key) < 0)
    && (forall j :: 0 <= j < |es| && WrittenAsTable(es[j].value) ==> !Has(n.pairs, es[j].key))
    && (forall j :: 0 <= j < |es| ==> Valid(es[j].value))
  }

  lemma {:induction false} TablesGoOn(n: Node, es: seq<Pair<Value>>, child: Node)
    requires TablesAhead(n, es) && es != []
    ensures Valid(es[0].value) && TablesAhead(n, es[1..])
    ensures TablesAhead(n.(tables := n.tables + [Pair(es[0].key, child)]), es[1..])
    ensures WrittenAsTable(es[0].value) ==> !Has(n.pairs, es[0].key)
    ensures Put(n.tables, es[0].key, child) == n.tables + [Pair(es[0].key, child)] && !Has(n.tables, es[0].key)
  {
    hide Valid, WrittenAsTable;
    SortedHead(es);
    PutLast(n.tables, es[0].key, child);
  }

  lemma TablesFirst(tables: seq<Pair<Node>>, es: seq<Pair<Value>>, path: seq<string>)
    requires es != []
    ensures !WrittenAsTable(es[0].value) ==> TableEvents(es, path) == TableEvents(es[1..], path) && Tables(es) == Tables(es[1..])
    ensures WrittenAsTable(es[0].value) ==>
              TableEvents(es, path) == EventsOf(es[0].value, path + [es[0].key]) + TableEvents(es[1..], path)
              && tables + [Pair(es[0].key, TableOf(es[0].value))] + Tables(es[1..]) == tables + Tables(es)
  {
    hide WrittenAsTable, EventsOf, TableOf;
    if WrittenAsTable(es[0].value) {
      var x := Pair(es[0].key, TableOf(es[0].value));
      assert Tables(es) == [x] + Tables(es[1..]);
      hide Tables, TableEvents;
      Associates(tables, x, Tables(es[1..]));
    }
  }

  /** The state after lines that apply. */
  function After(st: State, events: seq<Event>): (r: State)
    requires IsState(st) && AllEvents(events) && ApplyAll(st, events).Some?
    ensures IsState(r)
  {
    ApplyAll(st, events).value
  }

  predicate Leads(st: State, events: seq<Event>, root: Node)
    requires IsState(st) && AllEvents(events)
  {
    ApplyAll(st, events).Some? && ApplyAll(st, events).value.root == root
  }

  lemma LeadsOn(st: State, a: seq<Event>, b: seq<Event>, middle: Node, end: Node)
    requires IsState(st) && AllEvents(a) && AllEvents(b) && Leads(st, a, middle)
    requires Leads(After(st, a), b, end)
    ensures AllEvents(a + b) && Leads(st, a + b, end)
  {
    hide IsState;
    ApplyConcat(st, a, b);
  }

  // ---- the entries of each kind ----

  lemma {:induction false} ChosenAbove(key: string, es: seq<Pair<Value>>, asTables: bool)
    requires forall j :: 0 <= j < |es| ==> O.Lex(key, es[j].key) < 0
    ensures forall i :: 0 <= i < |Chosen(es, asTables)| ==> O.Lex(key, Chosen(es, asTables)[i].key) < 0
    decreases es
  {
    hide Normal, WrittenAsTable, O.Lex;
    if es != [] {
      ChosenAbove(key, es[1..], asTables);
    }
  }

  lemma {:induction false} ChosenSorted(es: seq<Pair<Value>>, asTables: bool)
    requires Sorted(es)
    ensures Sorted(Chosen(es, asTables))
    decreases es
  {
    hide Normal, WrittenAsTable, O.Lex;
    if es != [] {
      SortedHead(es);
      ChosenSorted(es[1..], asTables);
      assert forall j :: 0 <= j < |es[1..]| ==> es[1..][j] in es[1..];
      ChosenAbove(es[0].key, es[1..], asTables);
    }
  }

  predicate IsChosen(e: Pair<Value>, es: seq<Pair<Value>>, asTables: bool) {
    exists i :: 0 <= i < |es| && WrittenAsTable(es[i].value) == asTables && e == Pair(es[i].key, Normal(es[i].value))
  }

  lemma {:induction false} ChosenHolds(es: seq<Pair<Value>>, asTables: bool, e: Pair<Value>)
    ensures e in Chosen(es, asTables) <==> IsChosen(e, es, asTables)
    decreases es
  {
    hide Normal, WrittenAsTable;
    if es != [] {
      ChosenHolds(es[1..], asTables, e);
      if IsChosen(e, es[1..], asTables) {
        var i :| 0 <= i < |es| - 1 && WrittenAsTable(es[1..][i].value) == asTables
                 && e == Pair(es[1..][i].key, Normal(es[1..][i].value));
        assert es[i + 1] == es[1..][i];
      }
      if IsChosen(e, es, asTables) {
        var i :| 0 <= i < |es| && WrittenAsTable(es[i].value) == asTables && e == Pair(es[i].key, Normal(es[i].value));
        if i > 0 {
          assert es[i] == es[1..][i - 1];
        }
      }
    }
  }

  lemma SameKeySameEntry(es: seq<Pair<Value>>, i: nat, j: nat)
    requires Sorted(es) && i < |es| && j < |es| && es[i].key == es[j].key
    ensures i == j
  {
    LexEqual(es[i].key, es[i].key);
  }

  /** An entry of one kind has no key among those of the other. */
  lemma ChosenApart(es: seq<Pair<Value>>, asTables: bool, j: nat)
    requires Sorted(es) && j < |es| && WrittenAsTable(es[j].value) != asTables
    ensures !Has(Chosen(es, asTables), es[j].key)
  {
    hide Normal, WrittenAsTable, Sorted;
    var chosen := Chosen(es, asTables);
    if Has(chosen, es[j].key) {
      var k := IndexOf(chosen, es[j].key);
      ChosenHolds(es, asTables, chosen[k]);
      var i :| 0 <= i < |es| && WrittenAsTable(es[i].value) == asTables
               && chosen[k] == Pair(es[i].key, Normal(es[i].value));
      SameKeySameEntry(es, i, j);
    }
  }

  /** Both kinds together are all entries. */
  lemma {:induction false} ChosenTogether(es: seq<Pair<Value>>)
    requires Sorted(es)
    ensures PutAll(Chosen(es, false), Chosen(es, true)) == NormalPairs(es)
  {
    var a, b, all := Chosen(es, false), Chosen(es, true), NormalPairs(es);
    ChosenSorted(es, false);
    ChosenSorted(es, true);
    NormalSorted(es);
    NormalPairsAre(es);
    hide Normal, WrittenAsTable, Chosen, NormalPairs, PutAll;
    PutAllHolds(a, b, Pair("", Truth(true)));
    forall e: Pair<Value> ensures e in PutAll(a, b) <==> e in all {
      PutAllHolds(a, b, e);
      ChosenHolds(es, false, e);
      ChosenHolds(es, true, e);
      if IsChosen(e, es, false) {
        var i :| 0 <= i < |es| && !WrittenAsTable(es[i].value) && e == Pair(es[i].key, Normal(es[i].value));
        ChosenApart(es, true, i);
        assert all[i] == e;
      }
      if IsChosen(e, es, true) {
        var i :| 0 <= i < |es| && WrittenAsTable(es[i].value) && e == Pair(es[i].key, Normal(es[i].value));
        assert all[i] == e;
      }
      if e in all {
        var i :| 0 <= i < |all| && all[i] == e;
        assert IsChosen(e, es, WrittenAsTable(es[i].value));
      }
    }
    SameEntries(PutAll(a, b), all);
  }

  lemma {:induction false} TablesKeys(es: seq<Pair<Value>>)
    ensures |Tables(es)| == |Chosen(es, true)|
    ensures forall i :: 0 <= i < |Tables(es)| ==> Tables(es)[i].key == Chosen(es, true)[i].key
    decreases es
  {
    hide Normal, WrittenAsTable, TableOf;
    if es != [] {
      TablesKeys(es[1..]);
    }
  }

  /** No key is among both kinds. */
  lemma KindsApart(es: seq<Pair<Value>>)
    requires Sorted(es)
    ensures Sorted(Tables(es))
    ensures forall i, j :: 0 <= i < |Plain(es)| && 0 <= j < |Tables(es)| ==> Plain(es)[i].key != Tables(es)[j].key
  {
    var a, b := Plain(es), Chosen(es, true);
    ChosenSorted(es, true);
    TablesKeys(es);
    hide Normal, WrittenAsTable, Tables, Chosen;
    forall i, j | 0 <= i < |a| && 0 <= j < |b| ensures a[i].key != b[j].key {
      ChosenHolds(es, true, b[j]);
      var k :| 0 <= k < |es| && WrittenAsTable(es[k].value) && b[j] == Pair(es[k].key, Normal(es[k].value));
      ChosenApart(es, false, k);
    }
  }

  lemma {:induction false} BuildSound(n: Node, es: seq<Pair<Value>>)
    requires Valid(Dict(es)) && (n == FRESH || n == NAMED)
    ensures Sound(Build(n, es)) && !Build(n, es).isArray
    decreases es, 2
  {
    SortedDict(es);
    EntriesValid(es);
    hide Valid;
    ChosenSorted(es, false);
    KindsApart(es);
    TablesSound(es);
    hide Tables, Chosen, Sorted;
  }

  lemma EntriesValid(es: seq<Pair<Value>>)
    requires Valid(Dict(es))
    ensures AllValid(es)
  {
  }

  lemma {:induction false} TablesSound(es: seq<Pair<Value>>)
    requires AllValid(es)
    ensures forall i :: 0 <= i < |Tables(es)| ==> Sound(Tables(es)[i].value)
    decreases es, 1
  {
    hide Valid, WrittenAsTable, Sound, TableOf;
    if es != [] {
      if WrittenAsTable(es[0].value) {
        TableSound(es[0].value);
      }
      TablesSound(es[1..]);
    }
  }

  lemma {:induction false} TableSound(v: Value)
    requires Valid(v) && WrittenAsTable(v)
    ensures Sound(TableOf(v))
    decreases v, 3
  {
    if v.Dict? {
      hide Valid;
      BuildSound(NAMED, v.entries);
    } else {
      ValidElements(v);
      ElementsSound(v.elements);
      hide Elements;
    }
  }

  predicate ValidTables(vs: seq<Value>) {
    forall i :: 0 <= i < |vs| ==> Valid(vs[i]) && vs[i].Dict?
  }

  lemma ValidElements(v: Value)
    requires Valid(v) && IsArrayOfTables(v)
    ensures ValidTables(v.elements)
  {
  }

  lemma {:induction false} ElementsSound(vs: seq<Value>)
    requires ValidTables(vs)
    ensures forall i :: 0 <= i < |Elements(vs)| ==> Sound(Elements(vs)[i]) && !Elements(vs)[i].isArray
    decreases vs, 0
  {
    hide Valid, Sound, Build;
    if vs != [] {
      assert Valid(vs[0]) && vs[0] == Dict(vs[0].entries);
      BuildSound(FRESH, vs[0].entries);
      ElementsSound(vs[1..]);
    }
  }

  // ---- dictionaries ----

  lemma PlainSound(n: Node, es: seq<Pair<Value>>)
    requires Sound(n) && !n.isArray && n.tables == [] && Sorted(es)
    ensures Sound(n.(pairs := Plain(es)))
  {
    ChosenSorted(es, false);
  }

  lemma AheadOfPlain(n: Node, es: seq<Pair<Value>>)
    requires Valid(Dict(es)) && n.tables == []
    ensures TablesAhead(n.(pairs := Plain(es)), es)
  {
    forall j | 0 <= j < |es| && WrittenAsTable(es[j].value) ensures !Has(Plain(es), es[j].key) {
      ChosenApart(es, false, j);
    }
    hide Chosen, WrittenAsTable;
  }

  lemma LeadsFrom(st: State, a: seq<Event>, b: seq<Event>, middle: Node, end: Node)
    requires IsState(st) && AllEvents(a) && AllEvents(b) && Leads(st, a, middle)
    requires Leads(State(middle, After(st, a).path), b, end)
    ensures AllEvents(a + b) && Leads(st, a + b, end)
  {
    hide IsState, ApplyAll;
    LeadsOn(st, a, b, middle, end);
  }

  /** The lines of a dictionary's pairs fill an empty table with them. */
  lemma PlainApplies(root: Node, path: seq<string>, es: seq<Pair<Value>>)
    requires IsState(State(root, path)) && Valid(Dict(es))
    requires NodeAt(root, path).pairs == [] && NodeAt(root, path).tables == []
    ensures var m := NodeAt(root, path).(pairs := Plain(es)); var next := ReplaceAt(root, path, m);
      && Sound(m) && !m.isArray && TablesAhead(m, es) && Leads(State(root, path), Lines(es), next)
      && IsState(State(next, path)) && NodeAt(next, path) == m && After(State(root, path), Lines(es)).path == path
  {
    var n := NodeAt(root, path);
    hide Valid, Sound, Reaches, Lines, Plain, NodeAt, ReplaceAt, TablesAhead, ApplyAll, AllBefore;
    SortedDict(es);
    NodeSound(root, path);
    PlainSound(n, es);
    AheadOfPlain(n, es);
    assert n.pairs + Plain(es) == Plain(es);
    NothingBefore(es);
    LinesApply(root, path, es);
    ReplacedAt(root, path, n.(pairs := Plain(es)));
  }

  /** The lines of a dictionary fill an empty table at their path. */
  lemma {:induction false} DictionaryApplies(root: Node, path: seq<string>, es: seq<Pair<Value>>)
    requires IsState(State(root, path)) && Valid(Dict(es))
    requires NodeAt(root, path).pairs == [] && NodeAt(root, path).tables == []
    ensures Leads(State(root, path), Events(es, path), ReplaceAt(root, path, Build(NodeAt(root, path), es)))
    decreases es, 2
  {
    var n := NodeAt(root, path);
    var m := n.(pairs := Plain(es));
    var built := Build(n, es);
    assert [] + Tables(es) == Tables(es);
    assert built == m.(tables := Tables(es)) && Events(es, path) == Lines(es) + TableEvents(es, path);
    hide Valid, Sound, Lines, TableEvents, Plain, Tables, NodeAt, ReplaceAt, TablesAhead, ApplyAll, Build, Events, Leads;
    PlainApplies(root, path, es);
    var next := ReplaceAt(root, path, m);
    TablesApply(next, path, path, es);
    ReplacedOver(root, path, m, built);
    LeadsFrom(State(root, path), Lines(es), TableEvents(es, path), next, ReplaceAt(root, path, built));
  }

  lemma SortedDict(es: seq<Pair<Value>>)
    requires Valid(Dict(es))
    ensures Sorted(es)
  {
  }

  lemma NothingBefore(es: seq<Pair<Value>>)
    ensures AllBefore<Value>([], es)
  {
  }

  /** The headers of a dictionary's tables, and what is under them, add those tables. */
  lemma {:induction false} TablesApply(root: Node, from: seq<string>, path: seq<string>, es: seq<Pair<Value>>)
    requires IsState(State(root, from)) && IsState(State(root, path)) && TablesAhead(NodeAt(root, path), es)
    ensures var n := NodeAt(root, path);
      Leads(State(root, from), TableEvents(es, path), ReplaceAt(root, path, n.(tables := n.tables + Tables(es))))
    decreases es, 1
  {
    var n := NodeAt(root, path);
    if es == [] {
      hide IsState, NodeAt, ReplaceAt;
      assert n.tables + Tables(es) == n.tables;
      SameReplaced(root, path);
    } else {
      hide Valid, Sound, Reaches, TableEvents, Tables, NodeAt, ReplaceAt, TablesAhead, ApplyAll, WrittenAsTable, EventsOf,
           TableOf, Put, AllEvents;
      TablesFirst(n.tables, es, path);
      if WrittenAsTable(es[0].value) {
        var child := TableOf(es[0].value);
        TablesGoOn(n, es, child);
        TableApplies(root, from, path, es[0].key, es[0].value);
        var m := Under1(n, es[0].key, child);
        var next := ReplaceAt(root, path, m);
        var a, b := EventsOf(es[0].value, path + [es[0].key]), TableEvents(es[1..], path);
        TablesApply(next, After(State(root, from), a).path, path, es[1..]);
        ReplacedOver(root, path, m, m.(tables := m.tables + Tables(es[1..])));
        LeadsOn(State(root, from), a, b, next, ReplaceAt(root, path, n.(tables := n.tables + Tables(es))));
      } else {
        TablesGoOn(n, es, FRESH);
        TablesApply(root, from, path, es[1..]);
      }
    }
  }

  /** A named table's header and what is under it add that table under its key. */
  lemma {:induction false} NamedApplies(root: Node, from: seq<string>, path: seq<string>, key: string, v: Value)
    requires IsState(State(root, from)) && IsState(State(root, path)) && Valid(v) && v.Dict?
    requires !Has(NodeAt(root, path).pairs, key) && !Has(NodeAt(root, path).tables, key)
    ensures Leads(State(root, from), [Header(path + [key], false)] + Events(v.entries, path + [key]),
                  ReplaceAt(root, path, Under1(NodeAt(root, path), key, Build(NAMED, v.entries))))
    decreases v, 3
  {
    var n, at := NodeAt(root, path), path + [key];
    hide Valid, Sound, Reaches, Events, NodeAt, ReplaceAt, ApplyAll, Put, Build, Has, Open, Apply, Leads;
    assert v == Dict(v.entries);
    NodeSound(root, path);
    OpenNamed(n, key);
    HeaderApplies(root, from, path, key, false, NAMED);
    var next := ReplaceAt(root, path, Under1(n, key, NAMED));
    var b := Build(NAMED, v.entries);
    DictionaryApplies(next, at, v.entries);
    FirstLeads(State(root, from), Header(at, false), Events(v.entries, at), ReplaceAt(next, at, b));
    ChildFilled(root, path, key, NAMED, b);
  }

  /** A table's headers and what is under them add that table under its key. */
  lemma {:induction false} TableApplies(root: Node, from: seq<string>, path: seq<string>, key: string, v: Value)
    requires IsState(State(root, from)) && IsState(State(root, path)) && Valid(v) && WrittenAsTable(v)
    requires !Has(NodeAt(root, path).pairs, key) && !Has(NodeAt(root, path).tables, key)
    ensures var m := Under1(NodeAt(root, path), key, TableOf(v));
      && Sound(m) && !m.isArray && Leads(State(root, from), EventsOf(v, path + [key]), ReplaceAt(root, path, m))
      && IsState(State(ReplaceAt(root, path, m), path)) && NodeAt(ReplaceAt(root, path, m), path) == m
    decreases v, 4
  {
    hide Valid, Sound, Reaches, Events, ArrayEvents, NodeAt, ReplaceAt, ApplyAll, Under1, Build, Elements, Has, Leads,
         ArrayReady;
    FilledSound(root, path, key, v);
    if v.Dict? {
      NamedApplies(root, from, path, key, v);
    } else {
      ValidElements(v);
      ArrayStarts(root, path, key);
      ArrayApplies(root, from, path, key, [], v.elements);
      assert [] + Elements(v.elements) == Elements(v.elements);
    }
  }

  lemma ArrayStarts(root: Node, path: seq<string>, key: string)
    requires IsState(State(root, path)) && !Has(NodeAt(root, path).pairs, key) && !Has(NodeAt(root, path).tables, key)
    ensures ArrayReady(root, path, key, [])
  {
    NodeSound(root, path);
  }

  lemma FilledSound(root: Node, path: seq<string>, key: string, v: Value)
    requires IsState(State(root, path)) && Valid(v) && WrittenAsTable(v) && !Has(NodeAt(root, path).pairs, key)
    ensures var m := Under1(NodeAt(root, path), key, TableOf(v));
      && Sound(m) && !m.isArray
      && IsState(State(ReplaceAt(root, path, m), path)) && NodeAt(ReplaceAt(root, path, m), path) == m
  {
    hide Sound, Valid, WrittenAsTable, TableOf;
    NodeSound(root, path);
    TableSound(v);
    PutTableSound(NodeAt(root, path), key, TableOf(v));
    ReplacedAt(root, path, Under1(NodeAt(root, path), key, TableOf(v)));
  }

  lemma FirstLeads(st: State, e: Event, more: seq<Event>, end: Node)
    requires IsState(st) && IsEvent(e) && AllEvents(more) && Apply(st, e).Some? && IsState(Apply(st, e).value)
    requires Leads(Apply(st, e).value, more, end)
    ensures AllEvents([e] + more) && Leads(st, [e] + more, end)
  {
    hide IsState, Apply, ApplyAll;
    FirstApplied(st, e, more);
  }

  lemma ArraySound(done: seq<Node>)
    requires done != [] && forall i :: 0 <= i < |done| ==> Sound(done[i]) && !done[i].isArray
    ensures Sound(ArrayOf(done))
  {
  }

  lemma ElementFilled(done: seq<Node>, b: Node)
    ensures WithTarget(ArrayOf(done + [FRESH]), b) == ArrayOf(done + [b])
  {
  }

  predicate SoundElements(done: seq<Node>) {
    forall i :: 0 <= i < |done| ==> Sound(done[i]) && !done[i].isArray
  }

  /** A header for an array's next element, and what is under it, add that element. */
  lemma {:induction false} ElementApplies(root: Node, from: seq<string>, path: seq<string>, key: string, done: seq<Node>,
                                          v: Value)
    requires IsState(State(root, from)) && IsState(State(root, path)) && Valid(v) && v.Dict?
    requires !Has(NodeAt(root, path).pairs, key) && SoundElements(done)
    requires var ts := NodeAt(root, path).tables;
      if done == [] then !Has(ts, key) else Has(ts, key) && Get(ts, key) == ArrayOf(done)
    ensures var m := Under1(NodeAt(root, path), key, ArrayOf(done + [Build(FRESH, v.entries)]));
      Leads(State(root, from), [Header(path + [key], true)] + Events(v.entries, path + [key]), ReplaceAt(root, path, m))
    decreases v, 3
  {
    var n, at := NodeAt(root, path), path + [key];
    hide Valid, Sound, Reaches, Events, NodeAt, ReplaceAt, ApplyAll, Put, Build, Has, Open, Get, Apply;
    NodeSound(root, path);
    OpenElement(n, key, done);
    var child := ArrayOf(done + [FRESH]);
    HeaderApplies(root, from, path, key, true, child);
    var next := ReplaceAt(root, path, Under1(n, key, child));
    var b := Build(FRESH, v.entries);
    DictionaryApplies(next, at, v.entries);
    FirstLeads(State(root, from), Header(at, true), Events(v.entries, at), ReplaceAt(next, at, b));
    ChildFilled(root, path, key, child, b);
    ElementFilled(done, b);
  }

  lemma {:induction false} ArrayFirst(vs: seq<Value>, path: seq<string>, done: seq<Node>)
    requires ValidTables(vs) && vs != [] && path != []
    ensures Valid(vs[0])
    ensures ArrayEvents(vs, path) == [Header(path, true)] + Events(vs[0].entries, path) + ArrayEvents(vs[1..], path)
    ensures done + [Build(FRESH, vs[0].entries)] + Elements(vs[1..]) == done + Elements(vs)
    ensures |vs| == 1 ==> ArrayEvents(vs, path) == [Header(path, true)] + Events(vs[0].entries, path)
                          && done + Elements(vs) == done + [Build(FRESH, vs[0].entries)]
  {
    hide Events, Build, Valid;
    var b, more := Build(FRESH, vs[0].entries), Elements(vs[1..]);
    assert Elements(vs) == [b] + more;
    Associates(done, b, more);
    if |vs| == 1 {
      var a := [Header(path, true)] + Events(vs[0].entries, path);
      assert ArrayEvents(vs, path) == a + [] == a;
    }
  }

  /** The state an array is in before its next element. */
  predicate ArrayReady(root: Node, path: seq<string>, key: string, done: seq<Node>) {
    && IsState(State(root, path)) && Sound(NodeAt(root, path)) && !NodeAt(root, path).isArray
    && !Has(NodeAt(root, path).pairs, key) && SoundElements(done)
    && var ts := NodeAt(root, path).tables;
       if done == [] then !Has(ts, key) else Has(ts, key) && Get(ts, key) == ArrayOf(done)
  }

  /** The tree with so many elements of an array. */
  function WithArray(root: Node, path: seq<string>, key: string, done: seq<Node>): Node
    requires Reaches(root, path)
  {
    ReplaceAt(root, path, Under1(NodeAt(root, path), key, ArrayOf(done)))
  }

  /** The header of an element of an array, and its lines. */
  function ElementEvents(es: seq<Pair<Value>>, path: seq<string>): (events: seq<Event>)
    requires path != [] && AllValid(es)
    ensures AllEvents(events)
  {
    [Header(path, true)] + Events(es, path)
  }

  lemma {:induction false} ElementAdded(root: Node, from: seq<string>, path: seq<string>, key: string, done: seq<Node>,
                                       v: Value)
    requires IsState(State(root, from)) && ArrayReady(root, path, key, done) && Valid(v) && v.Dict?
    ensures var b := Build(FRESH, v.entries); var next := WithArray(root, path, key, done + [b]);
      && ArrayReady(next, path, key, done + [b])
      && Leads(State(root, from), ElementEvents(v.entries, path + [key]), next)
    decreases v, 4
  {
    hide Valid, Sound, Reaches, Events, NodeAt, ReplaceAt, ApplyAll, Put, Build, Has, Get, SoundElements, Leads;
    assert v == Dict(v.entries);
    BuildSound(FRESH, v.entries);
    ElementApplies(root, from, path, key, done, v);
    ElementPut(root, path, key, done, Build(FRESH, v.entries));
  }

  /** Putting more elements into an array that was put. */
  lemma ArrayTwice(root: Node, path: seq<string>, key: string, done: seq<Node>, all: seq<Node>)
    requires IsState(State(root, path)) && done != [] && SoundElements(done) && !Has(NodeAt(root, path).pairs, key)
    requires ArrayReady(WithArray(root, path, key, done), path, key, done)
    ensures WithArray(WithArray(root, path, key, done), path, key, all) == WithArray(root, path, key, all)
  {
    var n := NodeAt(root, path);
    NodeSound(root, path);
    hide Sound, NodeAt, ReplaceAt, Reaches;
    ArraySound(done);
    PutTableSound(n, key, ArrayOf(done));
    SecondPut(root, path, key, ArrayOf(done), ArrayOf(all));
    ReplacedAt(root, path, Under1(n, key, ArrayOf(done)));
  }

  lemma ArrayRest(vs: seq<Value>)
    requires ValidTables(vs) && vs != []
    ensures Valid(vs[0]) && vs[0].Dict? && ValidTables(vs[1..])
  {
    hide Valid;
  }

  lemma ReadyState(root: Node, path: seq<string>, key: string, done: seq<Node>)
    requires ArrayReady(root, path, key, done)
    ensures IsState(State(root, path)) && SoundElements(done) && !Has(NodeAt(root, path).pairs, key)
  {
  }

  lemma LeadsState(st: State, events: seq<Event>, root: Node)
    requires IsState(st) && AllEvents(events) && Leads(st, events, root)
    ensures ApplyAll(st, events).Some? && IsState(State(root, After(st, events).path))
  {
  }

  /** Each element of an array of tables adds one table to the array under the key. */
  lemma {:induction false} ArrayApplies(root: Node, from: seq<string>, path: seq<string>, key: string, done: seq<Node>,
                                        vs: seq<Value>)
    requires IsState(State(root, from)) && ArrayReady(root, path, key, done) && ValidTables(vs) && vs != []
    ensures Leads(State(root, from), ArrayEvents(vs, path + [key]), WithArray(root, path, key, done + Elements(vs)))
    decreases vs, 0
  {
    var at := path + [key];
    hide Valid, Sound, Reaches, Events, NodeAt, ReplaceAt, ApplyAll, Put, Build, Has, Get, ArrayEvents, Elements,
         SoundElements, Leads, WithArray, ArrayReady;
    ReadyState(root, path, key, done);
    ArrayRest(vs);
    ArrayFirst(vs, at, done);
    var b := Build(FRESH, vs[0].entries);
    ElementAdded(root, from, path, key, done, vs[0]);
    if |vs| > 1 {
      var a := [Header(at, true)] + Events(vs[0].entries, at);
      var next := WithArray(root, path, key, done + [b]);
      LeadsState(State(root, from), a, next);
      ArrayApplies(next, After(State(root, from), a).path, path, key, done + [b], vs[1..]);
      ReadyState(next, path, key, done + [b]);
      ArrayTwice(root, path, key, done + [b], done + Elements(vs));
      LeadsFrom(State(root, from), a, ArrayEvents(vs[1..], at), next, WithArray(root, path, key, done + Elements(vs)));
    }
  }

  lemma {:induction false} ElementPut(root: Node, path: seq<string>, key: string, done: seq<Node>, b: Node)
    requires IsState(State(root, path)) && !Has(NodeAt(root, path).pairs, key)
    requires SoundElements(done) && Sound(b) && !b.isArray
    ensures SoundElements(done + [b])
    ensures var m := Under1(NodeAt(root, path), key, ArrayOf(done + [b]));
      && Sound(m) && !m.isArray
      && IsState(State(ReplaceAt(root, path, m), path)) && NodeAt(ReplaceAt(root, path, m), path) == m
      && Has(m.tables, key) && Get(m.tables, key) == ArrayOf(done + [b]) && !Has(m.pairs, key)
  {
    var n := NodeAt(root, path);
    hide Sound;
    NodeSound(root, path);
    ArraySound(done + [b]);
    SortedTables(n);
    PutTableSound(n, key, ArrayOf(done + [b]));
    PutGet(n.tables, key, ArrayOf(done + [b]), key);
    ReplacedAt(root, path, Under1(n, key, ArrayOf(done + [b])));
  }

  lemma SecondPut(root: Node, path: seq<string>, key: string, a: Node, b: Node)
    requires IsState(State(root, path)) && Sound(Under1(NodeAt(root, path), key, a)) && !NodeAt(root, path).isArray
    requires Reaches(ReplaceAt(root, path, Under1(NodeAt(root, path), key, a)), path)
    requires Sound(NodeAt(root, path))
    ensures var n := NodeAt(root, path);
      ReplaceAt(ReplaceAt(root, path, Under1(n, key, a)), path, Under1(Under1(n, key, a), key, b))
      == ReplaceAt(root, path, Under1(n, key, b)) && Under1(Under1(n, key, a), key, b) == Under1(n, key, b)
  {
    var n := NodeAt(root, path);
    SortedTables(n);
    hide Sound, Reaches, ReplaceAt;
    PutTwice(n.tables, key, a, b);
    ReplacedTwice(root, path, Under1(n, key, a), Under1(n, key, b));
  }

  // ---- merging ----

  /** The tree of a dictionary merges to the dictionary. */
  lemma {:induction false} BuildMerges(n: Node, es: seq<Pair<Value>>)
    requires Valid(Dict(es))
    ensures Merge(Build(n, es)) == NormalPairs(es)
    decreases es, 2
  {
    SortedDict(es);
    EntriesValid(es);
    TablesMerge(es);
    MergeIs(Build(n, es));
    hide Valid, Merge, MergeTables, Chosen, Tables, PutAll;
    ChosenTogether(es);
  }

  lemma {:induction false} TablesMerge(es: seq<Pair<Value>>)
    requires AllValid(es)
    ensures MergeTables(Tables(es)) == Chosen(es, true)
    decreases es, 1
  {
    hide Valid, WrittenAsTable, TableOf, Normal, MergeChild;
    if es != [] {
      TablesMerge(es[1..]);
      if WrittenAsTable(es[0].value) {
        TableMerges(es[0].value);
        assert Tables(es)[1..] == Tables(es[1..]);
      } else {
        assert Tables(es) == Tables(es[1..]);
      }
    }
  }

  lemma {:induction false} TableMerges(v: Value)
    requires Valid(v) && WrittenAsTable(v)
    ensures MergeChild(TableOf(v)) == Normal(v)
    decreases v, 3
  {
    if v.Dict? {
      BuildMerges(NAMED, v.entries);
      hide Merge, Valid;
    } else {
      ValidElements(v);
      ElementsMerge(v.elements);
      hide Elements, Valid;
    }
  }

  lemma {:induction false} ElementsMerge(vs: seq<Value>)
    requires ValidTables(vs)
    ensures MergeElements(Elements(vs)) == NormalAll(vs)
    decreases vs, 0
  {
    hide Valid, Merge, Build;
    if vs != [] {
      assert Valid(vs[0]) && vs[0] == Dict(vs[0].entries);
      BuildMerges(FRESH, vs[0].entries);
      ElementsMerge(vs[1..]);
      assert Elements(vs)[1..] == Elements(vs[1..]);
    }
  }
}
