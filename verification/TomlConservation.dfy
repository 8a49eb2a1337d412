/** What an accepted document holds: exactly the values of its pairs, each where its header and keys put
    it, whatever headers, dotted keys and arrays of tables it is made of. */
module TomlConservation {
  import opened Wrappers
  import opened SortedMaps
  import opened TomlText
  import opened TomlTree
  import opened TomlLeaves
  import opened TomlDocument

  /** Where the pairs of some lines put their values. */
  function Placed(st: State, events: seq<Event>): map<seq<Step>, Value>
    requires IsState(st) && AllEvents(events) && ApplyAll(st, events).Some?
    decreases |events|
  {
    if events == [] then map[]
    else
      ApplyKeeps(st, events[0]);
      var later := Placed(Apply(st, events[0]).value, events[1..]);
      match events[0]
      case Header(_, _) => later
      case Line(keys, v) => later[Place(st.root, st.path) + Unders(keys) := v]
  }

  /** After any accepted lines each place has the value a pair put there, or the one from before. */
  lemma {:induction false} LinesConserve(st: State, events: seq<Event>, p: seq<Step>)
    requires IsState(st) && AllEvents(events) && ApplyAll(st, events).Some?
    ensures var placed := Placed(st, events);
      && (p in placed ==> Leaf(st.root, p) == None)
      && Leaf(ApplyAll(st, events).value.root, p) == if p in placed then Some(placed[p]) else Leaf(st.root, p)
    decreases |events|
  {
    if events != [] {
      var e := events[0];
      ApplyKeeps(st, e);
      hide Sound, Reaches, Leaf, Place;
      var next := Apply(st, e).value;
      LinesConserve(next, events[1..], p);
      match e {
        case Header(path, isArray) =>
          HeaderAddsNoLeaf(st.root, path, isArray);
        case Line(keys, v) =>
          PairAddsOneLeaf(st.root, st.path, keys, v);
      }
    }
  }

  /** The lines of a text, before any of them is applied. */
  function ReadLines(s: string): (r: Option<seq<Event>>)
    ensures r.Some? ==> AllEvents(r.value)
    decreases |s|
  {
    var t := SkipBlank(s);
    if t == "" then Some([])
    else
      match ReadItem(t)
      case Failed => None
      case Done(e, rest) =>
        match ReadLines(rest)
        case None => None
        case Some(more) => Some([e] + more)
  }

  /** A text is accepted when all of it is lines, and they are accepted one after the other. */
  lemma {:induction false} DocumentIsLines(s: string, st: State)
    requires IsState(st) && Document(s, st).Some?
    ensures ReadLines(s).Some? && ApplyAll(st, ReadLines(s).value) == Document(s, st)
    decreases |s|
  {
    var t := SkipBlank(s);
    hide IsState, Apply, ReadItem;
    if t != "" {
      var e, rest := ReadItem(t).value, ReadItem(t).rest;
      ApplyKeeps(st, e);
      DocumentIsLines(rest, Apply(st, e).value);
      assert ([e] + ReadLines(rest).value)[1..] == ReadLines(rest).value;
    }
  }

  lemma StateSound(st: State)
    requires IsState(st)
    ensures Sound(st.root) && !st.root.isArray
  {
  }

  lemma NothingYet(p: seq<Step>)
    ensures Leaf(FRESH, p) == None
  {
  }

  ghost predicate LeavesAre(n: Node, placed: map<seq<Step>, Value>) {
    forall p :: Leaf(n, p) == if p in placed then Some(placed[p]) else None
  }

  /** All of what was put is found, and nothing simple that was not put. */
  ghost predicate HoldsExactly(es: seq<Pair<Value>>, placed: map<seq<Step>, Value>) {
    && (forall p :: p in placed ==> Found(es, p) == Some(placed[p]))
    && (forall p, v :: Found(es, p) == Some(v) && IsSimple(v) ==> FromPlaced(placed, p, v))
  }

  predicate FromPlaced(placed: map<seq<Step>, Value>, p: seq<Step>, v: Value) {
    exists j :: 1 <= j <= |p| && p[..j] in placed && FoundIn(placed[p[..j]], p[j..]) == Some(v)
  }

  lemma MergedHoldsExactly(n: Node, placed: map<seq<Step>, Value>)
    requires Sound(n) && !n.isArray && LeavesAre(n, placed)
    ensures HoldsExactly(Merge(n), placed)
  {
    hide Sound, Merge, Leaf, Found, FoundIn;
    forall p | p in placed ensures Found(Merge(n), p) == Some(placed[p]) {
      LeafIsFound(n, p);
    }
    forall p: seq<Step>, v | Found(Merge(n), p) == Some(v) && IsSimple(v) ensures FromPlaced(placed, p, v) {
      FoundIsLeaf(n, p, v);
      var j :| 1 <= j <= |p| && Leaf(n, p[..j]).Some? && FoundIn(Leaf(n, p[..j]).value, p[j..]) == Some(v);
      assert p[..j] in placed;
    }
  }

  /** The dictionary of any accepted text: its lines put values in places of their own, all of these are in
      the dictionary, and every string, number, boolean and timestamp in it comes from one of them. */
  lemma {:induction false} DocumentConserves(s: string)
    requires Deserialize(s).Some?
    ensures IsState(State(FRESH, [])) && ReadLines(s).Some? && ApplyAll(State(FRESH, []), ReadLines(s).value).Some?
    ensures HoldsExactly(Deserialize(s).value, Placed(State(FRESH, []), ReadLines(s).value))
  {
    FreshState();
    var st := State(FRESH, []);
    if s == "" {
      assert Document(s, st) == Some(st) && Merge(FRESH) == [];
    }
    hide Placed, Merge, Leaf, Document, ApplyAll, ReadLines, IsState, HoldsExactly;
    DocumentIsLines(s, st);
    var events := ReadLines(s).value;
    var last := ApplyAll(st, events).value;
    forall p ensures Leaf(last.root, p) == if p in Placed(st, events) then Some(Placed(st, events)[p]) else None {
      LinesConserve(st, events, p);
      NothingYet(p);
    }
    StateSound(last);
    MergedHoldsExactly(last.root, Placed(st, events));
  }
}
