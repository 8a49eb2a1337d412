/** The values of a document and the table tree of src/format/toml.cpp, which headers and dotted keys
    build before it becomes a dictionary. */
module TomlTree {
  import opened Wrappers
  import opened SortedMaps
  import opened Timestamps

  datatype Value =
    | Text(text: string)
    | Numeric(digits: string, floating: bool)
    | Truth(truth: bool)
    | Moment(stamp: Stamp)
    | List(elements: seq<Value>)
    | Dict(entries: seq<Pair<Value>>)

  /** table_node */
  datatype Node = Node(pairs: seq<Pair<Value>>, tables: seq<Pair<Node>>, named: bool, dotted: bool, isArray: bool,
                       elements: seq<Node>)

  const FRESH := Node([], [], false, false, false, [])

  // ---- merge_tables() ----

  /** The pairs of a node once its tables are put among them. */
  function Merge(n: Node): seq<Pair<Value>>
    decreases n, 0
  {
    PutAll(n.pairs, MergeTables(n.tables))
  }

  function MergeTables(ts: seq<Pair<Node>>): seq<Pair<Value>>
    decreases ts
  {
    if ts == [] then [] else [Pair(ts[0].key, MergeChild(ts[0].value))] + MergeTables(ts[1..])
  }

  function MergeChild(n: Node): Value
    decreases n, 1
  {
    if n.isArray then List(MergeElements(n.elements)) else Dict(Merge(n))
  }

  function MergeElements(ns: seq<Node>): seq<Value>
    decreases ns
  {
    if ns == [] then [] else [Dict(Merge(ns[0]))] + MergeElements(ns[1..])
  }

  // ---- what every accepted document keeps ----

  /** No key names both a pair and a table, an array has an element and nothing else, and no table is
      both named by a header and made by a dotted key. */
  predicate Sound(n: Node)
    decreases n
  {
    && Sorted(n.pairs) && Sorted(n.tables)
    && (forall i, j :: 0 <= i < |n.pairs| && 0 <= j < |n.tables| ==> n.pairs[i].key != n.tables[j].key)
    && !(n.named && n.dotted)
    && (if n.isArray then n.elements != [] && n.pairs == [] && n.tables == [] && !n.named && !n.dotted
        else n.elements == [])
    && (forall i :: 0 <= i < |n.tables| ==> Sound(n.tables[i].value))
    && (forall i :: 0 <= i < |n.elements| ==> Sound(n.elements[i]) && !n.elements[i].isArray)
  }

  // ---- pairs ----

  /** add_pair(): a dotted key makes the tables before its last part, and passes only through such. */
  function AddPair(n: Node, keys: seq<string>, v: Value): Option<Node>
    requires keys != []
    decreases |keys|
  {
    var key := keys[0];
    if |keys| == 1 then
      if Has(n.tables, key) || Has(n.pairs, key) then None else Some(n.(pairs := Put(n.pairs, key, v)))
    else if Has(n.pairs, key) then None
    else if Has(n.tables, key) && !Get(n.tables, key).dotted then None
    else
      var child := if Has(n.tables, key) then Get(n.tables, key) else FRESH.(dotted := true);
      match AddPair(child, keys[1..], v)
      case None => None
      case Some(added) => Some(n.(tables := Put(n.tables, key, added)))
  }

  // ---- headers ----

  /** The table a key leads to from a header: the last element of an array. */
  function Target(n: Node): Node
    requires n.isArray ==> n.elements != []
  {
    if n.isArray then n.elements[|n.elements| - 1] else n
  }

  function WithTarget(n: Node, target: Node): Node
    requires n.isArray ==> n.elements != []
  {
    if n.isArray then n.(elements := n.elements[..|n.elements| - 1] + [target]) else target
  }

  /** The last step of a header: a new element of an array, or a table that no header named before. */
  function OpenLast(child: Node, isArray: bool): Option<Node> {
    if isArray then
      if child.isArray then Some(child.(elements := child.elements + [FRESH])) else None
    else if child.named || child.dotted || child.isArray then None
    else Some(child.(named := true))
  }

  /** open_table() */
  function Open(n: Node, path: seq<string>, isArray: bool): Option<Node>
    requires path != [] && Sound(n)
    decreases |path|
  {
    var key := path[0];
    if Has(n.pairs, key) then None
    else
      var child := if Has(n.tables, key) then Get(n.tables, key) else FRESH.(isArray := isArray && |path| == 1);
      if |path| == 1 then
        match OpenLast(child, isArray)
        case None => None
        case Some(made) => Some(n.(tables := Put(n.tables, key, made)))
      else
        NextSound(n, key);
        match Open(Target(child), path[1..], isArray)
        case None => None
        case Some(made) => Some(n.(tables := Put(n.tables, key, WithTarget(child, made))))
  }

  /** The child a key leads to, or a new one. */
  function Next(n: Node, key: string): Node {
    if Has(n.tables, key) then Get(n.tables, key) else FRESH
  }

  lemma NextSound(n: Node, key: string)
    requires Sound(n)
    ensures var child := Next(n, key); Sound(child) && Sound(Target(child)) && !Target(child).isArray
  {
  }

  /** Whether a path of tables is there, with no pair in its way. */
  predicate Reaches(n: Node, path: seq<string>)
    decreases |path|
  {
    path == []
    || (!Has(n.pairs, path[0]) && Has(n.tables, path[0])
        && (Get(n.tables, path[0]).isArray ==> Get(n.tables, path[0]).elements != [])
        && Reaches(Target(Get(n.tables, path[0])), path[1..]))
  }

  /** The table a path leads to. */
  function NodeAt(n: Node, path: seq<string>): Node
    requires Reaches(n, path)
    decreases |path|
  {
    if path == [] then n else NodeAt(Target(Get(n.tables, path[0])), path[1..])
  }

  /** The tree with another table at a path. */
  function ReplaceAt(n: Node, path: seq<string>, m: Node): Node
    requires Reaches(n, path)
    decreases |path|
  {
    if path == [] then m
    else
      var child := Get(n.tables, path[0]);
      n.(tables := Put(n.tables, path[0], WithTarget(child, ReplaceAt(Target(child), path[1..], m))))
  }

  /** Adds a pair to the table that the last header opened. */
  function AddAt(n: Node, path: seq<string>, keys: seq<string>, v: Value): Option<Node>
    requires Reaches(n, path) && keys != []
  {
    match AddPair(NodeAt(n, path), keys, v)
    case None => None
    case Some(added) => Some(ReplaceAt(n, path, added))
  }

  // ---- the tree stays sound ----

  /** A sound tree stays so with a sound table under a key that names no pair. */
  lemma PutTableSound(n: Node, key: string, child: Node)
    requires Sound(n) && !n.isArray && !Has(n.pairs, key) && Sound(child)
    ensures Sound(n.(tables := Put(n.tables, key, child)))
  {
    var now := n.(tables := Put(n.tables, key, child));
    PutSorted(n.tables, key, child);
    forall i | 0 <= i < |now.tables| ensures Sound(now.tables[i].value) && !Has(n.pairs, now.tables[i].key) {
      PutHolds(n.tables, key, child, now.tables[i]);
    }
  }

  lemma PutPairSound(n: Node, key: string, v: Value)
    requires Sound(n) && !n.isArray && !Has(n.tables, key)
    ensures Sound(n.(pairs := Put(n.pairs, key, v)))
  {
    var now := n.(pairs := Put(n.pairs, key, v));
    PutSorted(n.pairs, key, v);
    forall i | 0 <= i < |now.pairs| ensures !Has(n.tables, now.pairs[i].key) {
      PutHolds(n.pairs, key, v, now.pairs[i]);
    }
  }

  lemma SameFlags(n: Node, keys: seq<string>, v: Value)
    requires keys != [] && AddPair(n, keys, v).Some?
    ensures var m := AddPair(n, keys, v).value;
      m.named == n.named && m.dotted == n.dotted && m.isArray == n.isArray && m.elements == n.elements
  {
  }

  /** A pair that is accepted keeps the tree sound. */
  lemma {:induction false} AddPairSound(n: Node, keys: seq<string>, v: Value)
    requires keys != [] && Sound(n) && !n.isArray && AddPair(n, keys, v).Some?
    ensures Sound(AddPair(n, keys, v).value) && !AddPair(n, keys, v).value.isArray
    decreases |keys|
  {
    var key := keys[0];
    SameFlags(n, keys, v);
    if |keys| == 1 {
      PutPairSound(n, key, v);
    } else {
      var child := if Has(n.tables, key) then Get(n.tables, key) else FRESH.(dotted := true);
      NextSound(n, key);
      hide Sound;
      DottedSound(child, Has(n.tables, key));
      AddPairSound(child, keys[1..], v);
      PutTableSound(n, key, AddPair(child, keys[1..], v).value);
    }
  }

  lemma {:induction false} DottedSound(child: Node, known: bool)
    requires if known then Sound(child) && child.dotted else child == FRESH.(dotted := true)
    ensures Sound(child) && !child.isArray
  {
  }

  lemma WithTargetSound(child: Node, target: Node)
    requires Sound(child) && Sound(target) && !target.isArray
    ensures Sound(WithTarget(child, target))
  {
  }

  lemma OpenLastSound(child: Node, isArray: bool)
    requires (Sound(child) || child == FRESH.(isArray := isArray)) && OpenLast(child, isArray).Some?
    ensures Sound(OpenLast(child, isArray).value)
  {
  }

  /** A header that is accepted keeps the tree sound. */
  lemma {:induction false} OpenSound(n: Node, path: seq<string>, isArray: bool)
    requires path != [] && Sound(n) && !n.isArray && Open(n, path, isArray).Some?
    ensures Sound(Open(n, path, isArray).value) && !Open(n, path, isArray).value.isArray
    ensures Reaches(Open(n, path, isArray).value, path)
    decreases |path|
  {
    var key := path[0];
    if |path| == 1 {
      OpenOneSound(n, path, isArray);
    } else {
      NextSound(n, key);
      var child := Next(n, key);
      hide Sound;
      OpenSound(Target(child), path[1..], isArray);
      var made := Open(Target(child), path[1..], isArray).value;
      WithTargetSound(child, made);
      PutTableSound(n, key, WithTarget(child, made));
      SortedTables(n);
      PutGet(n.tables, key, WithTarget(child, made), key);
      TargetOfWith(child, made);
    }
  }

  lemma OpenOneSound(n: Node, path: seq<string>, isArray: bool)
    requires |path| == 1 && Sound(n) && !n.isArray && Open(n, path, isArray).Some?
    ensures Sound(Open(n, path, isArray).value) && !Open(n, path, isArray).value.isArray
    ensures Reaches(Open(n, path, isArray).value, path)
  {
    var key := path[0];
    NextSound(n, key);
    var child := if Has(n.tables, key) then Get(n.tables, key) else FRESH.(isArray := isArray);
    OpenLastSound(child, isArray);
    var made := OpenLast(child, isArray).value;
    PutTableSound(n, key, made);
    SortedTables(n);
    PutGet(n.tables, key, made, key);
    hide Sound;
    assert path[1..] == [];
  }

  lemma {:induction false} SortedTables(n: Node)
    requires Sound(n)
    ensures Sorted(n.tables) && Sorted(n.pairs) && (n.isArray ==> n.elements != [])
  {
  }

  lemma TargetOfWith(child: Node, target: Node)
    requires (child.isArray ==> child.elements != []) && !target.isArray
    ensures Target(WithTarget(child, target)) == target
    ensures WithTarget(child, target).isArray ==> WithTarget(child, target).elements != []
  {
  }

  // ---- one table of the tree ----

  lemma {:induction false} NodeSound(n: Node, path: seq<string>)
    requires Sound(n) && !n.isArray && Reaches(n, path)
    ensures Sound(NodeAt(n, path)) && !NodeAt(n, path).isArray
    decreases |path|
  {
    if path != [] {
      NextSound(n, path[0]);
      hide Sound;
      NodeSound(Target(Get(n.tables, path[0])), path[1..]);
    }
  }

  /** Replacing a table replaces that table, and leaves the path to it. */
  lemma {:induction false} ReplacedAt(n: Node, path: seq<string>, m: Node)
    requires Sound(n) && !n.isArray && Reaches(n, path) && Sound(m) && !m.isArray
    ensures Sound(ReplaceAt(n, path, m)) && !ReplaceAt(n, path, m).isArray
    ensures Reaches(ReplaceAt(n, path, m), path) && NodeAt(ReplaceAt(n, path, m), path) == m
    decreases |path|
  {
    if path != [] {
      var key := path[0];
      var child := Get(n.tables, key);
      NextSound(n, key);
      SortedTables(n);
      hide Sound;
      ReplacedAt(Target(child), path[1..], m);
      var inner := ReplaceAt(Target(child), path[1..], m);
      WithTargetSound(child, inner);
      PutTableSound(n, key, WithTarget(child, inner));
      PutGet(n.tables, key, WithTarget(child, inner), key);
      TargetOfWith(child, inner);
    }
  }

  lemma WithTwice(child: Node, a: Node, b: Node)
    requires (child.isArray ==> child.elements != []) && !a.isArray
    ensures (WithTarget(child, a).isArray ==> WithTarget(child, a).elements != [])
    ensures WithTarget(WithTarget(child, a), b) == WithTarget(child, b)
  {
  }

  /** Of two replacements of one table the second stands. */
  lemma {:induction false} ReplacedTwice(n: Node, path: seq<string>, a: Node, b: Node)
    requires Sound(n) && !n.isArray && Reaches(n, path) && Sound(a) && !a.isArray
    ensures Reaches(ReplaceAt(n, path, a), path)
    ensures ReplaceAt(ReplaceAt(n, path, a), path, b) == ReplaceAt(n, path, b)
    decreases |path|
  {
    ReplacedAt(n, path, a);
    if path != [] {
      var key := path[0];
      var child := Get(n.tables, key);
      NextSound(n, key);
      SortedTables(n);
      hide Sound;
      ReplacedAt(Target(child), path[1..], a);
      ReplacedTwice(Target(child), path[1..], a, b);
      var inner := ReplaceAt(Target(child), path[1..], a);
      var outer := ReplaceAt(Target(child), path[1..], b);
      PutGet(n.tables, key, WithTarget(child, inner), key);
      TargetOfWith(child, inner);
      WithTwice(child, inner, outer);
      PutTwice(n.tables, key, WithTarget(child, inner), WithTarget(child, outer));
    }
  }

  /** A header with one key more opens a table of the table its other keys lead to. */
  lemma {:induction false} OpenBelow(n: Node, path: seq<string>, key: string, isArray: bool)
    requires Sound(n) && !n.isArray && Reaches(n, path)
    ensures Sound(NodeAt(n, path))
    ensures Open(n, path + [key], isArray)
            == match Open(NodeAt(n, path), [key], isArray)
               case None => None
               case Some(made) => Some(ReplaceAt(n, path, made))
    decreases |path|
  {
    NodeSound(n, path);
    if path == [] {
      assert path + [key] == [key];
    } else {
      NextSound(n, path[0]);
      assert (path + [key])[0] == path[0] && (path + [key])[1..] == path[1..] + [key];
      hide Sound;
      OpenBelow(Target(Get(n.tables, path[0])), path[1..], key, isArray);
    }
  }

  /** A path with one key more leads to the target of that child. */
  lemma {:induction false} OneFurther(n: Node, path: seq<string>, key: string)
    requires Reaches(n, path)
    ensures Reaches(n, path + [key])
            <==> !Has(NodeAt(n, path).pairs, key) && Has(NodeAt(n, path).tables, key)
                 && (Get(NodeAt(n, path).tables, key).isArray ==> Get(NodeAt(n, path).tables, key).elements != [])
    ensures Reaches(n, path + [key]) ==> NodeAt(n, path + [key]) == Target(Get(NodeAt(n, path).tables, key))
    decreases |path|
  {
    if path == [] {
      assert path + [key] == [key];
    } else {
      assert (path + [key])[0] == path[0] && (path + [key])[1..] == path[1..] + [key];
      OneFurther(Target(Get(n.tables, path[0])), path[1..], key);
    }
  }

  /** Replacing the target of a child replaces that child in its table. */
  lemma {:induction false} ReplaceFurther(n: Node, path: seq<string>, key: string, m: Node)
    requires Reaches(n, path) && Reaches(n, path + [key])
    ensures var at := NodeAt(n, path);
      && Has(at.tables, key) && (Get(at.tables, key).isArray ==> Get(at.tables, key).elements != [])
      && ReplaceAt(n, path + [key], m)
         == ReplaceAt(n, path, at.(tables := Put(at.tables, key, WithTarget(Get(at.tables, key), m))))
    decreases |path|
  {
    OneFurther(n, path, key);
    if path == [] {
      assert path + [key] == [key] && [key][1..] == [];
    } else {
      assert (path + [key])[0] == path[0] && (path + [key])[1..] == path[1..] + [key];
      ReplaceFurther(Target(Get(n.tables, path[0])), path[1..], key, m);
    }
  }
}
