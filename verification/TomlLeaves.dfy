/** Where the values of a document are: what each accepted header and pair adds to the table tree, and
    what of it the dictionary holds. */
module TomlLeaves {
  import opened Wrappers
  import opened SortedMaps
  import opened TomlTree

  /** A step into a dictionary or an array. */
  datatype Step = Under(key: string) | Element(index: nat)

  /** The value a pair put at a place in the tree. */
  function Leaf(n: Node, p: seq<Step>): Option<Value>
    decreases |p|, 0
  {
    if p == [] || !p[0].Under? then None
    else if |p| == 1 && Has(n.pairs, p[0].key) then Some(Get(n.pairs, p[0].key))
    else if Has(n.tables, p[0].key) then LeafBelow(Get(n.tables, p[0].key), p[1..])
    else None
  }

  function LeafBelow(child: Node, p: seq<Step>): Option<Value>
    decreases |p|, 1
  {
    if !child.isArray then Leaf(child, p)
    else if p != [] && p[0].Element? && p[0].index < |child.elements| then Leaf(child.elements[p[0].index], p[1..])
    else None
  }

  function Unders(keys: seq<string>): (p: seq<Step>)
    ensures |p| == |keys|
  {
    if keys == [] then [] else [Under(keys[0])] + Unders(keys[1..])
  }

  /** Where the table of a path is: in the last element of each array on the way. */
  function Place(n: Node, path: seq<string>): seq<Step>
    requires Reaches(n, path)
    decreases |path|
  {
    if path == [] then []
    else
      var child := Get(n.tables, path[0]);
      [Under(path[0])] + (if child.isArray then [Element(|child.elements| - 1)] else [])
      + Place(Target(child), path[1..])
  }

  ghost predicate AddsLeaf(n: Node, m: Node, t: seq<Step>, v: Value) {
    forall p :: Leaf(m, p) == if p == t then Some(v) else Leaf(n, p)
  }

  ghost predicate AddsBelow(child: Node, now: Node, t: seq<Step>, v: Value) {
    forall p :: LeafBelow(now, p) == if p == t then Some(v) else LeafBelow(child, p)
  }

  ghost predicate SameLeaves(n: Node, m: Node) {
    forall p :: Leaf(m, p) == Leaf(n, p)
  }

  ghost predicate SameBelow(child: Node, now: Node) {
    forall p :: LeafBelow(now, p) == LeafBelow(child, p)
  }

  predicate IsNext(n: Node, key: string, child: Node) {
    if Has(n.tables, key) then child == Get(n.tables, key)
    else child.pairs == [] && child.tables == [] && child.elements == []
  }

  lemma {:induction false} NoLeaves(child: Node, p: seq<Step>)
    requires child.pairs == [] && child.tables == [] && child.elements == []
    ensures LeafBelow(child, p) == None
  {
  }

  /** What a child gains its table gains below the child's key. */
  lemma LiftAdds(n: Node, key: string, child: Node, now: Node, t: seq<Step>, v: Value)
    requires Sorted(n.tables) && !Has(n.pairs, key) && IsNext(n, key, child) && AddsBelow(child, now, t, v)
    ensures AddsLeaf(n, n.(tables := Put(n.tables, key, now)), [Under(key)] + t, v)
  {
    var m := n.(tables := Put(n.tables, key, now));
    forall p: seq<Step> ensures Leaf(m, p) == if p == [Under(key)] + t then Some(v) else Leaf(n, p) {
      if p != [] && p[0].Under? {
        LiftAt(n, key, child, now, p);
        assert p == [p[0]] + p[1..];
        assert p == [Under(key)] + t ==> p[1..] == t;
      }
    }
  }

  lemma {:induction false} LiftAt(n: Node, key: string, child: Node, now: Node, p: seq<Step>)
    requires Sorted(n.tables) && !Has(n.pairs, key) && IsNext(n, key, child) && p != [] && p[0].Under?
    ensures var m := n.(tables := Put(n.tables, key, now));
      && (p[0].key == key ==> Leaf(m, p) == LeafBelow(now, p[1..]) && Leaf(n, p) == LeafBelow(child, p[1..]))
      && (p[0].key != key ==> Leaf(m, p) == Leaf(n, p))
  {
    var other := p[0].key;
    PutHas(n.tables, key, now, other);
    if other == key || Has(n.tables, other) {
      PutGet(n.tables, key, now, other);
    }
    if !Has(n.tables, key) {
      NoLeaves(child, p[1..]);
    }
  }

  lemma LiftSame(n: Node, key: string, child: Node, now: Node)
    requires Sorted(n.tables) && !Has(n.pairs, key) && IsNext(n, key, child) && SameBelow(child, now)
    ensures SameLeaves(n, n.(tables := Put(n.tables, key, now)))
  {
    var m := n.(tables := Put(n.tables, key, now));
    forall p: seq<Step> ensures Leaf(m, p) == Leaf(n, p) {
      if p != [] && p[0].Under? {
        LiftAt(n, key, child, now, p);
      }
    }
  }

  /** What the target of a child gains the child gains, in its last element for an array. */
  lemma TargetAdds(child: Node, now: Node, t: seq<Step>, v: Value)
    requires (child.isArray ==> child.elements != []) && !now.isArray && AddsLeaf(Target(child), now, t, v)
    ensures AddsBelow(child, WithTarget(child, now),
                      (if child.isArray then [Element(|child.elements| - 1)] else []) + t, v)
  {
    if child.isArray {
      var last := |child.elements| - 1;
      var all := WithTarget(child, now);
      forall p: seq<Step> ensures LeafBelow(all, p) == if p == [Element(last)] + t then Some(v) else LeafBelow(child, p) {
        if p != [] && p[0].Element? && p[0].index < |child.elements| {
          assert p == [p[0]] + p[1..];
          assert p == [Element(last)] + t ==> p[1..] == t;
          assert p[0].index < last ==> all.elements[p[0].index] == child.elements[p[0].index];
        }
      }
    } else {
      assert [] + t == t;
    }
  }

  lemma TargetSame(child: Node, now: Node)
    requires (child.isArray ==> child.elements != []) && !now.isArray && SameLeaves(Target(child), now)
    ensures SameBelow(child, WithTarget(child, now))
  {
    if child.isArray {
      var last := |child.elements| - 1;
      var all := WithTarget(child, now);
      forall p: seq<Step> ensures LeafBelow(all, p) == LeafBelow(child, p) {
        if p != [] && p[0].Element? && p[0].index < |child.elements| {
          assert p[0].index < last ==> all.elements[p[0].index] == child.elements[p[0].index];
        }
      }
    }
  }

  // ---- pairs ----

  /** A pair adds its value at its keys, where there was none, and changes no other. */
  lemma {:induction false} AddPairAdds(n: Node, keys: seq<string>, v: Value)
    requires keys != [] && Sound(n) && !n.isArray && AddPair(n, keys, v).Some?
    ensures AddsLeaf(n, AddPair(n, keys, v).value, Unders(keys), v) && Leaf(n, Unders(keys)) == None
    decreases |keys|
  {
    var key := keys[0];
    SortedTables(n);
    if |keys| == 1 {
      assert Unders(keys) == [Under(key)];
      PutPairAdds(n, key, v);
    } else {
      var child := if Has(n.tables, key) then Get(n.tables, key) else FRESH.(dotted := true);
      NextSound(n, key);
      DottedSound(child, Has(n.tables, key));
      hide Sound;
      AddPairAdds(child, keys[1..], v);
      var added := AddPair(child, keys[1..], v).value;
      SameFlags(child, keys[1..], v);
      LiftAdds(n, key, child, added, Unders(keys[1..]), v);
      LiftAt(n, key, child, added, Unders(keys));
      assert Unders(keys)[1..] == Unders(keys[1..]);
    }
  }

  lemma PutPairAdds(n: Node, key: string, v: Value)
    requires Sorted(n.pairs) && !Has(n.tables, key) && !Has(n.pairs, key)
    ensures AddsLeaf(n, n.(pairs := Put(n.pairs, key, v)), [Under(key)], v) && Leaf(n, [Under(key)]) == None
  {
    var m := n.(pairs := Put(n.pairs, key, v));
    forall p: seq<Step> ensures Leaf(m, p) == if p == [Under(key)] then Some(v) else Leaf(n, p) {
      if p != [] && p[0].Under? {
        PutHas(n.pairs, key, v, p[0].key);
        if p[0].key == key || Has(n.pairs, p[0].key) {
          PutGet(n.pairs, key, v, p[0].key);
        }
        assert |p| == 1 ==> p == [p[0]];
      }
    }
  }

  lemma {:induction false} ReplaceAdds(n: Node, path: seq<string>, m: Node, t: seq<Step>, v: Value)
    requires Sound(n) && !n.isArray && Reaches(n, path) && Sound(m) && !m.isArray && AddsLeaf(NodeAt(n, path), m, t, v)
    ensures AddsLeaf(n, ReplaceAt(n, path, m), Place(n, path) + t, v)
    decreases |path|
  {
    hide AddsLeaf, AddsBelow, Sound, Target, WithTarget;
    if path == [] {
      assert [] + t == t;
    } else {
      var key := path[0];
      var child := Get(n.tables, key);
      var inner := ReplaceAt(Target(child), path[1..], m);
      var rest := Place(Target(child), path[1..]) + t;
      var into := if child.isArray then [Element(|child.elements| - 1)] else [];
      assert Place(n, path) + t == [Under(key)] + (into + rest);
      assert ReplaceAt(n, path, m) == n.(tables := Put(n.tables, key, WithTarget(child, inner)));
      hide Place, NodeAt, ReplaceAt;
      NextSound(n, key);
      SortedTables(n);
      ReplaceAdds(Target(child), path[1..], m, t, v);
      ReplacedAt(Target(child), path[1..], m);
      TargetAdds(child, inner, rest, v);
      LiftAdds(n, key, child, WithTarget(child, inner), into + rest, v);
    }
  }

  lemma {:induction false} PlaceLeaf(n: Node, path: seq<string>, t: seq<Step>)
    requires Sound(n) && !n.isArray && Reaches(n, path)
    ensures Leaf(n, Place(n, path) + t) == Leaf(NodeAt(n, path), t)
    decreases |path|
  {
    hide Sound, Leaf;
    if path == [] {
      assert [] + t == t;
    } else {
      var key := path[0];
      var child := Get(n.tables, key);
      NextSound(n, key);
      SortedTables(n);
      PlaceLeaf(Target(child), path[1..], t);
      var rest := Place(Target(child), path[1..]) + t;
      var into := if child.isArray then [Element(|child.elements| - 1)] else [];
      assert Place(n, path) + t == [Under(key)] + (into + rest);
      assert ([Under(key)] + (into + rest))[1..] == into + rest;
      hide Place, NodeAt, Target, LeafBelow;
      LiftAt(n, key, child, child, [Under(key)] + (into + rest));
      BelowTarget(child, rest);
    }
  }

  lemma BelowTarget(child: Node, rest: seq<Step>)
    requires child.isArray ==> child.elements != []
    ensures LeafBelow(child, (if child.isArray then [Element(|child.elements| - 1)] else []) + rest)
            == Leaf(Target(child), rest)
  {
    if child.isArray {
      assert ([Element(|child.elements| - 1)] + rest)[1..] == rest;
    } else {
      assert [] + rest == rest;
    }
  }

  /** A pair after a header adds its value at one new place and changes nothing else. */
  lemma PairAddsOneLeaf(n: Node, path: seq<string>, keys: seq<string>, v: Value)
    requires Sound(n) && !n.isArray && Reaches(n, path) && keys != [] && AddAt(n, path, keys, v).Some?
    ensures AddsLeaf(n, AddAt(n, path, keys, v).value, Place(n, path) + Unders(keys), v)
    ensures Leaf(n, Place(n, path) + Unders(keys)) == None
    ensures Sound(AddAt(n, path, keys, v).value) && !AddAt(n, path, keys, v).value.isArray
    ensures Reaches(AddAt(n, path, keys, v).value, path)
  {
    hide Sound, AddsLeaf, Leaf;
    NodeSound(n, path);
    AddPairAdds(NodeAt(n, path), keys, v);
    AddPairSound(NodeAt(n, path), keys, v);
    var added := AddPair(NodeAt(n, path), keys, v).value;
    ReplaceAdds(n, path, added, Unders(keys), v);
    PlaceLeaf(n, path, Unders(keys));
    ReplacedAt(n, path, added);
  }

  // ---- headers ----

  lemma OpenLastSame(child: Node, isArray: bool)
    requires OpenLast(child, isArray).Some?
    ensures SameBelow(child, OpenLast(child, isArray).value)
  {
    var made := OpenLast(child, isArray).value;
    forall p: seq<Step> ensures LeafBelow(made, p) == LeafBelow(child, p) {
      if isArray && p != [] && p[0].Element? && p[0].index == |child.elements| {
        NoLeaves(FRESH, p[1..]);
      }
      if !isArray && p != [] && p[0].Under? {
        assert Leaf(made, p) == Leaf(child, p);
      }
    }
  }

  /** A header adds no value and changes none. */
  lemma {:induction false} HeaderAddsNoLeaf(n: Node, path: seq<string>, isArray: bool)
    requires path != [] && Sound(n) && !n.isArray && Open(n, path, isArray).Some?
    ensures SameLeaves(n, Open(n, path, isArray).value)
    decreases |path|
  {
    var key := path[0];
    SortedTables(n);
    NextSound(n, key);
    if |path| == 1 {
      var child := if Has(n.tables, key) then Get(n.tables, key) else FRESH.(isArray := isArray);
      hide Sound, SameLeaves, SameBelow;
      OpenLastSame(child, isArray);
      LiftSame(n, key, child, OpenLast(child, isArray).value);
    } else {
      var child := Next(n, key);
      SortedTables(child);
      hide Sound, SameLeaves, SameBelow;
      HeaderAddsNoLeaf(Target(child), path[1..], isArray);
      OpenSound(Target(child), path[1..], isArray);
      var made := Open(Target(child), path[1..], isArray).value;
      TargetSame(child, made);
      LiftSame(n, key, child, WithTarget(child, made));
    }
  }

  // ---- the dictionary ----

  /** The value at a place in a dictionary. */
  function Found(es: seq<Pair<Value>>, p: seq<Step>): Option<Value>
    decreases |p|, 0
  {
    if p == [] || !p[0].Under? || !Has(es, p[0].key) then None
    else FoundIn(Get(es, p[0].key), p[1..])
  }

  function FoundIn(v: Value, p: seq<Step>): Option<Value>
    decreases |p|, 1
  {
    if p == [] then Some(v)
    else
      match v
      case Dict(es) => Found(es, p)
      case List(vs) => if p[0].Element? && p[0].index < |vs| then FoundIn(vs[p[0].index], p[1..]) else None
      case _ => None
  }

  lemma TablesMerged(ts: seq<Pair<Node>>, key: string)
    requires Sorted(ts)
    ensures Sorted(MergeTables(ts)) && |MergeTables(ts)| == |ts|
    ensures forall i :: 0 <= i < |ts| ==> MergeTables(ts)[i] == Pair(ts[i].key, MergeChild(ts[i].value))
    ensures Has(MergeTables(ts), key) <==> Has(ts, key)
    ensures Has(ts, key) ==> Get(MergeTables(ts), key) == MergeChild(Get(ts, key))
  {
    TablesAre(ts);
    hide MergeTables, MergeChild;
  }

  lemma {:induction false} TablesAre(ts: seq<Pair<Node>>)
    ensures |MergeTables(ts)| == |ts|
    ensures forall i :: 0 <= i < |ts| ==> MergeTables(ts)[i] == Pair(ts[i].key, MergeChild(ts[i].value))
  {
    if ts != [] {
      var x, r := Pair(ts[0].key, MergeChild(ts[0].value)), MergeTables(ts[1..]);
      TablesAre(ts[1..]);
      assert MergeTables(ts) == [x] + r;
      hide MergeTables, MergeChild;
      forall i | 0 <= i < |ts| ensures MergeTables(ts)[i] == Pair(ts[i].key, MergeChild(ts[i].value)) {
        if i > 0 {
          assert ([x] + r)[i] == r[i - 1] && ts[1..][i - 1] == ts[i];
        }
      }
    }
  }

  lemma {:induction false} ElementsMerged(ns: seq<Node>)
    ensures |MergeElements(ns)| == |ns|
    ensures forall i :: 0 <= i < |ns| ==> MergeElements(ns)[i] == Dict(Merge(ns[i]))
  {
    if ns != [] {
      ElementsMerged(ns[1..]);
    }
  }

  /** Merging overwrites nothing: a key names the pair it did, or the table under it. */
  lemma MergedGet(n: Node, key: string)
    requires Sound(n)
    ensures Sorted(Merge(n))
    ensures Has(Merge(n), key) <==> Has(n.pairs, key) || Has(n.tables, key)
    ensures Has(n.pairs, key) ==> Get(Merge(n), key) == Get(n.pairs, key)
    ensures Has(n.tables, key) ==> Get(Merge(n), key) == MergeChild(Get(n.tables, key))
  {
    var es, ts := n.pairs, MergeTables(n.tables);
    TablesMerged(n.tables, key);
    PutAllHolds(es, ts, Pair(key, Truth(true)));
    hide Merge, MergeTables, PutAll;
    assert Merge(n) == PutAll(es, ts) by {
      MergeIs(n);
    }
    if Has(n.pairs, key) {
      var e := es[IndexOf(es, key)];
      PutAllHolds(es, ts, e);
      OneValue(PutAll(es, ts), e);
    }
    if Has(n.tables, key) {
      var e := ts[IndexOf(ts, key)];
      PutAllHolds(es, ts, e);
      OneValue(PutAll(es, ts), e);
    }
    if Has(Merge(n), key) {
      var e := Merge(n)[IndexOf(Merge(n), key)];
      PutAllHolds(es, ts, e);
    }
  }

  lemma MergeIs(n: Node)
    ensures Merge(n) == PutAll(n.pairs, MergeTables(n.tables))
  {
  }

  lemma ChildFound(n: Node, key: string, i: nat)
    requires Sound(n)
    ensures Has(n.tables, key) ==> Sound(Get(n.tables, key))
    ensures i < |n.elements| ==> Sound(n.elements[i]) && !n.elements[i].isArray
  {
  }

  /** Every value that was accepted is in the dictionary, where it was put. */
  lemma {:induction false} LeafIsFound(n: Node, p: seq<Step>)
    requires Sound(n) && !n.isArray && Leaf(n, p).Some?
    ensures Found(Merge(n), p) == Leaf(n, p)
    decreases |p|, 0
  {
    var key := p[0].key;
    MergedGet(n, key);
    hide Merge;
    if !(|p| == 1 && Has(n.pairs, key)) {
      ChildFound(n, key, 0);
      SoundApart(n, key);
      var child := Get(n.tables, key);
      hide Sound;
      BelowIsFound(child, p[1..]);
    }
  }

  lemma SoundApart(n: Node, key: string)
    requires Sound(n)
    ensures !(Has(n.pairs, key) && Has(n.tables, key))
  {
  }

  lemma {:induction false} BelowIsFound(child: Node, p: seq<Step>)
    requires Sound(child) && LeafBelow(child, p).Some?
    ensures FoundIn(MergeChild(child), p) == LeafBelow(child, p)
    decreases |p|, 1
  {
    if child.isArray {
      ElementsMerged(child.elements);
      ChildFound(child, "", p[0].index);
      hide Sound, Merge;
      ElementFound(child.elements[p[0].index], p[1..]);
    } else {
      hide Sound, Merge;
      LeafIsFound(child, p);
    }
  }

  lemma {:induction false} ElementFound(n: Node, p: seq<Step>)
    requires Sound(n) && !n.isArray && Leaf(n, p).Some?
    ensures FoundIn(Dict(Merge(n)), p) == Leaf(n, p)
    decreases |p|, 2
  {
    hide Sound, Merge;
    LeafIsFound(n, p);
  }

  predicate IsSimple(v: Value) {
    !v.Dict? && !v.List?
  }

  /** Whether a place is that of an accepted value, or inside one. */
  predicate InLeaf(n: Node, p: seq<Step>, v: Value) {
    exists j :: 1 <= j <= |p| && Leaf(n, p[..j]).Some? && FoundIn(Leaf(n, p[..j]).value, p[j..]) == Some(v)
  }

  /** And nothing else is: whatever is no dictionary or array was accepted there, or inside such a value. */
  lemma {:induction false} FoundIsLeaf(n: Node, p: seq<Step>, v: Value)
    requires Sound(n) && !n.isArray && Found(Merge(n), p) == Some(v) && IsSimple(v)
    ensures InLeaf(n, p, v)
    decreases |p|, 0
  {
    var key := p[0].key;
    MergedGet(n, key);
    SoundApart(n, key);
    ChildFound(n, key, 0);
    hide Merge, Sound;
    if Has(n.pairs, key) {
      assert p[..1] == [p[0]];
      assert Leaf(n, p[..1]) == Some(Get(n.pairs, key));
    } else {
      var child := Get(n.tables, key);
      var j := FoundBelow(child, p[1..], v);
      assert p[..j + 1][1..] == p[1..][..j] && p[j + 1..] == p[1..][j..];
      assert p[..j + 1][0] == p[0];
      assert Leaf(n, p[..j + 1]) == LeafBelow(child, p[1..][..j]);
    }
  }

  lemma {:induction false} FoundBelow(child: Node, p: seq<Step>, v: Value) returns (j: nat)
    requires Sound(child) && FoundIn(MergeChild(child), p) == Some(v) && IsSimple(v)
    ensures 1 <= j <= |p| && LeafBelow(child, p[..j]).Some? && FoundIn(LeafBelow(child, p[..j]).value, p[j..]) == Some(v)
    decreases |p|, 1
  {
    hide *;
    if child.isArray {
      var n := ElementHolds(child, p, v);
      FoundIsLeaf(n, p[1..], v);
      var i := LeafInside(n, p[1..], v);
      j := i + 1;
      LeafOfElement(child, n, p, i, v);
    } else {
      TableHolds(child, p, v);
      FoundIsLeaf(child, p, v);
      j := LeafInside(child, p, v);
      LeafOfTable(child, p[..j]);
    }
  }

  lemma {:induction false} TableHolds(child: Node, p: seq<Step>, v: Value)
    requires !child.isArray && FoundIn(MergeChild(child), p) == Some(v) && IsSimple(v)
    ensures p != [] && Found(Merge(child), p) == Some(v)
  {
    hide Merge;
  }

  lemma {:induction false} LeafOfTable(child: Node, p: seq<Step>)
    requires !child.isArray && p != []
    ensures LeafBelow(child, p) == Leaf(child, p)
  {
    hide Leaf;
  }

  /** What is found in an array is found in the element that the place names. */
  lemma ElementHolds(child: Node, p: seq<Step>, v: Value) returns (n: Node)
    requires Sound(child) && child.isArray && FoundIn(MergeChild(child), p) == Some(v) && IsSimple(v)
    ensures p != [] && p[0].Element? && p[0].index < |child.elements| && n == child.elements[p[0].index]
    ensures Sound(n) && !n.isArray && Found(Merge(n), p[1..]) == Some(v)
  {
    ElementsMerged(child.elements);
    assert p != [];
    ChildFound(child, "", if p[0].Element? then p[0].index else 0);
    hide Sound, Merge;
    n := child.elements[p[0].index];
    assert p[1..] != [];
  }

  lemma LeafInside(n: Node, p: seq<Step>, v: Value) returns (i: nat)
    requires InLeaf(n, p, v)
    ensures 1 <= i <= |p| && Leaf(n, p[..i]).Some? && FoundIn(Leaf(n, p[..i]).value, p[i..]) == Some(v)
  {
    hide Leaf, FoundIn;
    i :| 1 <= i <= |p| && Leaf(n, p[..i]).Some? && FoundIn(Leaf(n, p[..i]).value, p[i..]) == Some(v);
  }

  lemma LeafOfElement(child: Node, n: Node, p: seq<Step>, i: nat, v: Value)
    requires child.isArray && p != [] && p[0].Element? && p[0].index < |child.elements| && n == child.elements[p[0].index]
    requires 1 <= i < |p| && Leaf(n, p[1..][..i]).Some? && FoundIn(Leaf(n, p[1..][..i]).value, p[1..][i..]) == Some(v)
    ensures LeafBelow(child, p[..i + 1]).Some? && FoundIn(LeafBelow(child, p[..i + 1]).value, p[i + 1..]) == Some(v)
  {
    assert p[..i + 1][1..] == p[1..][..i] && p[i + 1..] == p[1..][i..] && p[..i + 1][0] == p[0];
    hide Leaf, FoundIn;
  }
}
