/** Maps with string keys kept in key order, as std::map keeps them: one sequence for each map. */
module SortedMaps {
  import opened NumberOrder

  datatype Pair<+V> = Pair(key: string, value: V)

  /** Keys in strictly increasing order. */
  predicate Sorted<V>(es: seq<Pair<V>>) {
    forall i, j :: 0 <= i < j < |es| ==> Lex(es[i].key, es[j].key) < 0
  }

  predicate Has<V>(es: seq<Pair<V>>, key: string) {
    exists i :: 0 <= i < |es| && es[i].key == key
  }

  /** Where a key is, or the length. */
  function IndexOf<V>(es: seq<Pair<V>>, key: string): (i: nat)
    ensures i <= |es| && (i < |es| ==> es[i].key == key) && forall j :: 0 <= j < i ==> es[j].key != key
    ensures i < |es| <==> Has(es, key)
  {
    if es == [] || es[0].key == key then 0
    else
      var i := IndexOf(es[1..], key);
      assert i < |es| - 1 ==> es[1..][i] == es[i + 1];
      1 + i
  }

  function Get<V>(es: seq<Pair<V>>, key: string): V
    requires Has(es, key)
  {
    es[IndexOf(es, key)].value
  }

  /** map[key] = value */
  function Put<V>(es: seq<Pair<V>>, key: string, value: V): seq<Pair<V>> {
    if es == [] then [Pair(key, value)]
    else if Lex(key, es[0].key) < 0 then [Pair(key, value)] + es
    else if key == es[0].key then [Pair(key, value)] + es[1..]
    else [es[0]] + Put(es[1..], key, value)
  }

  function PutAll<V>(es: seq<Pair<V>>, more: seq<Pair<V>>): seq<Pair<V>>
    decreases |more|
  {
    if more == [] then es else PutAll(Put(es, more[0].key, more[0].value), more[1..])
  }

  ghost predicate Before<V>(key: string, es: seq<Pair<V>>) {
    forall e :: e in es ==> Lex(key, e.key) < 0
  }

  // ---- the order of keys ----

  lemma {:induction false} LexOpposite(a: string, b: string)
    ensures Lex(b, a) == -Lex(a, b)
  {
    if a != "" && b != "" && a[0] == b[0] {
      LexOpposite(a[1..], b[1..]);
    }
  }

  lemma {:induction false} LexEqual(a: string, b: string)
    ensures Lex(a, b) == 0 <==> a == b
  {
    if a != "" && b != "" {
      if a[0] == b[0] {
        LexEqual(a[1..], b[1..]);
      }
      assert a == [a[0]] + a[1..] && b == [b[0]] + b[1..];
    }
  }

  lemma {:induction false} LexTransitive(a: string, b: string, c: string)
    requires Lex(a, b) < 0 && Lex(b, c) < 0
    ensures Lex(a, c) < 0
  {
    if a != "" && b != "" && c != "" && a[0] == b[0] == c[0] {
      LexTransitive(a[1..], b[1..], c[1..]);
    }
  }

  lemma SortedHead<V>(es: seq<Pair<V>>)
    requires Sorted(es) && es != []
    ensures Sorted(es[1..]) && Before(es[0].key, es[1..])
  {
  }

  lemma SortedCons<V>(e: Pair<V>, es: seq<Pair<V>>)
    requires Sorted(es) && Before(e.key, es)
    ensures Sorted([e] + es)
  {
  }

  // ---- what Put does ----

  lemma {:induction false} PutHolds<V>(es: seq<Pair<V>>, key: string, value: V, e: Pair<V>)
    requires Sorted(es)
    ensures e in Put(es, key, value) <==> e == Pair(key, value) || (e in es && e.key != key)
  {
    if es != [] {
      SortedHead(es);
      LexEqual(key, es[0].key);
      assert es == [es[0]] + es[1..];
      if Lex(key, es[0].key) < 0 {
        AfterKey(key, es);
      } else if key == es[0].key {
        AfterKey(key, es[1..]);
      } else {
        PutHolds(es[1..], key, value, e);
      }
    }
  }

  /** A key before the first is before all. */
  lemma AfterKey<V>(key: string, es: seq<Pair<V>>)
    requires Sorted(es)
    requires Before(key, es) || (es != [] && Lex(key, es[0].key) < 0)
    ensures forall e :: e in es ==> Lex(key, e.key) < 0 && e.key != key
  {
    forall e | e in es ensures Lex(key, e.key) < 0 && e.key != key {
      if !Before(key, es) && e != es[0] {
        LexTransitive(key, es[0].key, e.key);
      }
      LexEqual(key, e.key);
    }
  }

  lemma {:induction false} PutSorted<V>(es: seq<Pair<V>>, key: string, value: V)
    requires Sorted(es)
    ensures Sorted(Put(es, key, value))
  {
    if es != [] {
      SortedHead(es);
      if Lex(key, es[0].key) < 0 {
        AfterKey(key, es);
        SortedCons(Pair(key, value), es);
      } else if key == es[0].key {
        SortedCons(Pair(key, value), es[1..]);
      } else {
        PutSorted(es[1..], key, value);
        LexEqual(key, es[0].key);
        LexOpposite(key, es[0].key);
        forall e | e in Put(es[1..], key, value) ensures Lex(es[0].key, e.key) < 0 {
          PutHolds(es[1..], key, value, e);
        }
        SortedCons(es[0], Put(es[1..], key, value));
      }
    }
  }

  lemma PutHas<V>(es: seq<Pair<V>>, key: string, value: V, other: string)
    requires Sorted(es)
    ensures Has(Put(es, key, value), other) <==> other == key || Has(es, other)
  {
    var now := Put(es, key, value);
    if Has(now, other) {
      var i :| 0 <= i < |now| && now[i].key == other;
      PutHolds(es, key, value, now[i]);
    }
    if other == key {
      PutHolds(es, key, value, Pair(key, value));
    } else if Has(es, other) {
      var i :| 0 <= i < |es| && es[i].key == other;
      PutHolds(es, key, value, es[i]);
    }
  }

  /** In a map each key has one value. */
  lemma OneValue<V>(es: seq<Pair<V>>, e: Pair<V>)
    requires Sorted(es) && e in es
    ensures Has(es, e.key) && Get(es, e.key) == e.value
  {
    var i :| 0 <= i < |es| && es[i] == e;
    var j := IndexOf(es, e.key);
    LexEqual(e.key, e.key);
    assert j <= i;
  }

  lemma PutGet<V>(es: seq<Pair<V>>, key: string, value: V, other: string)
    requires Sorted(es) && (other == key || Has(es, other))
    ensures Has(Put(es, key, value), other)
    ensures Get(Put(es, key, value), other) == if other == key then value else Get(es, other)
  {
    PutHas(es, key, value, other);
    PutSorted(es, key, value);
    var e := if other == key then Pair(key, value) else es[IndexOf(es, other)];
    PutHolds(es, key, value, e);
    OneValue(Put(es, key, value), e);
  }

  /** Maps with the same entries are the same. */
  lemma {:induction false} SameEntries<V>(a: seq<Pair<V>>, b: seq<Pair<V>>)
    requires Sorted(a) && Sorted(b)
    requires forall e :: e in a <==> e in b
    ensures a == b
  {
    FirstIn(a);
    FirstIn(b);
    if a != [] && b != [] {
      SameFirst(a, b);
      SortedHead(a);
      SortedHead(b);
      forall e ensures e in a[1..] <==> e in b[1..] {
        InTail(a, e);
        InTail(b, e);
      }
      SameEntries(a[1..], b[1..]);
      assert a == [a[0]] + a[1..] && b == [b[0]] + b[1..];
    }
  }

  lemma FirstIn<V>(es: seq<Pair<V>>)
    ensures es == [] || es[0] in es
  {
  }

  lemma SameFirst<V>(a: seq<Pair<V>>, b: seq<Pair<V>>)
    requires Sorted(a) && Sorted(b) && a != [] && b != []
    requires forall e :: e in a <==> e in b
    ensures a[0] == b[0]
  {
    assert a[0] in b && b[0] in a;
    var i :| 0 <= i < |b| && b[i] == a[0];
    var j :| 0 <= j < |a| && a[j] == b[0];
    LexOpposite(a[0].key, b[0].key);
  }

  lemma InTail<V>(a: seq<Pair<V>>, e: Pair<V>)
    requires Sorted(a) && a != []
    ensures e in a[1..] <==> e in a && e != a[0]
  {
    LexEqual(a[0].key, a[0].key);
    assert a == [a[0]] + a[1..];
  }

  /** A second value for a key replaces the first. */
  lemma PutTwice<V>(es: seq<Pair<V>>, key: string, first: V, second: V)
    requires Sorted(es)
    ensures Put(Put(es, key, first), key, second) == Put(es, key, second)
  {
    var once := Put(es, key, first);
    PutSorted(es, key, first);
    PutSorted(once, key, second);
    PutSorted(es, key, second);
    forall e ensures e in Put(once, key, second) <==> e in Put(es, key, second) {
      PutHolds(once, key, second, e);
      PutHolds(es, key, first, e);
      PutHolds(es, key, second, e);
    }
    SameEntries(Put(once, key, second), Put(es, key, second));
  }

  lemma PutSame<V>(es: seq<Pair<V>>, key: string)
    requires Sorted(es) && Has(es, key)
    ensures Put(es, key, Get(es, key)) == es
  {
    var value := Get(es, key);
    PutSorted(es, key, value);
    assert es[IndexOf(es, key)] == Pair(key, value);
    forall e ensures e in Put(es, key, value) <==> e in es {
      PutHolds(es, key, value, e);
      if e in es && e.key == key {
        OneValue(es, e);
      }
    }
    SameEntries(Put(es, key, value), es);
  }

  /** Putting distinct keys into a map adds exactly them. */
  lemma {:induction false} PutAllHolds<V>(es: seq<Pair<V>>, more: seq<Pair<V>>, e: Pair<V>)
    requires Sorted(es) && Sorted(more)
    ensures Sorted(PutAll(es, more))
    ensures e in PutAll(es, more) <==> e in more || (e in es && !Has(more, e.key))
    decreases more
  {
    if more != [] {
      var now := Put(es, more[0].key, more[0].value);
      PutSorted(es, more[0].key, more[0].value);
      SortedHead(more);
      PutAllHolds(now, more[1..], e);
      PutHolds(es, more[0].key, more[0].value, e);
      assert more == [more[0]] + more[1..];
      HeadNotLater(more);
      HasHead(more, e.key);
    }
  }

  lemma HeadNotLater<V>(more: seq<Pair<V>>)
    requires Sorted(more) && more != []
    ensures !Has(more[1..], more[0].key)
  {
    LexEqual(more[0].key, more[0].key);
  }

  lemma HasHead<V>(more: seq<Pair<V>>, key: string)
    requires more != []
    ensures Has(more, key) <==> more[0].key == key || Has(more[1..], key)
  {
    if Has(more, key) && more[0].key != key {
      var i :| 0 <= i < |more| && more[i].key == key;
      assert more[1..][i - 1].key == key;
    }
    if Has(more[1..], key) {
      var i :| 0 <= i < |more| - 1 && more[1..][i].key == key;
      assert more[i + 1].key == key;
    }
  }
}
