/** What moving one task from place to place does to each part of the invariant. */
module QueueMoves {
  import opened Wrappers
  import opened QueueState
  import opened QueueInvariant

  /** `h'` is `h` with task `o` moved to another place. */
  predicate Moved(h: History, h': History, o: nat, to: Place) {
    && Aligned(h) && Aligned(h')
    && h'.log == h.log && h'.owner == h.owner
    && o < |h.log|
    && h'.place == h.place[o := to]
  }

  lemma ListsAdd(list: seq<Entry>, p: nat, h: History, h': History, o: nat)
    requires Moved(h, h', o, Place.Ready) && Lists(list, p, h) && h.place[o] != Place.Ready
    ensures Lists(if h.log[o].priority == p then list + [EntryOf(h.log, o)] else list, p, h')
  {
    if h.log[o].priority == p {
      var longer := list + [EntryOf(h.log, o)];
      assert longer[|list|] == EntryOf(h.log, o);
      forall i | 0 <= i < |list| ensures longer[i] == list[i] && list[i].order != o { }
      forall x | 0 <= x < |h.log| && x != o && EntryOf(h.log, x) in list ensures EntryOf(h.log, x) in longer { }
    }
  }

  lemma ListsTake(list: seq<Entry>, h: History, h': History, o: nat, to: Place)
    requires Moved(h, h', o, to) && Lists(list, h.log[o].priority, h) && h.place[o] == Place.Ready && to != Place.Ready
    requires list != [] && list[0].order == o
    ensures Lists(list[1..], h.log[o].priority, h')
  {
    var rest := list[1..];
    forall i | 0 <= i < |rest| ensures rest[i] == list[i + 1] && rest[i].order != o { }
    forall x | 0 <= x < |h.log| && x != o && EntryOf(h.log, x) in list ensures EntryOf(h.log, x) in rest {
      var i :| 0 <= i < |list| && list[i] == EntryOf(h.log, x);
      assert rest[i - 1] == list[i];
    }
  }

  lemma ListsKeep(list: seq<Entry>, p: nat, h: History, h': History, o: nat, to: Place)
    requires Moved(h, h', o, to) && Lists(list, p, h)
    requires h.log[o].priority == p ==> h.place[o] != Place.Ready && to != Place.Ready
    ensures Lists(list, p, h')
  {
    forall i | 0 <= i < |list| ensures list[i].order != o { }
  }

  /** The result of the task that moved follows it, and no other result changes. */
  lemma ResultsMove(h: History, h': History, o: nat, to: Place, results: map<nat, ResultState>,
                    results': map<nat, ResultState>, nextId: nat, workers: seq<Worker>, workers': seq<Worker>)
    requires Moved(h, h', o, to) && Owners(h, results, nextId) && Results(h, results, workers)
    requires results'.Keys == results.Keys
    requires forall id :: id in results && h.log[o].result != Some(id) ==> results'[id] == results[id]
    requires h.log[o].result.Some? && h.log[o].result.value in results' ==>
      results'[h.log[o].result.value] == ResultAt(to, workers')
    requires forall x :: 0 <= x < |h.log| && x != o ==> ResultAt(h.place[x], workers') == ResultAt(h.place[x], workers)
    ensures Owners(h', results', nextId) && Results(h', results', workers')
  {
    forall id | id in h.owner ensures results'[id] == ResultAt(h'.place[h.owner[id]], workers') {
      var x := h.owner[id];
      assert results[id] == ResultAt(h.place[x], workers);
      assert x == o <==> h.log[o].result == Some(id);
    }
  }

  /** Only worker w changed, and what it has in hand is task o, so no other result is affected. */
  lemma OthersUnaffected(h: History, workers: seq<Worker>, workers': seq<Worker>, w: nat, o: nat)
    requires Aligned(h) && OnWorkers(workers, h) && |workers'| == |workers| && w < |workers| && o < |h.log|
    requires forall v :: 0 <= v < |workers| && v != w ==> workers'[v] == workers[v]
    requires Busy(workers[w].control) ==> workers[w].control.task.order == o
    ensures forall x :: 0 <= x < |h.log| && x != o ==> ResultAt(h.place[x], workers') == ResultAt(h.place[x], workers)
  {
  }

  lemma ListingKeep(h: History, h': History, o: nat, to: Place, dependents: map<nat, seq<nat>>)
    requires Moved(h, h', o, to) && Listing(dependents, h) && Live(h.place[o]) && Live(to)
    ensures Listing(dependents, h')
  {
  }

  lemma ChainsMove(h: History, h': History, o: nat, to: Place, results: map<nat, ResultState>,
                   results': map<nat, ResultState>)
    requires Moved(h, h', o, to) && Chains(h, results) && Met(h, results)
    requires h.place[o] != Dropped && to != Dropped
    requires results'.Keys == results.Keys
    requires forall id :: id in results && results[id] != Pending ==> results'[id] == results[id]
    requires forall id :: id in results && results'[id] == Cancelled ==> results[id] == Cancelled
    requires Admitted(to) ==>
      Admitted(h.place[o]) || forall id :: id in h.log[o].after ==> id in results && results[id] == Returned
    ensures Chains(h', results') && Met(h', results')
  {
  }

  lemma WaitingKeep(waiting: map<nat, Waiting>, h: History, h': History, o: nat, to: Place)
    requires Moved(h, h', o, to) && WaitingTable(waiting, h, {}) && h.place[o] != Aside && to != Aside
    ensures WaitingTable(waiting, h', {})
  {
  }

  lemma ConservedMove(unfinished: set<nat>, h: History, h': History, o: nat, to: Place)
    requires Moved(h, h', o, to) && Conserved(unfinished, h) && Live(h.place[o])
    ensures Conserved(if Live(to) then unfinished else unfinished - {o}, h')
  {
  }

  lemma StartsMove(h: History, h': History, o: nat, to: Place)
    requires Moved(h, h', o, to) && Starts(h, {}) && to != Aside
    requires h.place[o].Ready? || h.place[o].On?
    requires to.On? || to.Finished?
    requires h'.started == if h.place[o].Ready? then h.started + [o] else h.started
    ensures Starts(h', {})
  {
    if h.place[o].Ready? {
      assert o !in h.started;
      assert forall x :: x in h'.started <==> x in h.started || x == o;
    }
  }

  lemma OnWorkersMove(h: History, h': History, o: nat, to: Place, workers: seq<Worker>, workers': seq<Worker>, w: nat)
    requires Moved(h, h', o, to) && OnWorkers(workers, h) && |workers'| == |workers| && w < |workers|
    requires forall v :: 0 <= v < |workers| && v != w ==> workers'[v].control == workers[v].control
    requires Busy(workers[w].control) ==> workers[w].control.task.order == o
    requires h.place[o].On? ==> h.place[o] == On(w)
    requires if Busy(workers'[w].control) then to == On(w) && workers'[w].control.task == EntryOf(h.log, o) else !to.On?
    ensures OnWorkers(workers', h')
  {
  }

  lemma ListingRetire(h: History, h': History, o: nat, results: map<nat, ResultState>, nextId: nat,
                      dependents: map<nat, seq<nat>>, dependents': map<nat, seq<nat>>)
    requires Moved(h, h', o, Finished) && Listing(dependents, h) && Owners(h, results, nextId)
    requires dependents' == if h.log[o].result.Some? then dependents - {h.log[o].result.value} else dependents
    ensures Listing(dependents', h')
  {
  }

  /** `h'` is `h` with the tasks `gone`, none of which has started, dropped. */
  ghost predicate Dropping(h: History, h': History, gone: set<nat>) {
    && Aligned(h) && Aligned(h')
    && h'.log == h.log && h'.owner == h.owner && h'.started == h.started
    && (forall o :: o in gone ==> o < |h.log| && (h.place[o].Ready? || h.place[o].Aside?))
    && (forall o :: 0 <= o < |h.log| ==> h'.place[o] == if o in gone then Dropped else h.place[o])
  }

  lemma ResultsDrop(h: History, h': History, gone: set<nat>, results: map<nat, ResultState>,
                    results': map<nat, ResultState>, nextId: nat, workers: seq<Worker>)
    requires Dropping(h, h', gone) && Owners(h, results, nextId) && Results(h, results, workers)
    requires results'.Keys == results.Keys
    requires forall id :: id in results ==>
      results'[id] == if id in h.owner && h.owner[id] in gone then Cancelled else results[id]
    ensures Owners(h', results', nextId) && Results(h', results', workers)
  {
    forall id | id in h.owner ensures results'[id] == ResultAt(h'.place[h.owner[id]], workers) {
      assert results[id] == ResultAt(h.place[h.owner[id]], workers);
    }
  }

  lemma ListingDrop(h: History, h': History, gone: set<nat>, dependents: map<nat, seq<nat>>, dependents': map<nat, seq<nat>>)
    requires Dropping(h, h', gone) && Listing(dependents, h)
    requires forall id :: id in dependents' <==> id in dependents && !(id in h.owner && h.owner[id] in gone)
    requires forall id :: id in dependents' ==> dependents'[id] == dependents[id]
    ensures Listing(dependents', h')
  {
  }

  /** When no task left runs after a dropped one, results left alone are as they were. */
  lemma ChainsDrop(h: History, h': History, gone: set<nat>, results: map<nat, ResultState>,
                   results': map<nat, ResultState>)
    requires Dropping(h, h', gone) && Chains(h, results) && Met(h, results)
    requires results'.Keys == results.Keys
    requires forall id :: id in results && !(id in h.owner && h.owner[id] in gone) ==> results'[id] == results[id]
    requires forall o, id :: 0 <= o < |h.log| && h'.place[o] != Dropped && id in h.log[o].after ==>
      id in h.owner && h.owner[id] !in gone
    ensures Chains(h', results') && Met(h', results')
  {
  }
}
