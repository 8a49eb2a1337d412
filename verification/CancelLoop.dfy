/** Why the worklist of cancel() computes exactly the tasks reached from the one it names. */
module CancelLoop {
  import opened Wrappers
  import opened QueueState
  import Steps = QueueSteps
  import opened QueueInvariant
  import opened QueueProofs

  function OrderSet(list: seq<Entry>): set<nat> {
    set i | 0 <= i < |list| :: list[i].order
  }

  /** The state after `gone` has been taken off the queue, with those in `marked` marked
      cancelled so far. */
  ghost function Marked(s: Queue, root: nat, gone: set<nat>, marked: set<nat>): Queue {
    s.(ready := seq(|s.ready|, p requires 0 <= p < |s.ready| => Steps.Without(s.ready[p], root)),
       unfinished := s.unfinished - marked,
       dependents := s.dependents - Steps.IdsOf(s, marked),
       waiting := s.waiting - gone,
       results := map i | i in s.results :: if i in Steps.IdsOf(s, marked) then Cancelled else s.results[i],
       history := s.history.(place := seq(|s.history.place|, o requires 0 <= o < |s.history.place| =>
         if o in marked then Dropped else s.history.place[o])))
  }

  ghost predicate Distinct(list: seq<Entry>) {
    forall i, j :: 0 <= i < j < |list| ==> list[i].order != list[j].order
  }

  /** `removed` holds tasks reached from the root, each once, and every one that runs directly
      after one of the first `i`, which are the ones marked. */
  ghost predicate Worklist(s: Queue, root: nat, removed: seq<Entry>, i: nat) {
    && i <= |removed| && Distinct(removed)
    && Shape(s) && root in OrderSet(removed)
    && (forall k :: 0 <= k < |removed| ==>
          removed[k].order < |s.history.log| && removed[k] == EntryOf(s.history.log, removed[k].order)
          && Steps.Reaches(s, root, removed[k].order))
    && (forall a, b :: a in OrderSet(removed[..i]) && Steps.RunsAfter(s, a, b) ==> b in OrderSet(removed))
  }

  /** With every task marked, the worklist holds the whole closure and nothing else. */
  lemma WorklistIsClosure(s: Queue, root: nat, removed: seq<Entry>)
    requires Worklist(s, root, removed, |removed|)
    ensures OrderSet(removed) == Steps.Closure(s, root)
  {
    assert removed[..|removed|] == removed;
    forall b | b in Steps.Closure(s, root) ensures b in OrderSet(removed) {
      ReachedIsListed(s, root, b, OrderSet(removed));
    }
  }

  /** With every task on the list marked, the state is the one a cancel leads to. */
  lemma MarkedAll(s: Queue, id: nat, removed: seq<Entry>)
    requires Steps.Cancellable(s, id) && Worklist(s, s.history.owner[id], removed, |removed|)
    ensures Marked(s, s.history.owner[id], OrderSet(removed), OrderSet(removed[..|removed|])) == Steps.Cancel(s, id)
  {
    assert removed[..|removed|] == removed;
    WorklistIsClosure(s, s.history.owner[id], removed);
  }

  lemma {:induction false} ReachedIsListed(s: Queue, a: nat, b: nat, listed: set<nat>)
    requires Steps.Reaches(s, a, b) && a in listed
    requires forall x, y :: x in listed && Steps.RunsAfter(s, x, y) ==> y in listed
    ensures b in listed
    decreases b
  {
    if a != b {
      var m :| a <= m < b && Steps.Reaches(s, a, m) && Steps.RunsAfter(s, m, b);
      ReachedIsListed(s, a, m, listed);
    }
  }

  /** `taken` are the waiting tasks listed under a result, each once; none when there is none. */
  ghost predicate TakenFrom(waiting: map<nat, Waiting>, dependents: map<nat, seq<nat>>, result: Option<nat>, taken: seq<Entry>) {
    && Distinct(taken)
    && (forall k :: 0 <= k < |taken| ==>
          taken[k].order in waiting && taken[k] == waiting[taken[k].order].task)
    && OrderSet(taken) == (set o | o in waiting && result.Some? && result.value in dependents && o in dependents[result.value])
  }

  lemma Single(e: Entry)
    ensures OrderSet([e]) == {e.order} && OrderSet([]) == {}
  {
    assert [e][0].order in OrderSet([e]);
  }

  lemma Concat(a: seq<Entry>, b: seq<Entry>)
    ensures OrderSet(a + b) == OrderSet(a) + OrderSet(b)
  {
    forall o | o in OrderSet(a) + OrderSet(b) ensures o in OrderSet(a + b) {
      if o in OrderSet(a) {
        var i :| 0 <= i < |a| && a[i].order == o;
        assert (a + b)[i].order == o;
      } else {
        var i :| 0 <= i < |b| && b[i].order == o;
        assert (a + b)[|a| + i].order == o;
      }
    }
  }

  /** Under the invariant, a waiting task is listed under a result just when it names it. */
  lemma ListedIsNamed(s: Queue, id: nat, o: nat)
    requires Shape(s) && Counted(s.dependents, s.waiting, s.history.log, []) && o in s.waiting && id in s.dependents
    ensures o in s.dependents[id] <==> id in s.history.log[o].after
  {
    assert multiset(s.dependents[id])[o] == multiset(s.history.log[o].after)[id];
  }

  /** Marking the next task and taking the tasks listed under it keeps the worklist. */
  lemma WorklistStep(s: Queue, root: nat, removed: seq<Entry>, i: nat, taken: seq<Entry>)
    requires Worklist(s, root, removed, i) && i < |removed|
    requires WaitingTable(s.waiting, s.history, {}) && Counted(s.dependents, s.waiting, s.history.log, [])
    requires Chains(s.history, s.results) && Owners(s.history, s.results, s.nextId)
    requires removed[i].result.Some? ==> removed[i].result.value in s.dependents
    requires TakenFrom(s.waiting - OrderSet(removed), s.dependents, removed[i].result, taken)
    ensures Worklist(s, root, removed + taken, i + 1)
  {
    hide Counted, Chains, Owners, Steps.Reaches, Steps.RunsAfter;
    StepIsClosed(s, root, removed, i, taken);
    var all := removed + taken;
    Concat(removed, taken);
    forall k | 0 <= k < |taken|
      ensures taken[k].order < |s.history.log| && taken[k] == EntryOf(s.history.log, taken[k].order)
      ensures Steps.Reaches(s, root, taken[k].order)
    {
      assert taken[k].order in OrderSet(taken);
      TakenIsReached(s, root, removed[i].order, removed[i].result.value, taken[k].order);
    }
    forall k, l | 0 <= k < |removed| && 0 <= l < |taken| ensures removed[k].order != taken[l].order {
      assert removed[k].order in OrderSet(removed);
    }
  }

  lemma StepIsClosed(s: Queue, root: nat, removed: seq<Entry>, i: nat, taken: seq<Entry>)
    requires Worklist(s, root, removed, i) && i < |removed|
    requires WaitingTable(s.waiting, s.history, {}) && Counted(s.dependents, s.waiting, s.history.log, [])
    requires removed[i].result.Some? ==> removed[i].result.value in s.dependents
    requires TakenFrom(s.waiting - OrderSet(removed), s.dependents, removed[i].result, taken)
    ensures var all := removed + taken;
      forall a, b :: a in OrderSet(all[..i + 1]) && Steps.RunsAfter(s, a, b) ==> b in OrderSet(all)
  {
    var all := removed + taken;
    Concat(removed, taken);
    assert all[..i + 1] == removed[..i] + [removed[i]];
    Concat(removed[..i], [removed[i]]);
    Single(removed[i]);
    forall b | Steps.RunsAfter(s, removed[i].order, b) ensures b in OrderSet(all) {
      ListedIsNamed(s, removed[i].result.value, b);
    }
  }

  lemma TakenIsReached(s: Queue, root: nat, a: nat, id: nat, o: nat)
    requires Shape(s) && WaitingTable(s.waiting, s.history, {}) && Counted(s.dependents, s.waiting, s.history.log, [])
    requires Chains(s.history, s.results) && Owners(s.history, s.results, s.nextId)
    requires a < s.accepted && s.history.log[a].result == Some(id) && Steps.Reaches(s, root, a)
    requires o in s.waiting && id in s.dependents && o in s.dependents[id]
    ensures Steps.Reaches(s, root, o)
  {
    ListedIsNamed(s, id, o);
    assert s.history.owner[id] == a;
    ReachesUp(s, root, a);
    assert Steps.RunsAfter(s, a, o);
  }

  // ---- the code's state at each turn ----

  lemma MarkedNone(s: Queue, root: nat, t: Queue)
    requires Shape(s)
    requires |t.ready| == |s.ready| && forall p :: 0 <= p < |s.ready| ==> t.ready[p] == Steps.Without(s.ready[p], root)
    requires t == s.(ready := t.ready, waiting := s.waiting - {root})
    ensures t == Marked(s, root, {root}, {})
  {
    var u := Marked(s, root, {root}, {});
    assert t.ready == u.ready;
    assert t.dependents == u.dependents;
    assert t.results == u.results;
    assert t.history.place == u.history.place;
  }

  lemma IdsOfOneMore(s: Queue, marked: set<nat>, a: nat)
    requires Shape(s) && Owners(s.history, s.results, s.nextId) && a < s.accepted
    ensures Steps.IdsOf(s, marked + {a}) == Steps.IdsOf(s, marked)
      + if s.history.log[a].result.Some? then {s.history.log[a].result.value} else {}
  {
  }

  /** What one turn of the loop does to the fields. */
  ghost function Turn(u: Queue, task: Entry, taken: seq<Entry>): Queue
    requires task.order < |u.history.place|
  {
    u.(unfinished := u.unfinished - {task.order},
       dependents := if task.result.Some? then u.dependents - {task.result.value} else u.dependents,
       waiting := u.waiting - OrderSet(taken),
       results := if task.result.Some? && task.result.value in u.results && u.results[task.result.value] == Pending
                  then u.results[task.result.value := Cancelled] else u.results,
       history := u.history.(place := u.history.place[task.order := Dropped]))
  }

  lemma TurnMarks(s: Queue, root: nat, gone: set<nat>, marked: set<nat>, task: Entry, taken: seq<Entry>)
    requires Shape(s) && Owners(s.history, s.results, s.nextId) && task.order < s.accepted
    requires task == EntryOf(s.history.log, task.order)
    requires task.result.Some? ==>
      && task.result.value in s.results && s.results[task.result.value] == Pending
      && task.result.value !in Steps.IdsOf(s, marked)
    ensures Turn(Marked(s, root, gone, marked), task, taken)
         == Marked(s, root, gone + OrderSet(taken), marked + {task.order})
  {
    var t := Turn(Marked(s, root, gone, marked), task, taken);
    var u := Marked(s, root, gone + OrderSet(taken), marked + {task.order});
    IdsOfOneMore(s, marked, task.order);
    assert t.unfinished == u.unfinished;
    assert t.dependents == u.dependents;
    assert t.waiting == u.waiting;
    assert t.results == u.results;
    assert t.history.place == u.history.place;
  }

  /** The lists of a result not yet marked are as they were. */
  lemma TakenFromSame(s: Queue, root: nat, gone: set<nat>, marked: set<nat>, result: Option<nat>, taken: seq<Entry>)
    requires var u := Marked(s, root, gone, marked); TakenFrom(u.waiting, u.dependents, result, taken)
    requires result.Some? ==> result.value !in Steps.IdsOf(s, marked)
    ensures TakenFrom(s.waiting - gone, s.dependents, result, taken)
  {
  }

  /** What the search of the lists relies on. */
  ghost predicate Searchable(s: Queue) {
    && Shape(s) && ReadyLists(s.ready, s.history) && WaitingTable(s.waiting, s.history, {})
    && Owners(s.history, s.results, s.nextId)
  }

  /** The next task on the list has not been marked, and is still on the queue. */
  ghost predicate Unmarked(s: Queue, task: Entry, marked: set<nat>) {
    && task.order !in marked && task.order < |s.history.log| && task == EntryOf(s.history.log, task.order)
    && (task.result.Some? ==>
          && task.result.value in s.results && s.results[task.result.value] == Pending
          && task.result.value !in Steps.IdsOf(s, marked)
          && task.result.value in s.dependents)
    && (forall o :: o in s.waiting ==> s.waiting[o].task.order == o)
  }

  lemma NextIsUnmarked(s: Queue, root: nat, removed: seq<Entry>, i: nat)
    requires Searchable(s) && Results(s.history, s.results, s.workers) && Listing(s.dependents, s.history) && i < |removed| && Worklist(s, root, removed, i)
    requires root < s.accepted && s.history.place[root] in {Place.Ready, Aside}
    ensures Unmarked(s, removed[i], OrderSet(removed[..i]))
    ensures var u := Marked(s, root, OrderSet(removed), OrderSet(removed[..i]));
      removed[i].order < |u.history.place| && forall o :: o in u.waiting ==> u.waiting[o].task.order == o
  {
    ClosurePlaces(s, root, removed[i].order);
  }

  /** The task that a cancel of this id takes first. */
  predicate RootOf(s: Queue, id: nat, root: nat) {
    Steps.Cancellable(s, id) && root == s.history.owner[id] && root < |s.history.log|
  }

  lemma WorklistStart(s: Queue, root: nat, first: Entry)
    requires Shape(s) && root < s.accepted && first == EntryOf(s.history.log, root)
    ensures Worklist(s, root, [first], 0)
    ensures OrderSet([first]) == {root} && OrderSet([first][..0]) == {}
  {
    Single(first);
    assert [first][..0] == [];
    assert Steps.Reaches(s, root, root);
  }

  /** A turn of the loop keeps what the loop maintains. */
  lemma TurnKeeps(s: Queue, root: nat, removed: seq<Entry>, i: nat, taken: seq<Entry>)
    requires Inv(s) && i < |removed| && Worklist(s, root, removed, i)
    requires Unmarked(s, removed[i], OrderSet(removed[..i]))
    requires var u := Marked(s, root, OrderSet(removed), OrderSet(removed[..i]));
      TakenFrom(u.waiting, u.dependents, removed[i].result, taken)
    ensures Worklist(s, root, removed + taken, i + 1)
    ensures Turn(Marked(s, root, OrderSet(removed), OrderSet(removed[..i])), removed[i], taken)
         == Marked(s, root, OrderSet(removed + taken), OrderSet((removed + taken)[..i + 1]))
  {
    hide Worklist, TakenFrom, Marked, Turn;
    TakenFromSame(s, root, OrderSet(removed), OrderSet(removed[..i]), removed[i].result, taken);
    WorklistStep(s, root, removed, i, taken);
    TurnMarks(s, root, OrderSet(removed), OrderSet(removed[..i]), removed[i], taken);
    Concat(removed, taken);
    assert (removed + taken)[..i + 1] == removed[..i] + [removed[i]];
    Concat(removed[..i], [removed[i]]);
    Single(removed[i]);
  }

  // ---- take_out() ----

  predicate Holds(e: Entry, id: nat) {
    e.result == Some(id)
  }

  /** A ready entry with the result is the task it belongs to, which is on no other list. */
  lemma FoundReady(s: Queue, p: nat, k: nat, id: nat)
    requires Shape(s) && ReadyLists(s.ready, s.history) && Owners(s.history, s.results, s.nextId)
    requires p < PRIORITIES && k < |s.ready[p]| && Holds(s.ready[p][k], id)
    ensures Steps.Cancellable(s, id) && s.history.place[s.history.owner[id]] == Place.Ready
    ensures var root := s.history.owner[id];
      && s.ready[p][k] == EntryOf(s.history.log, root)
      && s.ready[p][..k] + s.ready[p][k + 1..] == Steps.Without(s.ready[p], root)
      && forall q :: 0 <= q < PRIORITIES && q != p ==> Steps.Without(s.ready[q], root) == s.ready[q]
  {
    var root := s.ready[p][k].order;
    assert Lists(s.ready[p], p, s.history);
    assert s.history.owner[id] == root;
    assert Steps.IndexOf(s.ready[p], root) == k;
    forall q | 0 <= q < PRIORITIES && q != p ensures Steps.Without(s.ready[q], root) == s.ready[q] {
      assert Lists(s.ready[q], q, s.history);
    }
  }

  lemma FoundReadyMarks(s: Queue, p: nat, k: nat, id: nat, found: Option<Entry>, t: Queue)
    requires Searchable(s) && TookReady(s, t, id, found, p, k)
    ensures found.Some? && Steps.Cancellable(s, id) && found.value == EntryOf(s.history.log, s.history.owner[id])
    ensures t == Marked(s, found.value.order, {found.value.order}, {})
  {
    FoundReady(s, p, k, id);
    assert s.ready[p][k].order !in s.waiting;
    hide Searchable, Marked, Steps.Cancellable, Steps.Without;
    assert s.waiting - {s.ready[p][k].order} == s.waiting;
    MarkedNone(s, s.ready[p][k].order, t);
  }

  lemma FoundWaiting(s: Queue, o: nat, id: nat)
    requires Shape(s) && ReadyLists(s.ready, s.history) && Owners(s.history, s.results, s.nextId)
    requires WaitingTable(s.waiting, s.history, {})
    requires o in s.waiting && Holds(s.waiting[o].task, id)
    ensures Steps.Cancellable(s, id)
    ensures s.history.owner[id] == o && s.waiting[o].task == EntryOf(s.history.log, o)
    ensures forall q :: 0 <= q < PRIORITIES ==> Steps.Without(s.ready[q], o) == s.ready[q]
  {
    forall q | 0 <= q < PRIORITIES ensures Steps.Without(s.ready[q], o) == s.ready[q] {
      assert Lists(s.ready[q], q, s.history);
    }
  }

  lemma FoundWaitingMarks(s: Queue, o: nat, id: nat, found: Option<Entry>, t: Queue)
    requires Searchable(s) && TookWaiting(s, t, id, found, o)
    ensures found.Some? && Steps.Cancellable(s, id) && found.value == EntryOf(s.history.log, s.history.owner[id])
    ensures t == Marked(s, found.value.order, {found.value.order}, {})
  {
    FoundWaiting(s, o, id);
    hide Searchable, Marked, Steps.Cancellable, Steps.Without;
    MarkedNone(s, o, t);
  }

  lemma CancellableIsFound(s: Queue, id: nat)
    requires Inv(s) && Steps.Cancellable(s, id)
    ensures || (exists p, k :: 0 <= p < PRIORITIES && 0 <= k < |s.ready[p]| && Holds(s.ready[p][k], id))
            || (exists o :: o in s.waiting && Holds(s.waiting[o].task, id))
  {
    var o := s.history.owner[id];
    hide Results, Listing, Chains, Counted, Met, Served, Fifo, Conserved, OnWorkers, Starts, ReadyLists;
    assert Shape(s) && Owners(s.history, s.results, s.nextId);
    assert s.history.log[o].result == Some(id);
    if s.history.place[o] == Aside {
      assert Holds(s.waiting[o].task, id);
    } else {
      ReadyIsListed(s, o, id);
    }
  }

  lemma ReadyIsListed(s: Queue, o: nat, id: nat)
    requires Shape(s) && ReadyLists(s.ready, s.history) && o < s.accepted
    requires s.history.place[o].Ready? && s.history.log[o].result == Some(id)
    ensures exists p, k :: 0 <= p < PRIORITIES && 0 <= k < |s.ready[p]| && Holds(s.ready[p][k], id)
  {
    var p := s.history.log[o].priority;
    assert Lists(s.ready[p], p, s.history);
    var k :| 0 <= k < |s.ready[p]| && s.ready[p][k] == EntryOf(s.history.log, o);
    assert Holds(s.ready[p][k], id);
  }

  lemma FoundNowhere(s: Queue, id: nat)
    requires Inv(s) && NoneHolds(s, id)
    ensures !Steps.Cancellable(s, id)
  {
    if Steps.Cancellable(s, id) {
      CancellableIsFound(s, id);
    }
  }

  ghost predicate TookReady(s: Queue, t: Queue, id: nat, found: Option<Entry>, p: nat, k: nat) {
    && p < |s.ready| && k < |s.ready[p]| && Holds(s.ready[p][k], id) && found == Some(s.ready[p][k])
    && t == s.(ready := s.ready[p := s.ready[p][..k] + s.ready[p][k + 1..]])
  }

  ghost predicate TookWaiting(s: Queue, t: Queue, id: nat, found: Option<Entry>, o: nat) {
    && o in s.waiting && Holds(s.waiting[o].task, id) && found == Some(s.waiting[o].task)
    && t == s.(waiting := s.waiting - {o})
  }

  ghost predicate NoneHolds(s: Queue, id: nat) {
    && (forall p, k :: 0 <= p < |s.ready| && 0 <= k < |s.ready[p]| ==> !Holds(s.ready[p][k], id))
    && (forall o :: o in s.waiting ==> !Holds(s.waiting[o].task, id))
  }

  /** What the search finds: an entry on a list, one aside, or none anywhere. */
  ghost predicate TookOut(s: Queue, t: Queue, id: nat, found: Option<Entry>) {
    || (exists p, k :: TookReady(s, t, id, found, p, k))
    || (exists o :: TookWaiting(s, t, id, found, o))
    || (found == None && t == s && NoneHolds(s, id))
  }

  lemma TookOutMarks(s: Queue, t: Queue, id: nat, found: Option<Entry>)
    requires Inv(s) && TookOut(s, t, id, found)
    ensures found.Some? <==> Steps.Cancellable(s, id)
    ensures found.None? ==> t == s == Steps.Cancel(s, id)
    ensures found.Some? ==>
      && found.value == EntryOf(s.history.log, s.history.owner[id])
      && t == Marked(s, found.value.order, {found.value.order}, {})
  {
    assert Searchable(s);
    hide Inv, Searchable, Marked, Holds, TookReady, TookWaiting, NoneHolds;
    if p, k :| TookReady(s, t, id, found, p, k) {
      FoundReadyMarks(s, p, k, id, found, t);
    } else if o :| TookWaiting(s, t, id, found, o) {
      FoundWaitingMarks(s, o, id, found, t);
    } else {
      FoundNowhere(s, id);
    }
  }
}
