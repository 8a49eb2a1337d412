/** Every step of a queue keeps the invariant. */
module QueueProofs {
  import opened Wrappers
  import opened QueueState
  import opened QueueSteps
  import opened QueueInvariant
  import opened QueueMoves

  lemma InvIsCountable(s: Queue, limbo: set<nat>, rest: seq<nat>)
    requires Shape(s) && ReadyLists(s.ready, s.history) && WaitingTable(s.waiting, s.history, limbo)
    requires Counted(s.dependents, s.waiting, s.history.log, rest)
    ensures Countable(s)
  {
    forall o | o in s.waiting
      ensures s.waiting[o].priority < PRIORITIES && s.waiting[o].remaining > 0
      ensures s.waiting[o].task.order < |s.history.place|
    {
      assert s.waiting[o].task == EntryOf(s.history.log, o);
    }
  }

  lemma InitKeeps(number: nat, workers: nat, nextId: nat)
    requires workers > 0
    ensures Inv(Init(number, workers, nextId))
  {
    InitPlaces(number, workers, nextId);
    InitServed(number, workers, nextId);
    hide ReadyLists, WaitingTable, OnWorkers, Conserved, Owners, Counted, Met, Served, Fifo, Starts;
  }

  lemma InitPlaces(number: nat, workers: nat, nextId: nat)
    requires workers > 0
    ensures var s := Init(number, workers, nextId);
      && Shape(s) && ReadyLists(s.ready, s.history) && WaitingTable(s.waiting, s.history, {})
      && OnWorkers(s.workers, s.history) && Conserved(s.unfinished, s.history)
      && Owners(s.history, s.results, s.nextId)
      && Counted(s.dependents, s.waiting, s.history.log, []) && Met(s.history, s.results)
  {
  }

  lemma InitServed(number: nat, workers: nat, nextId: nat)
    requires workers > 0
    ensures var s := Init(number, workers, nextId);
      && Served(s.accepting, s.sweeping, s.workers, s.ready)
      && Fifo(s.history.log, s.history.started, s.ready) && Starts(s.history, {})
  {
  }

  // ---- a task made ready ----

  lemma {:induction false} FinishLastPost(pending: seq<Thunk>)
    ensures FinishLast(pending) ==> FinishLast(pending + [Other])
    ensures Finish !in pending ==> FinishLast(pending + [Finish])
    ensures FinishLast(pending) ==> Finish in pending
  {
    if pending != [] {
      FinishLastPost(pending[1..]);
      assert (pending + [Other])[1..] == pending[1..] + [Other];
      assert (pending + [Finish])[1..] == pending[1..] + [Finish];
    }
  }

  lemma PerformSweepServes(worker: Worker)
    requires !InFinish(worker)
    ensures Serving(Perform(worker, Sweep)) || worker.control.Lapsed?
    ensures !InFinish(Perform(worker, Sweep))
    ensures Finish !in worker.pending ==> Finish !in Perform(worker, Sweep).pending
  {
    assert (worker.pending + [Sweep])[|worker.pending|] == Sweep;
  }

  /** What a task in hand needs before it is made ready. */
  ghost predicate Settling(s: Queue, o: nat) {
    && Shape(s)
    && o < s.accepted && s.history.place[o] == Aside && s.history.log[o].priority < PRIORITIES
    && (s.history.log[o].direct ==> o == s.accepted - 1)
    && (s.accepting || SomeServer(s.workers))
  }

  function Readied(s: Queue, o: nat): Queue
    requires Callable(s) && o < |s.history.log| && s.history.log[o].priority < PRIORITIES
  {
    MakeReady(s, EntryOf(s.history.log, o), s.history.log[o].priority)
  }

  lemma MakeReadyLists(s: Queue, o: nat)
    requires Settling(s, o) && ReadyLists(s.ready, s.history)
    ensures var t := Readied(s, o); ReadyLists(t.ready, t.history)
  {
    var t := Readied(s, o);
    forall q | 0 <= q < |t.ready| ensures Lists(t.ready[q], q, t.history) {
      ListsAdd(s.ready[q], q, s.history, t.history, o);
    }
  }

  lemma MakeReadyServed(s: Queue, o: nat)
    requires Settling(s, o) && Served(s.accepting, s.sweeping, s.workers, s.ready)
    ensures var t := Readied(s, o); Served(t.accepting, t.sweeping, t.workers, t.ready)
  {
    if s.accepting {
      forall w | 0 <= w < |s.workers| { PerformSweepServes(s.workers[w]); }
    } else {
      assert Readied(s, o).workers == s.workers;
    }
  }

  lemma MakeReadyFifo(s: Queue, o: nat)
    requires Settling(s, o) && ReadyLists(s.ready, s.history) && Starts(s.history, {o})
    requires Fifo(s.history.log, s.history.started, s.ready)
    ensures var t := Readied(s, o); Fifo(t.history.log, t.history.started, t.ready)
  {
    var t := Readied(s, o);
    var p := s.history.log[o].priority;
    forall q | 0 <= q < PRIORITIES ensures Ascending(t.history.log, q, t.history.started + Orders(t.ready[q])) {
      var line := s.history.started + Orders(s.ready[q]);
      if q == p {
        assert t.history.started + Orders(t.ready[q]) == line + [o];
        assert Lists(s.ready[p], p, s.history);
        forall x | x in line && s.history.log[o].direct ensures x < o {
          LineHolds(s.ready[p], p, s.history, x);
        }
      }
    }
  }

  lemma LineHolds(list: seq<Entry>, p: nat, h: History, x: nat)
    requires Aligned(h) && Lists(list, p, h) && x in h.started + Orders(list)
    requires forall o :: o in h.started ==> 0 <= o < |h.log| && (h.place[o].On? || h.place[o].Finished?)
    ensures x < |h.log| && h.place[x] != Aside
  {
    if x !in h.started {
      assert x in Orders(list);
    }
  }

  lemma MakeReadyPlaces(s: Queue, o: nat)
    requires Settling(s, o) && WaitingTable(s.waiting, s.history, {o}) && OnWorkers(s.workers, s.history)
    requires Conserved(s.unfinished, s.history) && Starts(s.history, {o})
    ensures var t := Readied(s, o);
      && WaitingTable(t.waiting, t.history, {}) && OnWorkers(t.workers, t.history)
      && Conserved(t.unfinished, t.history) && Starts(t.history, {})
  {
  }

  lemma MakeReadyResults(s: Queue, o: nat)
    requires Settling(s, o) && Listing(s.dependents, s.history) && Results(s.history, s.results, s.workers)
    requires Owners(s.history, s.results, s.nextId)
    requires Chains(s.history, s.results) && Met(s.history, s.results)
    requires forall id :: id in s.history.log[o].after ==> id in s.results && s.results[id] == Returned
    ensures var t := Readied(s, o);
      && Listing(t.dependents, t.history) && Results(t.history, t.results, t.workers)
      && Owners(t.history, t.results, t.nextId) && Chains(t.history, t.results) && Met(t.history, t.results)
  {
    var t := Readied(s, o);
    if s.history.log[o].result.Some? {
      assert s.results[s.history.log[o].result.value] == Pending;
    }
    ResultsMove(s.history, t.history, o, Place.Ready, s.results, t.results, s.nextId, s.workers, t.workers);
    ListingKeep(s.history, t.history, o, Place.Ready, s.dependents);
    ChainsMove(s.history, t.history, o, Place.Ready, s.results, t.results);
  }

  /** A task in hand whose results have all returned goes on its list. */
  lemma MakeReadyKeeps(s: Queue, o: nat, rest: seq<nat>)
    requires Partial(s, {o}, rest) && Settling(s, o)
    requires forall id :: id in s.history.log[o].after ==> id in s.results && s.results[id] == Returned
    ensures Partial(Readied(s, o), {}, rest)
    ensures !s.accepting ==> Readied(s, o).workers == s.workers
  {
    MakeReadyLists(s, o);
    MakeReadyServed(s, o);
    MakeReadyFifo(s, o);
    MakeReadyPlaces(s, o);
    MakeReadyResults(s, o);
  }

  // ---- done() ----

  /** With none of them listed any more, all the results a task runs after have returned. */
  lemma AllReturned(s: Queue, o: nat)
    requires Shape(s) && Owners(s.history, s.results, s.nextId) && Results(s.history, s.results, s.workers)
    requires Listing(s.dependents, s.history) && Chains(s.history, s.results)
    requires o < s.accepted && s.history.place[o] == Aside
    requires CountIn(s.history.log[o].after, s.dependents.Keys) == 0
    ensures forall id :: id in s.history.log[o].after ==> id in s.results && s.results[id] == Returned
  {
    CountInIsZero(s.history.log[o].after, s.dependents.Keys);
  }

  lemma TakeInHand(s: Queue, o: nat, rest: seq<nat>)
    requires Partial(s, {}, [o] + rest) && o in s.waiting && s.waiting[o].remaining == 1
    ensures Partial(s.(waiting := s.waiting - {o}), {o}, rest)
    ensures CountIn(s.history.log[o].after, s.dependents.Keys) == 0
  {
    assert multiset([o] + rest)[o] == 1 + multiset(rest)[o];
  }

  lemma CountDownCounted(s: Queue, o: nat, rest: seq<nat>)
    requires Countable(s) && Counted(s.dependents, s.waiting, s.history.log, [o] + rest)
    requires WaitingTable(s.waiting, s.history, {})
    requires o in s.waiting ==> s.waiting[o].remaining > 1
    ensures var t := CountOne(s, o);
      Counted(t.dependents, t.waiting, t.history.log, rest) && WaitingTable(t.waiting, t.history, {})
  {
    var t := CountOne(s, o);
    forall x | x in t.waiting
      ensures multiset([o] + rest)[x] == multiset(rest)[x] + if x == o then 1 else 0
    {
    }
  }

  lemma CountDown(s: Queue, o: nat, rest: seq<nat>)
    requires Partial(s, {}, [o] + rest)
    requires o in s.waiting ==> s.waiting[o].remaining > 1
    ensures Countable(s) && Partial(CountOne(s, o), {}, rest)
    ensures CountOne(s, o).accepting == s.accepting && CountOne(s, o).workers == s.workers
  {
    InvIsCountable(s, {}, [o] + rest);
    CountDownCounted(s, o, rest);
  }

  lemma CountOneKeeps(s: Queue, o: nat, rest: seq<nat>)
    requires Partial(s, {}, [o] + rest) && (s.accepting || SomeServer(s.workers))
    ensures Countable(s) && Partial(CountOne(s, o), {}, rest)
    ensures var t := CountOne(s, o); t.accepting || SomeServer(t.workers)
  {
    InvIsCountable(s, {}, [o] + rest);
    if o in s.waiting && s.waiting[o].remaining == 1 {
      var t := s.(waiting := s.waiting - {o});
      TakeInHand(s, o, rest);
      AllReturned(t, o);
      MakeReadyKeeps(t, o, rest);
      assert CountOne(s, o) == Readied(t, o);
    } else {
      CountDown(s, o, rest);
    }
  }

  lemma {:induction false} CountOffKeeps(s: Queue, orders: seq<nat>)
    requires Partial(s, {}, orders) && (s.accepting || SomeServer(s.workers))
    ensures Countable(s) && Inv(CountOff(s, orders))
    decreases |orders|
  {
    InvIsCountable(s, {}, orders);
    if orders != [] {
      assert [orders[0]] + orders[1..] == orders;
      CountOneKeeps(s, orders[0], orders[1..]);
      CountOffKeeps(CountOne(s, orders[0]), orders[1..]);
    }
  }

  lemma RetireCounted(s: Queue, w: nat)
    requires Shape(s) && OnWorkers(s.workers, s.history) && Owners(s.history, s.results, s.nextId)
    requires Listing(s.dependents, s.history) && Counted(s.dependents, s.waiting, s.history.log, [])
    requires w < |s.workers| && s.workers[w].control.Ran?
    ensures var t := Retire(s, w);
      Counted(t.dependents, t.waiting, t.history.log, DependentsOf(s, s.workers[w].control.task.result))
  {
    var t := Retire(s, w);
    var result := s.workers[w].control.task.result;
    if result.Some? {
      assert result.value in s.dependents;
      assert t.dependents.Keys == s.dependents.Keys - {result.value};
      forall o | o in s.waiting
        ensures CountIn(s.history.log[o].after, s.dependents.Keys)
             == CountIn(s.history.log[o].after, t.dependents.Keys) + multiset(s.dependents[result.value])[o]
      {
        CountInWithout(s.history.log[o].after, s.dependents.Keys, result.value);
      }
    }
  }

  /** The task worker w has in hand, and where it is. */
  lemma InHand(s: Queue, w: nat)
    requires Shape(s) && OnWorkers(s.workers, s.history)
    requires w < |s.workers| && Busy(s.workers[w].control)
    ensures var task := s.workers[w].control.task;
      task.order < s.accepted && s.history.place[task.order] == On(w) && task.result == s.history.log[task.order].result
  {
  }

  lemma RetirePlaces(s: Queue, w: nat)
    requires Shape(s) && ReadyLists(s.ready, s.history) && WaitingTable(s.waiting, s.history, {})
    requires OnWorkers(s.workers, s.history) && Conserved(s.unfinished, s.history) && Starts(s.history, {})
    requires w < |s.workers| && s.workers[w].control.Ran?
    ensures var t := Retire(s, w);
      && ReadyLists(t.ready, t.history) && WaitingTable(t.waiting, t.history, {})
      && OnWorkers(t.workers, t.history) && Conserved(t.unfinished, t.history) && Starts(t.history, {})
  {
    var t := Retire(s, w);
    InHand(s, w);
    var o := s.workers[w].control.task.order;
    forall p | 0 <= p < |t.ready| ensures Lists(t.ready[p], p, t.history) {
      ListsKeep(s.ready[p], p, s.history, t.history, o, Finished);
    }
    WaitingKeep(s.waiting, s.history, t.history, o, Finished);
    OnWorkersMove(s.history, t.history, o, Finished, s.workers, t.workers, w);
    ConservedMove(s.unfinished, s.history, t.history, o, Finished);
    StartsMove(s.history, t.history, o, Finished);
  }

  lemma RetireResults(s: Queue, w: nat)
    requires Shape(s) && OnWorkers(s.workers, s.history) && Owners(s.history, s.results, s.nextId)
    requires Results(s.history, s.results, s.workers) && Listing(s.dependents, s.history)
    requires Chains(s.history, s.results) && Met(s.history, s.results)
    requires w < |s.workers| && s.workers[w].control.Ran?
    ensures var t := Retire(s, w);
      && Owners(t.history, t.results, t.nextId) && Results(t.history, t.results, t.workers)
      && Listing(t.dependents, t.history) && Chains(t.history, t.results) && Met(t.history, t.results)
  {
    var t := Retire(s, w);
    InHand(s, w);
    var o := s.workers[w].control.task.order;
    OthersUnaffected(s.history, s.workers, t.workers, w, o);
    ResultsMove(s.history, t.history, o, Finished, s.results, t.results, s.nextId, s.workers, t.workers);
    ListingRetire(s.history, t.history, o, s.results, s.nextId, s.dependents, t.dependents);
    ChainsMove(s.history, t.history, o, Finished, s.results, t.results);
  }

  lemma RetireServed(s: Queue, w: nat)
    requires Shape(s) && Served(s.accepting, s.sweeping, s.workers, s.ready)
    requires w < |s.workers| && s.workers[w].control.Ran?
    ensures var t := Retire(s, w);
      Served(t.accepting, t.sweeping, t.workers, t.ready) && SomeServer(t.workers)
  {
    var t := Retire(s, w);
    assert Serving(t.workers[w]);
    assert forall v :: 0 <= v < |s.workers| ==> t.workers[v].pending == s.workers[v].pending;
  }

  lemma RetireKeeps(s: Queue, w: nat)
    requires Inv(s) && w < |s.workers| && s.workers[w].control.Ran?
    ensures Partial(Retire(s, w), {}, DependentsOf(s, s.workers[w].control.task.result))
    ensures SomeServer(Retire(s, w).workers)
  {
    RetireCounted(s, w);
    RetirePlaces(s, w);
    RetireResults(s, w);
    RetireServed(s, w);
  }

  lemma DoneKeeps(s: Queue, w: nat)
    requires Inv(s) && w < |s.workers| && s.workers[w].control.Ran?
    ensures Countable(s) && Inv(Done(s, w))
  {
    InvIsCountable(s, {}, []);
    RetireKeeps(s, w);
    CountOffKeeps(Retire(s, w), DependentsOf(s, s.workers[w].control.task.result));
  }

  // ---- submit() and enqueue() ----

  lemma {:induction false} RegisterCounts(dependents: map<nat, seq<nat>>, after: seq<nat>, order: nat, id: nat, x: nat)
    requires id in dependents
    ensures multiset(Register(dependents, after, order)[id])[x]
         == multiset(dependents[id])[x] + if x == order then multiset(after)[id] else 0
  {
    if after != [] {
      var n := |after| - 1;
      RegisterCounts(dependents, after[..n], order, id, x);
      assert after == after[..n] + [after[n]];
    }
  }

  /** What submit() and enqueue() check before they accept a task. */
  ghost predicate Acceptable(s: Queue, priority: nat, after: seq<nat>, result: Option<nat>) {
    && s.accepting && priority < PRIORITIES
    && (result.Some? ==> result.value == s.nextId)
    && (forall id :: id in after ==> id in s.results && s.results[id] != Cancelled)
  }

  ghost predicate NewId(s: Queue) {
    && s.nextId !in s.results && s.nextId !in s.history.owner && s.nextId !in s.dependents
    && (forall o :: 0 <= o < |s.history.log| ==> s.nextId !in s.history.log[o].after)
  }

  lemma NextIdIsNew(s: Queue)
    requires Shape(s) && Owners(s.history, s.results, s.nextId) && Listing(s.dependents, s.history)
    requires Chains(s.history, s.results)
    ensures NewId(s)
  {
  }

  lemma LoggedLists(s: Queue, t: Queue, task: Task)
    requires Shape(s) && ReadyLists(s.ready, s.history) && task.priority < PRIORITIES
    requires Starts(s.history, {}) && Fifo(s.history.log, s.history.started, s.ready)
    requires t.ready == s.ready && t.history.log == s.history.log + [task]
    requires t.history.place == s.history.place + [Aside] && t.history.started == s.history.started
    ensures ReadyLists(t.ready, t.history) && Fifo(t.history.log, t.history.started, t.ready)
  {
    forall p | 0 <= p < |t.ready|
      ensures Lists(t.ready[p], p, t.history)
      ensures Ascending(t.history.log, p, t.history.started + Orders(t.ready[p]))
    {
      var line := s.history.started + Orders(s.ready[p]);
      assert Lists(s.ready[p], p, s.history) && Ascending(s.history.log, p, line);
      forall i | 0 <= i < |line| ensures Direct(t.history.log, line[i], p) == Direct(s.history.log, line[i], p) {
        LineHolds(s.ready[p], p, s.history, line[i]);
      }
    }
  }

  lemma LoggedPlaces(s: Queue, t: Queue, task: Task)
    requires Shape(s) && WaitingTable(s.waiting, s.history, {}) && OnWorkers(s.workers, s.history)
    requires Conserved(s.unfinished, s.history) && Starts(s.history, {})
    requires t.waiting == s.waiting && t.workers == s.workers && t.unfinished == s.unfinished + {s.accepted}
    requires t.history.log == s.history.log + [task]
    requires t.history.place == s.history.place + [Aside] && t.history.started == s.history.started
    ensures WaitingTable(t.waiting, t.history, {s.accepted}) && OnWorkers(t.workers, t.history)
    ensures Conserved(t.unfinished, t.history) && Starts(t.history, {s.accepted})
  {
  }

  lemma LoggedResults(s: Queue, priority: nat, after: seq<nat>, result: Option<nat>)
    requires Shape(s) && Owners(s.history, s.results, s.nextId) && Results(s.history, s.results, s.workers)
    requires Acceptable(s, priority, after, result) && NewId(s)
    ensures var t := Logged(WithResult(s, result), priority, after, result);
      && Owners(t.history, t.results, t.nextId) && Results(t.history, t.results, t.workers)
  {
  }

  lemma LoggedListing(s: Queue, priority: nat, after: seq<nat>, result: Option<nat>)
    requires Shape(s) && Listing(s.dependents, s.history) && Owners(s.history, s.results, s.nextId)
    requires Acceptable(s, priority, after, result) && NewId(s)
    ensures var t := Logged(WithResult(s, result), priority, after, result); Listing(t.dependents, t.history)
  {
    var t := Logged(WithResult(s, result), priority, after, result);
    var listed := Listed(WithResult(s, result), result);
    forall id, o | id in t.dependents && o in t.dependents[id] ensures o < |t.history.log| {
      RegisterCounts(listed, after, s.accepted, id, o);
      if o != s.accepted {
        assert multiset(t.dependents[id])[o] > 0;
        assert o in listed[id];
        assert id in s.dependents && listed[id] == s.dependents[id];
      }
    }
  }

  lemma LoggedChains(s: Queue, priority: nat, after: seq<nat>, result: Option<nat>)
    requires Shape(s) && Owners(s.history, s.results, s.nextId) && Chains(s.history, s.results)
    requires Acceptable(s, priority, after, result) && NewId(s)
    ensures var t := Logged(WithResult(s, result), priority, after, result); Chains(t.history, t.results)
  {
  }

  lemma LoggedMet(s: Queue, priority: nat, after: seq<nat>, result: Option<nat>)
    requires Shape(s) && Met(s.history, s.results)
    requires Acceptable(s, priority, after, result) && NewId(s)
    ensures var t := Logged(WithResult(s, result), priority, after, result); Met(t.history, t.results)
  {
  }

  /** The lists name each waiting task, and the new one, as often as it names the result. */
  lemma LoggedNamed(s: Queue, priority: nat, after: seq<nat>, result: Option<nat>, id: nat, o: nat)
    requires Shape(s) && Listing(s.dependents, s.history) && Counted(s.dependents, s.waiting, s.history.log, [])
    requires NewId(s) && (result.Some? ==> result.value == s.nextId)
    requires o in s.waiting || o == s.accepted
    requires id in Register(Listed(WithResult(s, result), result), after, s.accepted)
    ensures var t := Logged(WithResult(s, result), priority, after, result);
      o < |t.history.log| && multiset(t.dependents[id])[o] == multiset(t.history.log[o].after)[id]
  {
    RegisterCounts(Listed(WithResult(s, result), result), after, s.accepted, id, o);
    if id in s.dependents {
      assert s.accepted !in s.dependents[id];
    }
  }

  lemma LoggedCounted(s: Queue, priority: nat, after: seq<nat>, result: Option<nat>)
    requires Shape(s) && Listing(s.dependents, s.history)
    requires Counted(s.dependents, s.waiting, s.history.log, [])
    requires Acceptable(s, priority, after, result) && NewId(s)
    ensures var t := Logged(WithResult(s, result), priority, after, result);
      && Counted(t.dependents, t.waiting, t.history.log, [])
      && (forall id :: id in t.dependents ==> multiset(t.dependents[id])[s.accepted] == multiset(after)[id])
      && t.dependents.Keys == Listed(WithResult(s, result), result).Keys
  {
    var t := Logged(WithResult(s, result), priority, after, result);
    assert t.history.log[s.accepted].after == after;
    forall id, o | id in t.dependents && (o in t.waiting || o == s.accepted)
      ensures o < |t.history.log| && multiset(t.dependents[id])[o] == multiset(t.history.log[o].after)[id]
    {
      LoggedNamed(s, priority, after, result, id, o);
    }
    forall o | o in t.waiting
      ensures CountIn(t.history.log[o].after, t.dependents.Keys) == CountIn(s.history.log[o].after, s.dependents.Keys)
    {
      CountInSame(s.history.log[o].after, t.dependents.Keys, s.dependents.Keys);
    }
  }

  lemma LoggedKeeps(s: Queue, priority: nat, after: seq<nat>, result: Option<nat>)
    requires Inv(s) && Acceptable(s, priority, after, result)
    ensures var t := Logged(WithResult(s, result), priority, after, result);
      && Partial(t, {s.accepted}, [])
      && (forall id :: id in t.dependents ==> multiset(t.dependents[id])[s.accepted] == multiset(after)[id])
      && t.dependents.Keys == Listed(WithResult(s, result), result).Keys
  {
    hide ReadyLists, WaitingTable, OnWorkers, Conserved, Owners, Results, Listing, Chains, Counted,
         Met, Served, Fifo, Starts;
    var t := Logged(WithResult(s, result), priority, after, result);
    NextIdIsNew(s);
    LoggedLists(s, t, t.history.log[s.accepted]);
    LoggedPlaces(s, t, t.history.log[s.accepted]);
    LoggedResults(s, priority, after, result);
    LoggedListing(s, priority, after, result);
    LoggedChains(s, priority, after, result);
    LoggedMet(s, priority, after, result);
    LoggedCounted(s, priority, after, result);
  }

  /** A task in hand that waits for some result still listed goes aside. */
  function SetAside(t: Queue, o: nat): Queue
    requires o < |t.history.log|
  {
    var task := t.history.log[o];
    t.(waiting := t.waiting[o := Waiting(EntryOf(t.history.log, o), task.priority,
                                         CountIn(task.after, t.dependents.Keys))])
  }

  lemma SetAsideCounted(t: Queue, o: nat)
    requires Shape(t) && WaitingTable(t.waiting, t.history, {o}) && Starts(t.history, {o})
    requires Counted(t.dependents, t.waiting, t.history.log, [])
    requires o < t.accepted && t.history.place[o] == Aside && !t.history.log[o].direct
    requires CountIn(t.history.log[o].after, t.dependents.Keys) > 0
    requires forall id :: id in t.dependents ==> multiset(t.dependents[id])[o] == multiset(t.history.log[o].after)[id]
    ensures var u := SetAside(t, o);
      && WaitingTable(u.waiting, u.history, {}) && Starts(u.history, {})
      && Counted(u.dependents, u.waiting, u.history.log, [])
  {
  }

  lemma AcceptIs(s: Queue, priority: nat, after: seq<nat>, result: Option<nat>)
    requires Shape(s) && priority < PRIORITIES
    requires Logged(s, priority, after, result).dependents.Keys == Listed(s, result).Keys
    ensures var t := Logged(s, priority, after, result);
      && t.history.log[s.accepted].direct == (CountIn(after, t.dependents.Keys) == 0)
      && t.history.place[s.accepted] == Aside && t.history.log[s.accepted].after == after
      && t.history.log[s.accepted].priority == priority
      && Accept(s, priority, after, result)
         == if CountIn(after, t.dependents.Keys) == 0 then Readied(t, s.accepted) else SetAside(t, s.accepted)
  {
  }

  lemma AcceptKeeps(s: Queue, priority: nat, after: seq<nat>, result: Option<nat>)
    requires Inv(s) && Acceptable(s, priority, after, result)
    ensures Inv(Accept(WithResult(s, result), priority, after, result))
  {
    var t := Logged(WithResult(s, result), priority, after, result);
    LoggedKeeps(s, priority, after, result);
    AcceptIs(WithResult(s, result), priority, after, result);
    if CountIn(after, t.dependents.Keys) == 0 {
      AllReturned(t, s.accepted);
      MakeReadyKeeps(t, s.accepted, []);
    } else {
      SetAsideCounted(t, s.accepted);
    }
  }

  lemma SubmitKeeps(s: Queue, priority: int, after: seq<ResultRef>)
    requires Inv(s) && HandlesExist(s, after)
    ensures Callable(s) && Inv(Submit(s, priority, after).0)
  {
    if NamesAPriority(priority) && AllFromHere(s, after) && s.accepting && !AnyCancelled(s, after) {
      NamedExist(s, after);
      AcceptKeeps(s, priority, Ids(after), None);
    }
  }

  lemma NamedExist(s: Queue, after: seq<ResultRef>)
    requires HandlesExist(s, after) && AllFromHere(s, after) && !AnyCancelled(s, after)
    ensures forall id :: id in Ids(after) ==> id in s.results && s.results[id] != Cancelled
  {
    forall id | id in Ids(after) ensures id in s.results && s.results[id] != Cancelled {
      var k :| 0 <= k < |after| && Ids(after)[k] == id;
      assert after[k] in after;
    }
  }

  lemma RefusedResultKeeps(h: History, results: map<nat, ResultState>, nextId: nat, workers: seq<Worker>)
    requires Aligned(h) && Owners(h, results, nextId) && Results(h, results, workers)
    requires Chains(h, results) && Met(h, results) && nextId !in results
    ensures var r := results[nextId := Cancelled];
      Owners(h, r, nextId + 1) && Results(h, r, workers) && Chains(h, r) && Met(h, r)
  {
  }

  lemma EnqueueKeeps(s: Queue, priority: int, after: seq<ResultRef>)
    requires Inv(s) && HandlesExist(s, after)
    ensures Callable(s) && Inv(Enqueue(s, priority, after).0)
  {
    if NamesAPriority(priority) && AllFromHere(s, after) && s.accepting {
      if AnyCancelled(s, after) {
        NextIdIsNew(s);
        RefusedResultKeeps(s.history, s.results, s.nextId, s.workers);
        RefusedResultIs(s, priority, after);
      } else {
        NamedExist(s, after);
        AcceptKeeps(s, priority, Ids(after), Some(s.nextId));
      }
    }
  }

  lemma RefusedResultIs(s: Queue, priority: int, after: seq<ResultRef>)
    requires Callable(s) && s.accepting && AnyCancelled(s, after)
    requires NamesAPriority(priority) && AllFromHere(s, after)
    ensures Enqueue(s, priority, after).0 == s.(nextId := s.nextId + 1, results := s.results[s.nextId := Cancelled])
  {
    assert s.results[s.nextId := Pending][s.nextId := Cancelled] == s.results[s.nextId := Cancelled];
  }

  // ---- cancel() ----

  lemma WithoutLists(list: seq<Entry>, p: nat, h: History, h': History, root: nat)
    requires Aligned(h) && Aligned(h') && h'.log == h.log
    requires Lists(list, p, h)
    requires forall o :: 0 <= o < |h.log| ==> (h'.place[o] == Place.Ready <==> h.place[o] == Place.Ready && o != root)
    ensures Lists(Without(list, root), p, h')
  {
    var kept := Without(list, root);
    WithoutMembers(list, root);
    WithoutDistinct(list, root);
    forall i | 0 <= i < |kept|
      ensures kept[i].order < |h.log| && kept[i] == EntryOf(h.log, kept[i].order)
      ensures h'.place[kept[i].order] == Place.Ready && h.log[kept[i].order].priority == p
    {
      assert kept[i] in list;
    }
  }

  lemma WithoutMembers(list: seq<Entry>, order: nat)
    ensures forall e :: e in Without(list, order) ==> e in list
    ensures forall e :: e in list && e.order != order ==> e in Without(list, order)
  {
    var k := IndexOf(list, order);
    if k >= 0 {
      assert list == list[..k] + [list[k]] + list[k + 1..];
    }
  }

  lemma WithoutDistinct(list: seq<Entry>, root: nat)
    requires forall i, j :: 0 <= i < j < |list| ==> list[i].order != list[j].order
    ensures var kept := Without(list, root);
      && (forall i, j :: 0 <= i < j < |kept| ==> kept[i].order != kept[j].order)
      && (forall i :: 0 <= i < |kept| ==> kept[i].order != root)
  {
    var k := IndexOf(list, root);
    var kept := Without(list, root);
    forall i | 0 <= i < |kept| ensures kept[i].order != root {
      WithoutAt(list, root, i);
    }
    forall i, j | 0 <= i < j < |kept| ensures kept[i].order != kept[j].order {
      WithoutAt(list, root, i);
      WithoutAt(list, root, j);
    }
  }

  lemma WithoutAt(list: seq<Entry>, root: nat, i: nat)
    requires i < |Without(list, root)|
    ensures var k := IndexOf(list, root);
      Without(list, root)[i] == list[if k < 0 || i < k then i else i + 1]
  {
  }

  lemma WithoutAscends(log: seq<Task>, p: nat, started: seq<nat>, list: seq<Entry>, root: nat)
    requires Ascending(log, p, started + Orders(list))
    ensures Ascending(log, p, started + Orders(Without(list, root)))
  {
    var k := IndexOf(list, root);
    var line := started + Orders(list);
    var line' := started + Orders(Without(list, root));
    var n := |started|;
    assert forall i :: 0 <= i < |line'| ==> line'[i] == line[if k < 0 || i < n + k then i else i + 1];
  }

  lemma ClosurePlaces(s: Queue, root: nat, b: nat)
    requires Shape(s) && b in Closure(s, root)
    ensures b == root || s.history.place[b] == Aside
  {
  }

  /** A task that runs after one in the closure, and is not started, is in it too. */
  lemma ClosureStep(s: Queue, root: nat, id: nat, o: nat)
    requires Shape(s) && Owners(s.history, s.results, s.nextId)
    requires Chains(s.history, s.results)
    requires o < s.accepted && s.history.place[o] == Aside && id in s.history.log[o].after
    requires id in s.history.owner && s.history.owner[id] in Closure(s, root)
    ensures o in Closure(s, root)
  {
    var m := s.history.owner[id];
    ReachesUp(s, root, m);
    assert RunsAfter(s, m, o);
    assert Reaches(s, root, m);
  }

  lemma {:induction false} ReachesUp(s: Queue, a: nat, b: nat)
    requires Reaches(s, a, b)
    ensures a <= b
  {
  }

  /** Nothing left behind runs after a cancelled task. */
  lemma ClosureLeaves(s: Queue, root: nat, o: nat, id: nat)
    requires Shape(s) && Owners(s.history, s.results, s.nextId) && Results(s.history, s.results, s.workers)
    requires Chains(s.history, s.results) && Met(s.history, s.results)
    requires root < s.accepted && s.history.place[root] in {Place.Ready, Aside}
    requires o < s.accepted && s.history.place[o] != Dropped && o !in Closure(s, root)
    requires id in s.history.log[o].after
    ensures id in s.history.owner && s.history.owner[id] !in Closure(s, root)
  {
    var m := s.history.owner[id];
    if m in Closure(s, root) {
      ClosurePlaces(s, root, m);
      if s.history.place[o] == Aside {
        ClosureStep(s, root, id, o);
      } else {
        assert false;
      }
    }
  }

  lemma CancelLists(s: Queue, id: nat)
    requires Shape(s) && ReadyLists(s.ready, s.history) && Cancellable(s, id)
    requires Fifo(s.history.log, s.history.started, s.ready)
    ensures var t := Cancel(s, id);
      && ReadyLists(t.ready, t.history) && Fifo(t.history.log, t.history.started, t.ready)
  {
    var t := Cancel(s, id);
    var root := s.history.owner[id];
    forall b | b in Closure(s, root) { ClosurePlaces(s, root, b); }
    assert root in Closure(s, root);
    forall p | 0 <= p < |t.ready|
      ensures Lists(t.ready[p], p, t.history)
      ensures Ascending(t.history.log, p, t.history.started + Orders(t.ready[p]))
    {
      WithoutLists(s.ready[p], p, s.history, t.history, root);
      WithoutAscends(s.history.log, p, s.history.started, s.ready[p], root);
    }
  }

  lemma CancelPlaces(s: Queue, id: nat)
    requires Shape(s) && WaitingTable(s.waiting, s.history, {}) && OnWorkers(s.workers, s.history)
    requires Conserved(s.unfinished, s.history) && Starts(s.history, {}) && Cancellable(s, id)
    ensures var t := Cancel(s, id);
      && WaitingTable(t.waiting, t.history, {}) && OnWorkers(t.workers, t.history)
      && Conserved(t.unfinished, t.history) && Starts(t.history, {})
  {
    var root := s.history.owner[id];
    forall b | b in Closure(s, root) { ClosurePlaces(s, root, b); }
  }

  lemma CancelDrops(s: Queue, id: nat)
    requires Shape(s) && Cancellable(s, id)
    ensures Dropping(s.history, Cancel(s, id).history, Closure(s, s.history.owner[id]))
  {
    var root := s.history.owner[id];
    forall b | b in Closure(s, root) { ClosurePlaces(s, root, b); }
  }

  lemma CancelResults(s: Queue, id: nat)
    requires Shape(s) && Owners(s.history, s.results, s.nextId) && Results(s.history, s.results, s.workers)
    requires Listing(s.dependents, s.history) && Cancellable(s, id)
    ensures var t := Cancel(s, id);
      && Owners(t.history, t.results, t.nextId) && Results(t.history, t.results, t.workers)
      && Listing(t.dependents, t.history)
  {
    var t := Cancel(s, id);
    var gone := Closure(s, s.history.owner[id]);
    CancelDrops(s, id);
    ResultsDrop(s.history, t.history, gone, s.results, t.results, s.nextId, s.workers);
    ListingDrop(s.history, t.history, gone, s.dependents, t.dependents);
  }

  lemma CancelChains(s: Queue, id: nat)
    requires Shape(s) && Owners(s.history, s.results, s.nextId) && Results(s.history, s.results, s.workers)
    requires Chains(s.history, s.results) && Met(s.history, s.results) && Cancellable(s, id)
    ensures var t := Cancel(s, id); Chains(t.history, t.results) && Met(t.history, t.results)
  {
    var t := Cancel(s, id);
    var root := s.history.owner[id];
    var gone := Closure(s, root);
    CancelDrops(s, id);
    forall o, i | 0 <= o < s.accepted && t.history.place[o] != Dropped && i in s.history.log[o].after
      ensures i in s.history.owner && s.history.owner[i] !in gone
    {
      ClosureLeaves(s, root, o, i);
    }
    ChainsDrop(s.history, t.history, gone, s.results, t.results);
  }

  lemma CancelCounted(s: Queue, id: nat)
    requires Shape(s) && Owners(s.history, s.results, s.nextId) && Results(s.history, s.results, s.workers)
    requires Chains(s.history, s.results) && Met(s.history, s.results) && Cancellable(s, id)
    requires WaitingTable(s.waiting, s.history, {}) && Counted(s.dependents, s.waiting, s.history.log, [])
    ensures var t := Cancel(s, id); Counted(t.dependents, t.waiting, t.history.log, [])
  {
    var t := Cancel(s, id);
    var root := s.history.owner[id];
    forall o | o in t.waiting
      ensures CountIn(s.history.log[o].after, t.dependents.Keys) == CountIn(s.history.log[o].after, s.dependents.Keys)
    {
      forall i | i in s.history.log[o].after ensures i in t.dependents <==> i in s.dependents {
        ClosureLeaves(s, root, o, i);
      }
      CountInSame(s.history.log[o].after, t.dependents.Keys, s.dependents.Keys);
    }
  }

  lemma CancelServed(s: Queue, id: nat)
    requires Shape(s) && Served(s.accepting, s.sweeping, s.workers, s.ready) && Cancellable(s, id)
    ensures var t := Cancel(s, id); Served(t.accepting, t.sweeping, t.workers, t.ready)
  {
    var t := Cancel(s, id);
    if AnyReady(t.ready) {
      var p :| 0 <= p < |t.ready| && t.ready[p] != [];
      assert s.ready[p] != [];
    }
  }

  lemma CancelKeeps(s: Queue, id: nat)
    requires Inv(s)
    ensures Inv(Cancel(s, id))
  {
    if Cancellable(s, id) {
      CancelLists(s, id);
      CancelPlaces(s, id);
      CancelResults(s, id);
      CancelChains(s, id);
      CancelCounted(s, id);
      CancelServed(s, id);
    }
  }

  // ---- the loops ----

  /** A step that changes one worker with no task in hand keeps all but what serves the tasks. */
  lemma IdleKeeps(s: Queue, t: Queue)
    requires Inv(s) && |t.workers| == |s.workers| && |t.sweeping| == |s.sweeping|
    requires t == s.(workers := t.workers, sweeping := t.sweeping, accepting := t.accepting, handles := t.handles)
    requires t.handles == if t.accepting then |t.workers| else 0
    requires forall w :: 0 <= w < |s.workers| ==>
      t.workers[w].control == s.workers[w].control || (!Busy(s.workers[w].control) && !Busy(t.workers[w].control))
    requires Served(t.accepting, t.sweeping, t.workers, t.ready)
    ensures Inv(t)
  {
    assert forall w :: 0 <= w < |s.workers| ==> s.workers[w].control.Ran? == t.workers[w].control.Ran?;
    assert forall place :: ResultAt(place, t.workers) == ResultAt(place, s.workers);
  }

  lemma StopKeeps(s: Queue)
    requires Inv(s)
    ensures Inv(Stop(s))
  {
    if s.accepting {
      var t := Stop(s);
      forall w | 0 <= w < |s.workers|
        ensures Closing(t.workers[w]) && (s.workers[w].control.Lapsed? || Serving(t.workers[w]))
      {
        FinishLastPost(s.workers[w].pending);
        FinishLastPost(t.workers[w].pending);
      }
      assert SomeServer(t.workers) || AllLapsed(t.workers) by {
        if w :| 0 <= w < |s.workers| && !s.workers[w].control.Lapsed? {
          assert Serving(t.workers[w]);
        } else {
          assert t.workers == s.workers;
        }
      }
      IdleKeeps(s, t);
    }
  }

  lemma PostKeeps(s: Queue, w: nat)
    requires Inv(s) && w < |s.workers|
    ensures Inv(s.(workers := s.workers[w := Perform(s.workers[w], Other)]))
  {
    var t := s.(workers := s.workers[w := Perform(s.workers[w], Other)]);
    FinishLastPost(s.workers[w].pending);
    assert forall v :: 0 <= v < |s.workers| && Serving(s.workers[v]) ==> Serving(t.workers[v]);
    assert forall v :: 0 <= v < |s.workers| ==> t.workers[v].control == s.workers[v].control;
    assert !InFinish(s.workers[w]) ==> !InFinish(t.workers[w]);
    IdleKeeps(s, t);
  }

  /** The timers of the workers' loops mean nothing to the queue. */
  lemma TimersKeep(s: Queue, timers: seq<nat>)
    requires Inv(s)
    ensures Inv(s.(timers := timers))
  {
  }

  lemma FireKeeps(s: Queue, w: nat, again: bool)
    requires Inv(s) && w < |s.workers| && s.workers[w].control.Between? && !s.workers[w].quit
    requires w < |s.timers| && s.timers[w] > 0
    ensures Inv(Fire(s, w, again))
  {
    var t := WithControl(s, w, Elsewhere);
    assert forall v :: 0 <= v < |s.workers| && Serving(s.workers[v]) ==> Serving(t.workers[v]);
    IdleKeeps(s, t);
    hide Inv;
    TimersKeep(t, Fire(s, w, again).timers);
  }

  lemma ClosingIsBusy(worker: Worker)
    ensures Closing(worker) && worker.control.Between? && !worker.quit ==> worker.pending != []
  {
  }

  /** A worker that lapses has nothing pending, so it served no one; and once the queue has stopped a
      worker has its finish pending, or has been told to quit, so none lapses any more. */
  lemma LapseKeeps(s: Queue, w: nat)
    requires Inv(s) && MayLapse(s, w)
    ensures s.accepting && Inv(WithControl(s, w, Lapsed))
  {
    var t := WithControl(s, w, Lapsed);
    ClosingIsBusy(s.workers[w]);
    IdleKeeps(s, t);
  }

  lemma BeginKeeps(s: Queue, w: nat)
    requires Inv(s) && w < |s.workers| && s.workers[w].control.Between? && !Blocked(s.workers[w])
    ensures Inv(Begin(s, w))
  {
    var t := Begin(s, w);
    assert !s.accepting ==> Closing(s.workers[w]) && Closing(t.workers[w]);
    assert forall v :: 0 <= v < |s.workers| && Serving(s.workers[v]) ==> Serving(t.workers[v]);
    IdleKeeps(s, t);
  }

  /** The steps at the end of a finish thunk, and the end of other work. */
  lemma LeaveServed(s: Queue, w: nat)
    requires Shape(s) && Countable(s) && Served(s.accepting, s.sweeping, s.workers, s.ready) && w < |s.workers|
    requires s.workers[w].control in {Checking, Reposting, Quitting, Elsewhere}
    ensures var t := Work(s, w); Served(t.accepting, t.sweeping, t.workers, t.ready)
  {
    var t := Work(s, w);
    FinishLastPost(s.workers[w].pending);
    assert !s.accepting ==> Closing(s.workers[w]) && Closing(t.workers[w]);
    assert forall v :: 0 <= v < |s.workers| && Serving(s.workers[v]) ==> Serving(t.workers[v]);
  }

  lemma LeaveKeeps(s: Queue, w: nat)
    requires Inv(s) && w < |s.workers|
    requires s.workers[w].control in {Checking, Reposting, Quitting, Elsewhere}
    ensures Countable(s) && Inv(Work(s, w))
  {
    InvIsCountable(s, {}, []);
    LeaveServed(s, w);
    IdleKeeps(s, Work(s, w));
  }

  lemma ReturnKeeps(s: Queue, w: nat)
    requires Inv(s) && w < |s.workers| && s.workers[w].control.Running?
    ensures Inv(Return(s, w))
  {
    ReturnResults(s, w);
    ReturnServed(s, w);
  }

  lemma ReturnServed(s: Queue, w: nat)
    requires Shape(s) && Served(s.accepting, s.sweeping, s.workers, s.ready) && OnWorkers(s.workers, s.history)
    requires w < |s.workers| && s.workers[w].control.Running?
    ensures var t := Return(s, w);
      Served(t.accepting, t.sweeping, t.workers, t.ready) && OnWorkers(t.workers, t.history)
  {
    var t := Return(s, w);
    ReturnOnWorkers(s, w);
    hide OnWorkers;
    assert !s.accepting ==> Closing(s.workers[w]) && Closing(t.workers[w]);
    assert forall v :: 0 <= v < |s.workers| && Serving(s.workers[v]) ==> Serving(t.workers[v]);
  }

  lemma ReturnOnWorkers(s: Queue, w: nat)
    requires Shape(s) && OnWorkers(s.workers, s.history) && w < |s.workers| && s.workers[w].control.Running?
    ensures var t := Return(s, w); Aligned(t.history) && OnWorkers(t.workers, t.history)
  {
  }

  lemma ReturnResults(s: Queue, w: nat)
    requires Shape(s) && Owners(s.history, s.results, s.nextId) && Results(s.history, s.results, s.workers)
    requires OnWorkers(s.workers, s.history) && Chains(s.history, s.results) && Met(s.history, s.results)
    requires w < |s.workers| && s.workers[w].control.Running?
    ensures var t := Return(s, w);
      && Owners(t.history, t.results, t.nextId) && Results(t.history, t.results, t.workers)
      && Chains(t.history, t.results) && Met(t.history, t.results)
  {
    hide Chains, Met;
    var t := Return(s, w);
    InHand(s, w);
    var o := s.workers[w].control.task.order;
    OthersUnaffected(s.history, s.workers, t.workers, w, o);
    if s.history.log[o].result.Some? {
      assert s.results[s.history.log[o].result.value] == Pending;
    }
    ResultsMove(s.history, t.history, o, On(w), s.results, t.results, s.nextId, s.workers, t.workers);
    ChainsMove(s.history, t.history, o, On(w), s.results, t.results);
  }

  lemma InsertAscends(log: seq<Task>, p: nat, front: seq<nat>, x: nat, back: seq<nat>)
    requires Ascending(log, p, front + back) && !Direct(log, x, p)
    ensures Ascending(log, p, front + [x] + back)
  {
    var line := front + [x] + back;
    var n := |front|;
    forall i, j | 0 <= i < j < |line| && Direct(log, line[i], p) && Direct(log, line[j], p)
      ensures line[i] < line[j]
    {
      assert i != n && j != n;
      assert line[i] == (front + back)[if i < n then i else i - 1];
      assert line[j] == (front + back)[if j < n then j else j - 1];
    }
  }

  /** The task take() hands to worker w. */
  ghost predicate Next(s: Queue, w: nat, p: nat, o: nat) {
    && Shape(s)
    && w < |s.workers| && s.workers[w].control.Taking?
    && Highest(s.ready) == p && p < |s.ready| && s.ready[p] != [] && s.ready[p][0].order == o
    && o < s.accepted && s.history.place[o] == Place.Ready && s.history.log[o].priority == p
    && s.ready[p][0] == EntryOf(s.history.log, o)
  }

  lemma NextIs(s: Queue, w: nat) returns (p: nat, o: nat)
    requires Shape(s) && ReadyLists(s.ready, s.history)
    requires w < |s.workers| && s.workers[w].control.Taking? && Highest(s.ready) >= 0
    ensures Next(s, w, p, o)
  {
    p := Highest(s.ready);
    o := s.ready[p][0].order;
    assert Lists(s.ready[p], p, s.history);
  }

  lemma TakeLists(s: Queue, w: nat, p: nat, o: nat)
    requires Next(s, w, p, o) && ReadyLists(s.ready, s.history)
    ensures var t := Take(s, w); ReadyLists(t.ready, t.history)
  {
    var t := Take(s, w);
    forall q | 0 <= q < |t.ready| ensures Lists(t.ready[q], q, t.history) {
      if q == p {
        ListsTake(s.ready[q], s.history, t.history, o, On(w));
      } else {
        ListsKeep(s.ready[q], q, s.history, t.history, o, On(w));
      }
    }
  }

  lemma TakeFifo(s: Queue, w: nat, p: nat, o: nat)
    requires Next(s, w, p, o) && Fifo(s.history.log, s.history.started, s.ready)
    ensures var t := Take(s, w); Fifo(t.history.log, t.history.started, t.ready)
  {
    var t := Take(s, w);
    forall q | 0 <= q < |t.ready| ensures Ascending(t.history.log, q, t.history.started + Orders(t.ready[q])) {
      if q == p {
        assert t.history.started + Orders(t.ready[q]) == s.history.started + Orders(s.ready[q]);
      } else {
        InsertAscends(s.history.log, q, s.history.started, o, Orders(s.ready[q]));
      }
    }
  }

  lemma TakePlaces(s: Queue, w: nat, p: nat, o: nat)
    requires Next(s, w, p, o) && WaitingTable(s.waiting, s.history, {})
    requires OnWorkers(s.workers, s.history) && Conserved(s.unfinished, s.history) && Starts(s.history, {})
    ensures var t := Take(s, w);
      && WaitingTable(t.waiting, t.history, {}) && OnWorkers(t.workers, t.history)
      && Conserved(t.unfinished, t.history) && Starts(t.history, {})
  {
    var t := Take(s, w);
    WaitingKeep(s.waiting, s.history, t.history, o, On(w));
    OnWorkersMove(s.history, t.history, o, On(w), s.workers, t.workers, w);
    ConservedMove(s.unfinished, s.history, t.history, o, On(w));
    StartsMove(s.history, t.history, o, On(w));
  }

  lemma TakeResults(s: Queue, w: nat, p: nat, o: nat)
    requires Next(s, w, p, o) && Owners(s.history, s.results, s.nextId)
    requires Results(s.history, s.results, s.workers) && Listing(s.dependents, s.history)
    requires OnWorkers(s.workers, s.history) && Chains(s.history, s.results) && Met(s.history, s.results)
    ensures var t := Take(s, w);
      && Owners(t.history, t.results, t.nextId) && Results(t.history, t.results, t.workers)
      && Listing(t.dependents, t.history) && Chains(t.history, t.results) && Met(t.history, t.results)
  {
    var t := Take(s, w);
    OthersUnaffected(s.history, s.workers, t.workers, w, o);
    if s.history.log[o].result.Some? {
      assert s.results[s.history.log[o].result.value] == Pending;
    }
    ResultsMove(s.history, t.history, o, On(w), s.results, t.results, s.nextId, s.workers, t.workers);
    ListingKeep(s.history, t.history, o, On(w), s.dependents);
    ChainsMove(s.history, t.history, o, On(w), s.results, t.results);
  }

  lemma TakeServed(s: Queue, w: nat)
    requires Shape(s) && Served(s.accepting, s.sweeping, s.workers, s.ready)
    requires w < |s.workers| && s.workers[w].control.Taking?
    ensures var t := Take(s, w); Served(t.accepting, t.sweeping, t.workers, t.ready)
  {
    var t := Take(s, w);
    assert !s.accepting ==> Closing(s.workers[w]) && Closing(t.workers[w]);
    assert forall v :: 0 <= v < |s.workers| && v != w ==> t.workers[v] == s.workers[v];
    if Highest(s.ready) >= 0 {
      assert Serving(t.workers[w]);
      assert AnyReady(s.ready);
    } else {
      assert !AnyReady(t.ready);
    }
  }

  lemma TakeShape(s: Queue, w: nat)
    requires Shape(s) && w < |s.workers| && s.workers[w].control.Taking?
    ensures Shape(Take(s, w))
    ensures var t := Take(s, w);
      && t.dependents == s.dependents && t.waiting == s.waiting && t.history.log == s.history.log
      && t.results == s.results && t.nextId == s.nextId && t.unfinished == s.unfinished
  {
  }

  lemma TakeSomeKeeps(s: Queue, w: nat)
    requires Inv(s) && w < |s.workers| && s.workers[w].control.Taking? && Highest(s.ready) >= 0
    ensures Inv(Take(s, w))
  {
    var p, o := NextIs(s, w);
    TakeServed(s, w);
    TakeLists(s, w, p, o);
    TakeFifo(s, w, p, o);
    TakePlaces(s, w, p, o);
    TakeResults(s, w, p, o);
    TakeShape(s, w);
  }

  lemma TakeKeeps(s: Queue, w: nat)
    requires Inv(s) && w < |s.workers| && s.workers[w].control.Taking?
    ensures Inv(Take(s, w))
  {
    if Highest(s.ready) >= 0 {
      TakeSomeKeeps(s, w);
    } else {
      TakeServed(s, w);
      IdleKeeps(s, Take(s, w));
    }
  }

  lemma InvCountable(s: Queue)
    requires Inv(s)
    ensures Countable(s)
  {
    hide ReadyLists, WaitingTable, OnWorkers, Conserved, Owners, Results, Listing, Chains, Counted, Met, Served, Fifo, Starts;
    InvIsCountable(s, {}, []);
  }

  lemma TakesIdKeeps(s: Queue)
    requires Inv(s)
    ensures Inv(s.(nextId := s.nextId + 1))
  {
    hide ReadyLists, WaitingTable, OnWorkers, Conserved, Results, Listing, Chains, Counted, Met, Served, Fifo, Starts;
  }

  /** Whatever happens, the invariant holds after it. */
  lemma StepKeeps(s: Queue, step: Step)
    requires Inv(s) && Enabled(s, step)
    ensures Countable(s) && Inv(Apply(s, step))
  {
    hide Inv, Countable, Submit, Enqueue, Cancel, Stop, Begin, Take, Return, Done;
    InvCountable(s);
    match step
    case Submits(priority, after) => SubmitKeeps(s, priority, after);
    case Enqueues(priority, after) => EnqueueKeeps(s, priority, after);
    case Cancels(id) => CancelKeeps(s, id);
    case Stops => StopKeeps(s);
    case Posts(w) => PostKeeps(s, w);
    case Installs(w) => TimersKeep(s, Install(s, w).timers);
    case Removes(w) => TimersKeep(s, Remove(s, w).timers);
    case Fires(w, again) => FireKeeps(s, w, again);
    case Lapses(w) => LapseKeeps(s, w);
    case TakesId => TakesIdKeeps(s);
    case Works(w) =>
      match s.workers[w].control
      case Between => BeginKeeps(s, w);
      case Taking(_) => TakeKeeps(s, w);
      case Running(_, _) => ReturnKeeps(s, w);
      case Ran(_, _) => DoneKeeps(s, w);
      case _ => LeaveKeeps(s, w);
  }

  /** What is settled is settled: the tasks accepted before the target have finished or been cancelled. */
  lemma SettledMeans(s: Queue, target: nat)
    requires Inv(s)
    ensures Settled(s, target) <==>
            forall o :: 0 <= o < |s.history.place| && o < target ==>
              s.history.place[o].Finished? || s.history.place[o].Dropped?
  {
    hide Owners, Results, Listing, Chains, Counted, Met, Served, Fifo;
    forall o | 0 <= o < |s.history.place| && o < target && Settled(s, target)
      ensures s.history.place[o].Finished? || s.history.place[o].Dropped?
    {
      assert o !in s.unfinished;
    }
  }
}
