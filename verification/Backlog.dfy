/** The backlog class of src/thread/operation_queue.cpp, updated in place as the code does.
    Each method is one section run under the queue's lock, and is proved to do what the step
    of QueueSteps says. */
module BacklogClass {
  import opened Wrappers
  import opened QueueState
  import Steps = QueueSteps
  import opened QueueInvariant
  import opened QueueProofs
  import opened CancelLoop

  class Backlog {
    const number: nat
    var accepting: bool
    var accepted: nat
    var ready: seq<seq<Entry>>
    var unfinished: set<nat>
    var dependents: map<nat, seq<nat>>
    var waiting: map<nat, Waiting>
    var handles: nat
    var sweeping: seq<bool>
    var workers: seq<Worker>
    ghost var timers: seq<nat>
    var results: map<nat, ResultState>
    var nextId: nat
    ghost var history: History

    ghost function State(): Queue
      reads this
    {
      Queue(number, accepting, accepted, ready, unfinished, dependents, waiting, handles, sweeping, workers, timers,
            results, nextId, history)
    }

    ghost predicate Valid()
      reads this
    {
      Inv(State())
    }

    constructor (number: nat, workers: nat, nextId: nat)
      requires workers > 0
      ensures Valid() && State() == Init(number, workers, nextId)
    {
      hide Inv, Init;
      this.number, this.nextId, this.accepted, this.accepting := number, nextId, 0, true;
      this.ready, this.unfinished, this.dependents, this.waiting := seq(PRIORITIES, i => []), {}, map[], map[];
      this.handles, this.sweeping := workers, seq(workers, i => false);
      this.workers, this.results := seq(workers, i => Worker([], Between, false)), map[];
      this.timers, this.history := seq(workers, i => 0), History([], [], map[], []);
      new;
      InitKeeps(number, workers, nextId);
      InitIs(State(), number, workers, nextId);
    }

    /** all_from_here() */
    method AllFromHere(after: seq<ResultRef>) returns (all: bool)
      ensures all == Steps.AllFromHere(State(), after)
    {
      for k := 0 to |after|
        invariant forall j :: 0 <= j < k ==> after[j].queue == number
      {
        if after[k].queue != number {
          return false;
        }
      }
      all := true;
    }

    /** any_cancelled() */
    method AnyCancelled(after: seq<ResultRef>) returns (any: bool)
      ensures any == Steps.AnyCancelled(State(), after)
    {
      for k := 0 to |after|
        invariant forall j :: 0 <= j < k ==> !(after[j].id in results && results[after[j].id] == Cancelled)
      {
        if after[k].id in results && results[after[k].id] == Cancelled {
          return true;
        }
      }
      any := false;
    }

    method Submit(priority: int, after: seq<ResultRef>) returns (taken: bool)
      requires Valid() && Steps.HandlesExist(State(), after)
      modifies this
      ensures Valid()
      ensures State() == Steps.Submit(old(State()), priority, after).0
      ensures taken == Steps.Submit(old(State()), priority, after).1.Taken?
    {
      SubmitKeeps(State(), priority, after);
      taken := SubmitLocked(priority, after);
    }

    method SubmitLocked(priority: int, after: seq<ResultRef>) returns (taken: bool)
      requires Shape(State())
      modifies this
      ensures State() == Steps.Submit(old(State()), priority, after).0
      ensures taken == Steps.Submit(old(State()), priority, after).1.Taken?
    {
      if !NamesAPriority(priority) {
        return false;
      }
      var here := AllFromHere(after);
      if !here {
        return false;
      }
      if !accepting {
        return false;
      }
      var cancelled := AnyCancelled(after);
      if !cancelled {
        Accept(priority, Steps.Ids(after), None);
      }
      taken := true;
    }

    method Enqueue(priority: int, after: seq<ResultRef>) returns (reply: Steps.Reply)
      requires Valid() && Steps.HandlesExist(State(), after)
      modifies this
      ensures Valid()
      ensures State() == Steps.Enqueue(old(State()), priority, after).0
      ensures reply == Steps.Enqueue(old(State()), priority, after).1
    {
      EnqueueKeeps(State(), priority, after);
      reply := EnqueueLocked(priority, after);
    }

    method EnqueueLocked(priority: int, after: seq<ResultRef>) returns (reply: Steps.Reply)
      requires Shape(State())
      modifies this
      ensures State() == Steps.Enqueue(old(State()), priority, after).0
      ensures reply == Steps.Enqueue(old(State()), priority, after).1
    {
      if !NamesAPriority(priority) {
        return Steps.Refused(Steps.InvalidPriority);
      }
      var here := AllFromHere(after);
      if !here {
        return Steps.Refused(Steps.ForeignDependency);
      }
      if !accepting {
        return Steps.Refused(Steps.QueueStopped);
      }
      var cancelled := AnyCancelled(after);
      var id := MakeResult();
      if cancelled {
        results := results[id := Cancelled];
      } else {
        Accept(priority, Steps.Ids(after), Some(id));
      }
      reply := Steps.Taken(Some(id));
    }

    /** operation_access::make() */
    method MakeResult() returns (id: nat)
      modifies this
      ensures id == old(nextId) && State() == Steps.WithResult(old(State()), Some(id))
    {
      id := nextId;
      nextId, results := id + 1, results[id := Pending];
    }

    /** queue() */
    method Accept(priority: nat, after: seq<nat>, result: Option<nat>)
      requires Shape(State()) && priority < PRIORITIES
      modifies this
      ensures State() == Steps.Accept(old(State()), priority, after, result)
    {
      var task := Entry(accepted, result);
      var remaining := LogTask(priority, after, result);
      hide Steps.Register, CountIn, Steps.Listed;
      if remaining > 0 {
        waiting := waiting[task.order := Waiting(task, priority, remaining)];
      } else {
        MakeReady(task, priority);
      }
    }

    /** The part of queue() that lists the task. */
    method LogTask(priority: nat, after: seq<nat>, result: Option<nat>) returns (remaining: nat)
      modifies this
      ensures State() == Steps.Logged(old(State()), priority, after, result)
      ensures remaining == CountIn(after, Steps.Listed(old(State()), result).Keys)
    {
      var order := accepted;
      accepted := accepted + 1;
      unfinished := unfinished + {order};
      if result.Some? && result.value !in dependents {
        dependents := dependents[result.value := []];
      }
      remaining := RegisterAfter(after, order);
      history := History(history.log + [Task(result, priority, after, remaining == 0)], history.place + [Aside],
                         if result.Some? then history.owner[result.value := order] else history.owner,
                         history.started);
    }

    /** The loop of queue() over what a task runs after. */
    method RegisterAfter(after: seq<nat>, order: nat) returns (remaining: nat)
      modifies `dependents
      ensures dependents == Steps.Register(old(dependents), after, order)
      ensures remaining == CountIn(after, old(dependents).Keys)
    {
      remaining := 0;
      for k := 0 to |after|
        invariant dependents == Steps.Register(old(dependents), after[..k], order)
        invariant remaining == CountIn(after[..k], old(dependents).Keys)
      {
        assert after[..k + 1][..k] == after[..k];
        if after[k] in dependents {
          dependents := dependents[after[k] := dependents[after[k]] + [order]];
          remaining := remaining + 1;
        }
      }
      assert after[..|after|] == after;
    }

    /** make_ready() */
    method MakeReady(task: Entry, priority: nat)
      requires Steps.Callable(State()) && priority < PRIORITIES && task.order < |history.place|
      modifies this
      ensures State() == Steps.MakeReady(old(State()), task, priority)
    {
      hide Steps.Sweeping, Steps.Swept;
      ready := ready[priority := ready[priority] + [task]];
      history := history.(place := history.place[task.order := Place.Ready]);
      PostSweeps();
    }

    /** Posts a sweep to each worker of an open queue that has none to come. */
    method PostSweeps()
      requires handles <= |workers| == |sweeping|
      modifies `sweeping, `workers
      ensures sweeping == Steps.Sweeping(old(sweeping), handles)
      ensures workers == Steps.Swept(old(workers), old(sweeping), handles)
    {
      for i := 0 to handles
        invariant |sweeping| == |old(sweeping)| && |workers| == |old(workers)|
        invariant forall j :: 0 <= j < |sweeping| ==> sweeping[j] == (old(sweeping)[j] || j < i)
        invariant forall j :: 0 <= j < |workers| ==>
          workers[j] == if j < i && !old(sweeping)[j] then Steps.Perform(old(workers)[j], Sweep) else old(workers)[j]
      {
        if !sweeping[i] {
          sweeping := sweeping[i := true];
          workers := workers[i := Steps.Perform(workers[i], Sweep)];
        }
      }
    }

    method Stop()
      requires Valid()
      modifies this
      ensures Valid()
      ensures State() == Steps.Stop(old(State()))
    {
      StopKeeps(State());
      if accepting {
        HandOutFinishes();
      }
    }

    method HandOutFinishes()
      requires Shape(State()) && accepting
      modifies this
      ensures State() == Steps.Stop(old(State()))
    {
      ghost var before := State();
      accepting := false;
      for i := 0 to handles
        invariant State() == before.(accepting := false, workers := workers)
        invariant |workers| == |before.workers|
        invariant forall j | 0 <= j < |workers| ::
          workers[j] == if j < i then Steps.Perform(before.workers[j], Finish) else before.workers[j]
      {
        workers := workers[i := Steps.Perform(workers[i], Finish)];
      }
      handles := 0;
      assert workers == Steps.Stop(before).workers;
    }

    /** The test wait_for() makes each time it wakes: whether every task accepted before the target has
        finished or been cancelled. */
    method IsSettled(target: nat) returns (settled: bool)
      requires Valid()
      ensures settled <==>
              forall o :: 0 <= o < |history.place| && o < target ==> history.place[o].Finished? || history.place[o].Dropped?
      ensures settled == Steps.Settled(State(), target)
    {
      settled := true;
      if unfinished != {} {
        var first := FirstUnfinished();
        settled := first >= target;
      }
      SettledMeans(State(), target);
    }

    /** The first of an ordered set. */
    method FirstUnfinished() returns (first: nat)
      requires unfinished != {}
      ensures first in unfinished && forall o :: o in unfinished ==> first <= o
    {
      first :| first in unfinished;
      var rest := unfinished - {first};
      while rest != {}
        invariant first in unfinished && rest <= unfinished
        invariant forall o :: o in unfinished && o !in rest ==> first <= o
      {
        var o :| o in rest;
        if o < first {
          first := o;
        }
        rest := rest - {o};
      }
    }

    /** take(): a worker gets its next task, or none. */
    method Take(worker: nat) returns (next: Option<Entry>)
      requires Valid() && worker < |workers| && workers[worker].control.Taking?
      modifies this
      ensures Valid()
      ensures State() == Steps.Take(old(State()), worker)
      ensures next == if Steps.Highest(old(ready)) < 0 then None else Some(old(ready)[Steps.Highest(old(ready))][0])
    {
      TakeKeeps(State(), worker);
      HeadsAreLogged(State());
      next := TakeFirst(worker);
    }

    /** The search of take(), from the highest priority down. */
    method TakeFirst(worker: nat) returns (next: Option<Entry>)
      requires Shape(State()) && worker < |workers| && workers[worker].control.Taking?
      requires forall p :: 0 <= p < PRIORITIES && ready[p] != [] ==> ready[p][0].order < |history.place|
      modifies this
      ensures State() == Steps.Take(old(State()), worker)
      ensures next == if Steps.Highest(old(ready)) < 0 then None else Some(old(ready)[Steps.Highest(old(ready))][0])
    {
      hide Steps.Highest;
      ghost var before := State();
      var ending := workers[worker].control.ending;
      var p := PRIORITIES;
      while p > 0
        invariant 0 <= p <= PRIORITIES
        invariant forall q :: p <= q < PRIORITIES ==> ready[q] == []
        invariant State() == before
      {
        p := p - 1;
        if ready[p] != [] {
          HighestIs(ready, p);
          var task := ready[p][0];
          ready := ready[p := ready[p][1..]];
          workers := workers[worker := workers[worker].(control := Running(task, ending))];
          history := history.(place := history.place[task.order := On(worker)],
                              started := history.started + [task.order]);
          return Some(task);
        }
      }
      NoneHighest(ready);
      sweeping := sweeping[worker := false];
      workers := workers[worker := workers[worker].(control := if ending then Checking else Between)];
      next := None;
    }

    /** The task of a worker returns, and run() fills in its result. */
    method Return(worker: nat)
      requires Valid() && worker < |workers| && workers[worker].control.Running?
      modifies this
      ensures Valid()
      ensures State() == Steps.Return(old(State()), worker)
    {
      ReturnKeeps(State(), worker);
      FillIn(worker);
    }

    /** entry::run(), once the task has returned. */
    method FillIn(worker: nat)
      requires worker < |workers| && workers[worker].control.Running?
      modifies this
      ensures State() == Steps.Return(old(State()), worker)
    {
      var task := workers[worker].control.task;
      workers := workers[worker := workers[worker].(control := Ran(task, workers[worker].control.ending))];
      if task.result.Some? && task.result.value in results && results[task.result.value] == Pending {
        results := results[task.result.value := Returned];
      }
    }

    method Done(worker: nat)
      requires Valid() && worker < |workers| && workers[worker].control.Ran?
      modifies this
      ensures Valid()
      ensures Steps.Countable(old(State())) && State() == Steps.Done(old(State()), worker)
    {
      InvIsCountable(State(), {}, []);
      DoneKeeps(State(), worker);
      InHand(State(), worker);
      DoneLocked(worker);
    }

    method DoneLocked(worker: nat)
      requires Steps.Countable(State()) && worker < |workers| && workers[worker].control.Ran?
      requires workers[worker].control.task.order < |history.place|
      modifies this
      ensures State() == Steps.Done(old(State()), worker)
    {
      var orders := Retire(worker);
      CountOff(orders);
    }

    /** The part of done() before its loop. */
    method Retire(worker: nat) returns (orders: seq<nat>)
      requires worker < |workers| && workers[worker].control.Ran?
      requires workers[worker].control.task.order < |history.place|
      modifies this
      ensures State() == Steps.Retire(old(State()), worker)
      ensures orders == Steps.DependentsOf(old(State()), old(workers[worker].control.task.result))
    {
      var finished := workers[worker].control.task;
      workers := workers[worker := workers[worker].(control := Taking(workers[worker].control.ending))];
      unfinished := unfinished - {finished.order};
      history := history.(place := history.place[finished.order := Finished]);
      orders := [];
      if finished.result.Some? {
        orders := TakeDependentOrders(finished.result.value);
      }
    }

    /** The loop of done(). */
    method CountOff(orders: seq<nat>)
      requires Steps.Countable(State())
      modifies this
      ensures State() == Steps.CountOff(old(State()), orders)
    {
      for k := 0 to |orders|
        invariant Steps.Countable(State())
        invariant Steps.CountOff(State(), orders[k..]) == Steps.CountOff(old(State()), orders)
      {
        assert orders[k..][0] == orders[k] && orders[k..][1..] == orders[k + 1..];
        CountOne(orders[k]);
      }
      assert orders[|orders|..] == [];
    }

    /** One turn of the loop in done(). */
    method CountOne(order: nat)
      requires Steps.Countable(State())
      modifies this
      ensures State() == Steps.CountOne(old(State()), order) && Steps.Countable(State())
    {
      if order in waiting {
        waiting := waiting[order := waiting[order].(remaining := waiting[order].remaining - 1)];
        if waiting[order].remaining == 0 {
          var found := waiting[order];
          waiting := waiting - {order};
          MakeReady(found.task, found.priority);
        }
      }
    }

    /** Takes the task a result belongs to off the queue, and every task that runs after it,
        and after those in turn. */
    method CancelTask(id: nat) returns (found: bool)
      requires Valid()
      modifies this
      ensures Valid()
      ensures State() == Steps.Cancel(old(State()), id)
      ensures found == Steps.Cancellable(old(State()), id)
    {
      CancelKeeps(State(), id);
      assert |ready| == PRIORITIES;
      var first := TakeOut(id);
      TookOutMarks(old(State()), State(), id, first);
      found := first.Some?;
      hide *;
      if found {
        CancelReached(old(State()), id, first.value.order, first.value);
      }
    }

    /** What holds each time round the worklist of cancel(), with the first `i` tasks done. */
    ghost predicate Removing(s: Queue, root: nat, removed: seq<Entry>, i: nat)
      reads this
    {
      && i <= |removed| && Worklist(s, root, removed, i)
      && State() == Marked(s, root, OrderSet(removed), OrderSet(removed[..i]))
    }

    /** The worklist of cancel(), once take_out() has found the task. */
    method CancelReached(ghost s: Queue, ghost id: nat, ghost root: nat, first: Entry)
      requires Inv(s) && RootOf(s, id, root) && first == EntryOf(s.history.log, root)
      requires State() == Marked(s, root, {root}, {})
      modifies this
      ensures State() == Steps.Cancel(s, id)
    {
      hide *;
      RemovingStarts(s, id, root, first);
      var removed := [first];
      var i := 0;
      while i < |removed|
        invariant i <= |removed| && Removing(s, root, removed, i)
        decreases waiting.Keys, |removed| - i
      {
        var taken := RemoveNext(s, id, root, removed, i);
        removed := removed + taken;
        i := i + 1;
      }
      RemovedAll(s, id, root, removed);
    }

    lemma RemovingStarts(s: Queue, id: nat, root: nat, first: Entry)
      requires Inv(s) && RootOf(s, id, root) && first == EntryOf(s.history.log, root)
      requires State() == Marked(s, root, {root}, {})
      ensures Removing(s, root, [first], 0)
    {
      hide Marked, Worklist, State;
      WorklistStart(s, root, first);
    }

    lemma RemovedAll(s: Queue, id: nat, root: nat, removed: seq<Entry>)
      requires RootOf(s, id, root) && Removing(s, root, removed, |removed|)
      ensures State() == Steps.Cancel(s, id)
    {
      MarkedAll(s, id, removed);
    }

    method RemoveNext(ghost s: Queue, ghost id: nat, ghost root: nat, removed: seq<Entry>, i: nat)
      returns (taken: seq<Entry>)
      requires Inv(s) && RootOf(s, id, root) && i < |removed|
      requires Removing(s, root, removed, i)
      modifies this
      ensures Removing(s, root, removed + taken, i + 1)
      ensures waiting.Keys < old(waiting.Keys) || (taken == [] && waiting.Keys == old(waiting.Keys))
    {
      NextIsUnmarked(s, root, removed, i);
      taken := RemoveOne(removed[i]);
      TurnKeeps(s, root, removed, i, taken);
    }

    /** One turn of that loop: a task is no longer unfinished, its result is cancelled, and
        the tasks waiting for it are taken. */
    method RemoveOne(task: Entry) returns (taken: seq<Entry>)
      requires task.order < |history.place|
      requires forall o :: o in waiting ==> waiting[o].task.order == o
      modifies this
      ensures TakenFrom(old(waiting), old(dependents), task.result, taken)
      ensures State() == Turn(old(State()), task, taken)
      ensures waiting.Keys < old(waiting.Keys) || (taken == [] && waiting.Keys == old(waiting.Keys))
    {
      hide TakenFrom, OrderSet;
      unfinished := unfinished - {task.order};
      history := history.(place := history.place[task.order := Dropped]);
      taken := [];
      TakesNone(waiting, dependents);
      if task.result.Some? {
        var id := task.result.value;
        if id in results && results[id] == Pending {
          results := results[id := Cancelled];
        }
        taken := TakeDependents(id);
      }
      TakesAway(old(waiting), old(dependents), task.result, taken);
    }

    /** take_dependents() */
    method TakeDependents(id: nat) returns (taken: seq<Entry>)
      requires forall o :: o in waiting ==> waiting[o].task.order == o
      modifies `dependents, `waiting
      ensures dependents == old(dependents) - {id}
      ensures waiting == old(waiting) - OrderSet(taken)
      ensures TakenFrom(old(waiting), old(dependents), Some(id), taken)
    {
      taken := [];
      var orders := TakeDependentOrders(id);
      for n := 0 to |orders|
        invariant dependents == old(dependents) - {id}
        invariant waiting == old(waiting) - OrderSet(taken)
        invariant Distinct(taken)
        invariant forall k :: 0 <= k < |taken| ==>
          taken[k].order in old(waiting) && taken[k] == old(waiting)[taken[k].order].task
        invariant OrderSet(taken) == set o | o in old(waiting) && o in orders[..n]
      {
        assert orders[..n + 1] == orders[..n] + [orders[n]];
        if orders[n] in waiting {
          Concat(taken, [waiting[orders[n]].task]);
          Single(waiting[orders[n]].task);
          forall k | 0 <= k < |taken| ensures taken[k].order != orders[n] {
            assert taken[k].order in OrderSet(taken);
          }
          taken := taken + [waiting[orders[n]].task];
          waiting := waiting - {orders[n]};
        }
      }
      assert orders[..|orders|] == orders;
    }

    /** take_out() */
    method TakeOut(id: nat) returns (found: Option<Entry>)
      requires |ready| == PRIORITIES
      modifies `ready, `waiting
      ensures TookOut(old(State()), State(), id, found)
    {
      for p := 0 to PRIORITIES
        invariant ready == old(ready) && waiting == old(waiting)
        invariant forall q, k :: 0 <= q < p && 0 <= k < |ready[q]| ==> !Holds(ready[q][k], id)
      {
        var k := FindEntry(ready[p], id);
        if k < |ready[p]| {
          var task := ready[p][k];
          ready := ready[p := ready[p][..k] + ready[p][k + 1..]];
          assert TookReady(old(State()), State(), id, Some(task), p, k);
          return Some(task);
        }
      }
      if o :| o in waiting && Holds(waiting[o].task, id) {
        found := Some(waiting[o].task);
        waiting := waiting - {o};
        assert TookWaiting(old(State()), State(), id, found, o);
      } else {
        found := None;
      }
    }

    /** take_dependent_orders() */
    method TakeDependentOrders(id: nat) returns (orders: seq<nat>)
      modifies `dependents
      ensures orders == Steps.DependentsOf(old(State()), Some(id))
      ensures dependents == old(dependents) - {id}
    {
      orders := if id in dependents then dependents[id] else [];
      dependents := dependents - {id};
    }
  }

  /** The first entry of a list with a result, or the end of the list. */
  method FindEntry(list: seq<Entry>, id: nat) returns (k: nat)
    ensures k <= |list| && (k < |list| ==> Holds(list[k], id))
    ensures forall j :: 0 <= j < k ==> !Holds(list[j], id)
  {
    k := 0;
    while k < |list| && !Holds(list[k], id)
      invariant k <= |list|
      invariant forall j :: 0 <= j < k ==> !Holds(list[j], id)
    {
      k := k + 1;
    }
  }

  lemma InitIs(s: Queue, number: nat, workers: nat, nextId: nat)
    requires s == Queue(number, true, 0, s.ready, {}, map[], map[], workers, s.sweeping, s.workers, s.timers, map[], nextId,
                        History([], [], map[], []))
    requires s.ready == seq(PRIORITIES, i => []) && s.sweeping == seq(workers, i => false)
    requires s.workers == seq(workers, i => Worker([], Between, false)) && s.timers == seq(workers, i => 0)
    ensures s == Init(number, workers, nextId)
  {
  }

  lemma TakesNone(waiting: map<nat, Waiting>, dependents: map<nat, seq<nat>>)
    ensures TakenFrom(waiting, dependents, None, []) && OrderSet([]) == {}
  {
  }

  lemma TakesAway(waiting: map<nat, Waiting>, dependents: map<nat, seq<nat>>, result: Option<nat>, taken: seq<Entry>)
    requires TakenFrom(waiting, dependents, result, taken)
    ensures (waiting - OrderSet(taken)).Keys < waiting.Keys
            || (taken == [] && (waiting - OrderSet(taken)).Keys == waiting.Keys)
  {
    if taken != [] {
      assert taken[0].order in OrderSet(taken);
    }
  }

  lemma HighestIs(ready: seq<seq<Entry>>, p: nat)
    requires p < |ready| && ready[p] != [] && forall q :: p < q < |ready| ==> ready[q] == []
    ensures Steps.Highest(ready) == p
  {
  }

  lemma NoneHighest(ready: seq<seq<Entry>>)
    requires forall q :: 0 <= q < |ready| ==> ready[q] == []
    ensures Steps.Highest(ready) == -1
  {
  }

  lemma HeadsAreLogged(s: Queue)
    requires Shape(s) && ReadyLists(s.ready, s.history)
    ensures forall p :: 0 <= p < PRIORITIES && s.ready[p] != [] ==> s.ready[p][0].order < |s.history.place|
  {
    forall p | 0 <= p < PRIORITIES && s.ready[p] != [] ensures s.ready[p][0].order < |s.history.place| {
      assert Lists(s.ready[p], p, s.history);
    }
  }
}
