/** What holds in every state a queue can reach. Each part speaks only of the fields it needs,
    so a step that leaves those alone keeps it. */
module QueueInvariant {
  import opened Wrappers
  import opened QueueState

  ghost predicate Shape(s: Queue) {
    && |s.ready| == PRIORITIES
    && |s.sweeping| == |s.workers| > 0
    && s.handles == (if s.accepting then |s.workers| else 0)
    && s.accepted == |s.history.log| == |s.history.place|
  }

  predicate Aligned(h: History) {
    |h.log| == |h.place|
  }

  function Orders(list: seq<Entry>): (orders: seq<nat>)
    ensures |orders| == |list| && forall i :: 0 <= i < |list| ==> orders[i] == list[i].order
  {
    seq(|list|, i requires 0 <= i < |list| => list[i].order)
  }

  /** `list` holds exactly the ready tasks of priority `p`, each once. */
  ghost predicate Lists(list: seq<Entry>, p: nat, h: History)
    requires Aligned(h)
  {
    && (forall i :: 0 <= i < |list| ==>
          && list[i].order < |h.log|
          && list[i] == EntryOf(h.log, list[i].order)
          && h.place[list[i].order] == Place.Ready
          && h.log[list[i].order].priority == p)
    && (forall i, j :: 0 <= i < j < |list| ==> list[i].order != list[j].order)
    && (forall o :: 0 <= o < |h.log| && h.place[o] == Place.Ready && h.log[o].priority == p ==>
          EntryOf(h.log, o) in list)
  }

  ghost predicate ReadyLists(ready: seq<seq<Entry>>, h: History)
    requires Aligned(h)
  {
    && (forall p :: 0 <= p < |ready| ==> Lists(ready[p], p, h))
    && (forall o :: 0 <= o < |h.log| ==> h.log[o].priority < PRIORITIES)
  }

  /** Exactly the tasks waiting for others are aside, but for those in `limbo`, which a step
      in progress holds in hand. */
  ghost predicate WaitingTable(waiting: map<nat, Waiting>, h: History, limbo: set<nat>)
    requires Aligned(h)
  {
    && (forall o :: o in waiting <==> 0 <= o < |h.log| && h.place[o] == Aside && o !in limbo)
    && (forall o :: o in waiting ==>
          waiting[o].task == EntryOf(h.log, o) && waiting[o].priority == h.log[o].priority)
  }

  /** Exactly the tasks started and not yet done are on a worker, one to each. */
  ghost predicate OnWorkers(workers: seq<Worker>, h: History)
    requires Aligned(h)
  {
    && (forall w :: 0 <= w < |workers| && Busy(workers[w].control) ==>
          var o := workers[w].control.task.order;
          o < |h.log| && workers[w].control.task == EntryOf(h.log, o) && h.place[o] == On(w))
    && (forall o :: 0 <= o < |h.log| && h.place[o].On? ==>
          var w := h.place[o].worker;
          w < |workers| && Busy(workers[w].control) && workers[w].control.task.order == o)
  }

  ghost predicate Conserved(unfinished: set<nat>, h: History)
    requires Aligned(h)
  {
    forall o :: o in unfinished <==> 0 <= o < |h.log| && Live(h.place[o])
  }

  /** Each result belongs to one task, or was cancelled as it was made. */
  ghost predicate Owners(h: History, results: map<nat, ResultState>, nextId: nat) {
    && (forall o :: 0 <= o < |h.log| && h.log[o].result.Some? ==>
          h.log[o].result.value in h.owner && h.owner[h.log[o].result.value] == o)
    && (forall id :: id in h.owner ==> h.owner[id] < |h.log| && h.log[h.owner[id]].result == Some(id))
    && (forall id :: id in results ==> id < nextId)
    && (forall id :: id in h.owner ==> id in results)
    && (forall id :: id in results && id !in h.owner ==> results[id] == Cancelled)
  }

  /** The state of the result of a task, as the task's place determines it. */
  function ResultAt(place: Place, workers: seq<Worker>): ResultState {
    match place
    case Ready => Pending
    case Aside => Pending
    case On(w) => if w < |workers| && workers[w].control.Ran? then Returned else Pending
    case Finished => Returned
    case Dropped => Cancelled
  }

  ghost predicate Results(h: History, results: map<nat, ResultState>, workers: seq<Worker>) {
    forall id :: id in h.owner && h.owner[id] < |h.place| ==>
      id in results && results[id] == ResultAt(h.place[h.owner[id]], workers)
  }

  /** Dependents are listed for exactly the tasks with a result that are not done. */
  ghost predicate Listing(dependents: map<nat, seq<nat>>, h: History) {
    && (forall id :: id in dependents <==>
          id in h.owner && h.owner[id] < |h.place| && Live(h.place[h.owner[id]]))
    && (forall id, o :: id in dependents && o in dependents[id] ==> o < |h.log|)
  }

  /** A task runs after tasks accepted before it, and none it runs after is cancelled
      unless it is too. */
  ghost predicate Chains(h: History, results: map<nat, ResultState>)
    requires Aligned(h)
  {
    forall o, id :: 0 <= o < |h.log| && id in h.log[o].after ==>
      && id in h.owner && h.owner[id] < o && id in results
      && (h.place[o] != Dropped ==> results[id] != Cancelled)
  }

  /** A waiting task is listed under each result it runs after as often as it names it, and
      `remaining` counts the ones still listed, with the occurrences in `rest` that a done()
      in progress has yet to count off. Lists may also hold orders no longer waiting. */
  ghost predicate Counted(dependents: map<nat, seq<nat>>, waiting: map<nat, Waiting>, log: seq<Task>, rest: seq<nat>) {
    && (forall o :: o in waiting ==>
          0 <= o < |log| && waiting[o].remaining > 0 &&
          waiting[o].remaining == CountIn(log[o].after, dependents.Keys) + multiset(rest)[o])
    && (forall id, o :: id in dependents && o in waiting ==>
          multiset(dependents[id])[o] == multiset(log[o].after)[id])
  }

  predicate Admitted(place: Place) {
    place.Ready? || place.On? || place.Finished?
  }

  /** Every result a task runs after has returned before the task is ready. */
  ghost predicate Met(h: History, results: map<nat, ResultState>)
    requires Aligned(h)
  {
    forall o, id | 0 <= o < |h.log| && Admitted(h.place[o]) && id in h.log[o].after ::
      id in results && results[id] == Returned
  }

  /** Neither a sweep nor a finish is pending. */
  predicate NoneHanded(pending: seq<Thunk>) {
    Sweep !in pending && Finish !in pending
  }

  /** The finish is pending, once, behind every sweep. */
  predicate FinishLast(pending: seq<Thunk>) {
    pending != [] && (if pending[0] == Finish then NoneHanded(pending[1..]) else FinishLast(pending[1..]))
  }

  predicate InFinish(worker: Worker) {
    || worker.quit
    || (match worker.control
        case Taking(ending) => ending
        case Running(_, ending) => ending
        case Ran(_, ending) => ending
        case Checking => true
        case Reposting => true
        case Quitting => true
        case Ended => true
        case Lapsed => false
        case Between => false
        case Elsewhere => false)
  }

  predicate AnyReady(ready: seq<seq<Entry>>) {
    exists p :: 0 <= p < |ready| && ready[p] != []
  }

  predicate SomeServer(workers: seq<Worker>) {
    exists w :: 0 <= w < |workers| && Serving(workers[w])
  }

  /** While the queue accepts, no worker is ending, one marked as sweeping serves unless it lapsed,
      and with a task ready every worker is marked. */
  predicate ServedOpen(sweeping: seq<bool>, workers: seq<Worker>, ready: seq<seq<Entry>>) {
    && |sweeping| == |workers|
    && (forall w :: 0 <= w < |workers| && sweeping[w] ==> Serving(workers[w]) || workers[w].control.Lapsed?)
    && (forall w :: 0 <= w < |workers| ==> !InFinish(workers[w]) && Finish !in workers[w].pending)
    && (forall w :: 0 <= w < |workers| && workers[w].control.Lapsed? ==> workers[w].pending == [])
    && (AnyReady(ready) ==> forall w :: 0 <= w < |workers| ==> sweeping[w])
  }

  /** Each worker has its finish ahead of it or is in it, unless it lapsed before. */
  predicate Closing(worker: Worker) {
    if worker.control.Lapsed? then worker.pending == []
    else
    && (if InFinish(worker) then NoneHanded(worker.pending) else FinishLast(worker.pending))
    && (worker.quit ==> worker.control.Between?)
    && (worker.control.Ended? ==> worker.pending == [])
  }

  /** Once the queue has stopped, every worker is closing, and with a task ready one serves, unless
      all had lapsed. */
  predicate ServedStopped(workers: seq<Worker>, ready: seq<seq<Entry>>) {
    && (forall w :: 0 <= w < |workers| ==> Closing(workers[w]))
    && (AnyReady(ready) ==> SomeServer(workers) || AllLapsed(workers))
  }

  predicate Served(accepting: bool, sweeping: seq<bool>, workers: seq<Worker>, ready: seq<seq<Entry>>) {
    if accepting then ServedOpen(sweeping, workers, ready) else ServedStopped(workers, ready)
  }

  predicate Direct(log: seq<Task>, o: nat, p: nat) {
    o < |log| && log[o].direct && log[o].priority == p
  }

  predicate Ascending(log: seq<Task>, p: nat, line: seq<nat>) {
    forall i, j | 0 <= i < j < |line| :: Direct(log, line[i], p) && Direct(log, line[j], p) ==> line[i] < line[j]
  }

  /** Tasks that waited for nothing are started, and listed to be started, in the order they
      were accepted, among those of one priority. */
  ghost predicate Fifo(log: seq<Task>, started: seq<nat>, ready: seq<seq<Entry>>) {
    forall p :: 0 <= p < |ready| ==> Ascending(log, p, started + Orders(ready[p]))
  }

  /** A task that waited for nothing is never aside, and the tasks started are those on a
      worker or finished, each once. */
  ghost predicate Starts(h: History, limbo: set<nat>)
    requires Aligned(h)
  {
    && (forall o :: 0 <= o < |h.log| && h.log[o].direct && o !in limbo ==> h.place[o] != Aside)
    && (forall k, l :: 0 <= k < l < |h.started| ==> h.started[k] != h.started[l])
    && (forall o :: o in h.started <==> 0 <= o < |h.log| && (h.place[o].On? || h.place[o].Finished?))
  }

  /** The invariant partway through a step that holds the tasks `limbo` in hand and has yet
      to count off `rest`. */
  ghost predicate Partial(s: Queue, limbo: set<nat>, rest: seq<nat>) {
    && Shape(s)
    && ReadyLists(s.ready, s.history)
    && WaitingTable(s.waiting, s.history, limbo)
    && OnWorkers(s.workers, s.history)
    && Conserved(s.unfinished, s.history)
    && Owners(s.history, s.results, s.nextId)
    && Results(s.history, s.results, s.workers)
    && Listing(s.dependents, s.history)
    && Chains(s.history, s.results)
    && Counted(s.dependents, s.waiting, s.history.log, rest)
    && Met(s.history, s.results)
    && Served(s.accepting, s.sweeping, s.workers, s.ready)
    && Fifo(s.history.log, s.history.started, s.ready)
    && Starts(s.history, limbo)
  }

  ghost predicate Inv(s: Queue) {
    Partial(s, {}, [])
  }
}
