/** The state of one operation queue: what its mutex guards, the results it hands out, the
    loops of its workers, and a history of every task it accepted.

    Each section the code runs under the queue's lock is one step on this state, given in
    QueueSteps. A result being filled in, which run() does before done() takes the lock,
    is a step of its own. */
module QueueState {
  import opened Wrappers

  datatype ResultState = Pending | Returned | Cancelled

  /** A handle to a result: its id, and the number of the queue that made it. */
  datatype ResultRef = ResultRef(id: nat, queue: nat)

  /** A task in the list; a task from submit() has no result. */
  datatype Entry = Entry(order: nat, result: Option<nat>)

  datatype Waiting = Waiting(task: Entry, priority: nat, remaining: nat)

  /** What a worker's loop holds: a sweep or a finish the queue handed it, or other work
      that a task or another thread posted there. */
  datatype Thunk = Sweep | Finish | Other

  /** Where a worker stands between two lock-held sections. `ending` tells whether the
      sweep in progress belongs to the worker's finish thunk. */
  datatype Control =
    | Between
    | Taking(ending: bool)
    | Running(task: Entry, ending: bool)
    | Ran(task: Entry, ending: bool)
    | Checking
    | Reposting
    | Quitting
    | Elsewhere
    | Ended
    | Lapsed

  datatype Worker = Worker(pending: seq<Thunk>, control: Control, quit: bool)

  /** What the queue was told about a task when it accepted it, and whether nothing it
      runs after was still unfinished then. */
  datatype Task = Task(result: Option<nat>, priority: nat, after: seq<nat>, direct: bool)

  datatype Place = Ready | Aside | On(worker: nat) | Finished | Dropped

  /** History: every accepted task and where it is now, both by order; the order of the
      task behind each result; and the orders started, oldest first. */
  datatype History = History(log: seq<Task>, place: seq<Place>, owner: map<nat, nat>, started: seq<nat>)

  datatype Queue = Queue(
    number: nat,
    accepting: bool,
    accepted: nat,
    ready: seq<seq<Entry>>,
    unfinished: set<nat>,
    dependents: map<nat, seq<nat>>,
    waiting: map<nat, Waiting>,
    handles: nat,
    sweeping: seq<bool>,
    workers: seq<Worker>,
    timers: seq<nat>,
    results: map<nat, ResultState>,
    nextId: nat,
    history: History)

  const PRIORITIES := 3

  predicate NamesAPriority(priority: int) {
    0 <= priority < PRIORITIES
  }

  predicate Live(place: Place) {
    place.Ready? || place.Aside? || place.On?
  }

  predicate Busy(control: Control) {
    control.Running? || control.Ran?
  }

  /** In run_until_empty(), or with a thunk on its loop that will call it. */
  predicate Serving(worker: Worker) {
    worker.control.Taking? || Busy(worker.control) || Sweep in worker.pending || Finish in worker.pending
  }

  /** A worker whose loop takes no more thunks: it was told to quit, or lapsed. */
  predicate Gone(worker: Worker) {
    worker.control.Ended? || worker.control.Lapsed?
  }

  /** Every worker's loop ended without being told to. */
  predicate AllLapsed(workers: seq<Worker>) {
    forall w :: 0 <= w < |workers| ==> workers[w].control.Lapsed?
  }

  /** A worker with no step of its own to take. */
  predicate Blocked(worker: Worker) {
    Gone(worker) || (worker.control.Between? && !worker.quit && worker.pending == [])
  }

  /** The state of a new queue; its ids come from a counter all queues share. */
  function Init(number: nat, workers: nat, nextId: nat): Queue {
    Queue(number, true, 0, seq(PRIORITIES, i => []), {}, map[], map[], workers,
          seq(workers, i => false), seq(workers, i => Worker([], Between, false)), seq(workers, i => 0),
          map[], nextId, History([], [], map[], []))
  }

  function EntryOf(log: seq<Task>, order: nat): Entry
    requires order < |log|
  {
    Entry(order, log[order].result)
  }

  /** How many of the ids named in `after` are in `ids`, each counted as often as it is named. */
  function CountIn(after: seq<nat>, ids: set<nat>): nat {
    if after == [] then 0
    else CountIn(after[..|after| - 1], ids) + if after[|after| - 1] in ids then 1 else 0
  }

  lemma {:induction false} CountInWithout(after: seq<nat>, ids: set<nat>, id: nat)
    requires id in ids
    ensures CountIn(after, ids) == CountIn(after, ids - {id}) + multiset(after)[id]
  {
    if after != [] {
      CountInWithout(after[..|after| - 1], ids, id);
      assert after == after[..|after| - 1] + [after[|after| - 1]];
    }
  }

  lemma {:induction false} CountInIsZero(after: seq<nat>, ids: set<nat>)
    ensures CountIn(after, ids) == 0 <==> forall id :: id in after ==> id !in ids
  {
    if after != [] {
      var n := |after| - 1;
      CountInIsZero(after[..n], ids);
      assert after == after[..n] + [after[n]];
      assert forall id :: id in after <==> id in after[..n] || id == after[n];
    }
  }

  lemma {:induction false} CountInSame(after: seq<nat>, ids: set<nat>, other: set<nat>)
    requires forall id :: id in after ==> (id in ids <==> id in other)
    ensures CountIn(after, ids) == CountIn(after, other)
  {
    if after != [] {
      assert forall id :: id in after[..|after| - 1] ==> id in after;
      CountInSame(after[..|after| - 1], ids, other);
    }
  }
}
