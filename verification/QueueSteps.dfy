/** The steps of a queue. Each function gives the whole state after one lock-held section of
    src/thread/operation_queue.cpp, or after one step of a worker between two of them. */
module QueueSteps {
  import opened Wrappers
  import opened QueueState

  datatype Refusal = InvalidPriority | ForeignDependency | QueueStopped

  /** What a caller of submit() or enqueue() is told. */
  datatype Reply = Refused(why: Refusal) | Taken(result: Option<nat>)

  predicate AllFromHere(s: Queue, after: seq<ResultRef>) {
    forall r :: r in after ==> r.queue == s.number
  }

  predicate AnyCancelled(s: Queue, after: seq<ResultRef>) {
    exists r :: r in after && r.id in s.results && s.results[r.id] == Cancelled
  }

  function Ids(after: seq<ResultRef>): (ids: seq<nat>)
    ensures |ids| == |after|
    ensures forall k :: 0 <= k < |ids| ==> ids[k] == after[k].id
  {
    seq(|after|, k requires 0 <= k < |after| => after[k].id)
  }

  /** A loop takes a thunk unless it has ended. */
  function Perform(worker: Worker, thunk: Thunk): Worker {
    if Gone(worker) then worker else worker.(pending := worker.pending + [thunk])
  }

  function Sweeping(sweeping: seq<bool>, handles: nat): seq<bool> {
    seq(|sweeping|, i requires 0 <= i < |sweeping| => sweeping[i] || i < handles)
  }

  function Swept(workers: seq<Worker>, sweeping: seq<bool>, handles: nat): seq<Worker>
    requires |workers| == |sweeping|
  {
    seq(|workers|, i requires 0 <= i < |workers| =>
      if i < handles && !sweeping[i] then Perform(workers[i], Sweep) else workers[i])
  }

  /** Adds a task to the list of its priority, and hands a sweep to every worker that the
      queue still holds and that has none. */
  function MakeReady(s: Queue, task: Entry, priority: nat): Queue
    requires priority < |s.ready|
    requires task.order < |s.history.place|
    requires s.handles <= |s.workers| == |s.sweeping|
  {
    s.(ready := s.ready[priority := s.ready[priority] + [task]],
       sweeping := Sweeping(s.sweeping, s.handles),
       workers := Swept(s.workers, s.sweeping, s.handles),
       history := s.history.(place := s.history.place[task.order := Place.Ready]))
  }

  /** Appends `order` to the list of every result named in `after` that is still listed,
      once for each time it is named. */
  function Register(dependents: map<nat, seq<nat>>, after: seq<nat>, order: nat): (r: map<nat, seq<nat>>)
    ensures r.Keys == dependents.Keys
  {
    if after == [] then dependents
    else
      var d := Register(dependents, after[..|after| - 1], order);
      var last := after[|after| - 1];
      if last in d then d[last := d[last] + [order]] else d
  }

  function Listed(s: Queue, result: Option<nat>): map<nat, seq<nat>> {
    if result.Some? && result.value !in s.dependents then s.dependents[result.value := []] else s.dependents
  }

  /** The task logged with the next order, and listed under each result it runs after that is
      still listed, but not yet aside or ready. */
  function Logged(s: Queue, priority: nat, after: seq<nat>, result: Option<nat>): Queue
  {
    var order := s.accepted;
    var listed := Listed(s, result);
    s.(accepted := order + 1,
       unfinished := s.unfinished + {order},
       dependents := Register(listed, after, order),
       history := History(s.history.log + [Task(result, priority, after, CountIn(after, listed.Keys) == 0)],
                          s.history.place + [Aside],
                          if result.Some? then s.history.owner[result.value := order] else s.history.owner,
                          s.history.started))
  }

  /** queue(): the task waits aside for what is still listed, or goes straight to the list of
      its priority. */
  function Accept(s: Queue, priority: nat, after: seq<nat>, result: Option<nat>): Queue
    requires priority < |s.ready|
    requires s.accepted == |s.history.log| == |s.history.place|
    requires s.handles <= |s.workers| == |s.sweeping|
  {
    var task := Entry(s.accepted, result);
    var remaining := CountIn(after, Listed(s, result).Keys);
    var s1 := Logged(s, priority, after, result);
    if remaining > 0 then s1.(waiting := s.waiting[task.order := Waiting(task, priority, remaining)])
    else MakeReady(s1, task, priority)
  }

  ghost predicate Callable(s: Queue) {
    && |s.ready| == PRIORITIES
    && s.accepted == |s.history.log| == |s.history.place|
    && s.handles <= |s.workers| == |s.sweeping|
  }

  function Submit(s: Queue, priority: int, after: seq<ResultRef>): (Queue, Reply)
    requires Callable(s)
  {
    if !NamesAPriority(priority) then (s, Refused(InvalidPriority))
    else if !AllFromHere(s, after) then (s, Refused(ForeignDependency))
    else if !s.accepting then (s, Refused(QueueStopped))
    else if AnyCancelled(s, after) then (s, Taken(None))
    else (Accept(s, priority, Ids(after), None), Taken(None))
  }

  /** A new pending result, if there is one. */
  function WithResult(s: Queue, result: Option<nat>): Queue {
    if result.Some? then s.(nextId := result.value + 1, results := s.results[result.value := Pending]) else s
  }

  /** As Submit, for a task that fills in a result; the result gets the next id. */
  function Enqueue(s: Queue, priority: int, after: seq<ResultRef>): (Queue, Reply)
    requires Callable(s)
  {
    if !NamesAPriority(priority) then (s, Refused(InvalidPriority))
    else if !AllFromHere(s, after) then (s, Refused(ForeignDependency))
    else if !s.accepting then (s, Refused(QueueStopped))
    else
      var id := Some(s.nextId);
      if AnyCancelled(s, after) then
        (WithResult(s, id).(results := s.results[s.nextId := Cancelled]), Taken(id))
      else (Accept(WithResult(s, id), priority, Ids(after), id), Taken(id))
  }

  /** Some not yet started task waits to run after the task of order `a`. */
  predicate RunsAfter(s: Queue, a: nat, b: nat) {
    && a < |s.history.log| && b < |s.history.log| && b < |s.history.place|
    && s.history.place[b] == Aside
    && s.history.log[a].result.Some?
    && s.history.log[a].result.value in s.history.log[b].after
  }

  /** `b` is `a` itself, or runs after it, or after those in turn. A task only ever runs
      after tasks accepted before it. */
  predicate Reaches(s: Queue, a: nat, b: nat)
    decreases b
  {
    a == b || exists m :: a <= m < b && Reaches(s, a, m) && RunsAfter(s, m, b)
  }

  /** The tasks a cancel of task `root` takes off the queue. */
  ghost function Closure(s: Queue, root: nat): set<nat> {
    set b | 0 <= b < |s.history.log| && Reaches(s, root, b)
  }

  ghost function IdsOf(s: Queue, orders: set<nat>): set<nat> {
    set id | id in s.history.owner && s.history.owner[id] in orders
  }

  /** The first index of a task in a list, or -1. */
  function IndexOf(list: seq<Entry>, order: nat): (k: int)
    ensures -1 <= k < |list|
    ensures k >= 0 ==> list[k].order == order
    ensures forall i :: 0 <= i < (if k < 0 then |list| else k) ==> list[i].order != order
  {
    if list == [] then -1
    else if list[0].order == order then 0
    else
      var k := IndexOf(list[1..], order);
      if k < 0 then -1 else k + 1
  }

  /** The list with the first entry of a task taken out. */
  function Without(list: seq<Entry>, order: nat): seq<Entry> {
    var k := IndexOf(list, order);
    if k < 0 then list else list[..k] + list[k + 1..]
  }

  /** Whether `id` names a task that has not started. */
  predicate Cancellable(s: Queue, id: nat) {
    && id in s.history.owner
    && s.history.owner[id] < |s.history.place|
    && s.history.place[s.history.owner[id]] in {Place.Ready, Aside}
  }

  /** Takes a task that has not started off the queue, with every task it reaches, and
      marks their results cancelled. Everything else stays as it is. */
  ghost function Cancel(s: Queue, id: nat): Queue {
    if !Cancellable(s, id) then s
    else
      var root := s.history.owner[id];
      var gone := Closure(s, root);
      s.(ready := seq(|s.ready|, p requires 0 <= p < |s.ready| => Without(s.ready[p], root)),
         unfinished := s.unfinished - gone,
         dependents := s.dependents - IdsOf(s, gone),
         waiting := s.waiting - gone,
         results := map i | i in s.results :: if i in IdsOf(s, gone) then Cancelled else s.results[i],
         history := s.history.(place := seq(|s.history.place|, o requires 0 <= o < |s.history.place| =>
           if o in gone then Dropped else s.history.place[o])))
  }

  /** Stops accepting, hands every worker a finish, and lets go of the workers. */
  function Stop(s: Queue): Queue
    requires s.handles <= |s.workers|
  {
    if !s.accepting then s
    else
      s.(accepting := false,
         handles := 0,
         workers := seq(|s.workers|, i requires 0 <= i < |s.workers| =>
           if i < s.handles then Perform(s.workers[i], Finish) else s.workers[i]))
  }

  /** Whether every task accepted before the `target`th has finished or been cancelled. */
  predicate Settled(s: Queue, target: nat) {
    forall o :: o in s.unfinished ==> target <= o
  }

  function WithControl(s: Queue, w: nat, control: Control): Queue
    requires w < |s.workers|
  {
    s.(workers := s.workers[w := s.workers[w].(control := control)])
  }

  /** The highest priority with a task in its list, if any. */
  function Highest(ready: seq<seq<Entry>>): (p: int)
    ensures -1 <= p < |ready|
    ensures p >= 0 ==> ready[p] != []
    ensures forall q :: p < q < |ready| ==> ready[q] == []
  {
    if ready == [] then -1
    else if ready[|ready| - 1] != [] then |ready| - 1
    else Highest(ready[..|ready| - 1])
  }

  /** take(): the first task of the highest priority, or none once every list is empty. */
  function Take(s: Queue, w: nat): Queue
    requires w < |s.workers| == |s.sweeping|
    requires s.workers[w].control.Taking?
  {
    var ending := s.workers[w].control.ending;
    var p := Highest(s.ready);
    if p < 0 then
      WithControl(s, w, if ending then Checking else Between).(sweeping := s.sweeping[w := false])
    else
      var next := s.ready[p][0];
      WithControl(s, w, Running(next, ending)).(
        ready := s.ready[p := s.ready[p][1..]],
        history := s.history.(place := if next.order < |s.history.place|
                                       then s.history.place[next.order := On(w)] else s.history.place,
                              started := s.history.started + [next.order]))
  }

  /** The task returns, which fills in its result unless it already left pending. */
  function Return(s: Queue, w: nat): Queue
    requires w < |s.workers| && s.workers[w].control.Running?
  {
    var task := s.workers[w].control.task;
    var s1 := WithControl(s, w, Ran(task, s.workers[w].control.ending));
    if task.result.Some? && task.result.value in s.results && s.results[task.result.value] == Pending
    then s1.(results := s.results[task.result.value := Returned])
    else s1
  }

  /** Counts a finished task off each task named in `orders`, in turn; one it was the last
      for becomes ready. */
  function CountOff(s: Queue, orders: seq<nat>): Queue
    requires Callable(s)
    requires forall o :: o in s.waiting ==>
      s.waiting[o].priority < PRIORITIES && s.waiting[o].remaining > 0 && s.waiting[o].task.order < |s.history.place|
    decreases |orders|
  {
    if orders == [] then s else CountOff(CountOne(s, orders[0]), orders[1..])
  }

  function CountOne(s: Queue, order: nat): Queue
    requires Callable(s)
    requires order in s.waiting ==>
      s.waiting[order].priority < PRIORITIES && s.waiting[order].remaining > 0 && s.waiting[order].task.order < |s.history.place|
  {
    if order !in s.waiting then s
    else
      var found := s.waiting[order];
      if found.remaining == 1 then
        MakeReady(s.(waiting := s.waiting - {order}), found.task, found.priority)
      else s.(waiting := s.waiting[order := found.(remaining := found.remaining - 1)])
  }

  /** The finished task and its list of dependents gone, before any of them is counted off. */
  function Retire(s: Queue, w: nat): Queue
    requires w < |s.workers| && s.workers[w].control.Ran?
  {
    var task := s.workers[w].control.task;
    WithControl(s, w, Taking(s.workers[w].control.ending)).(
      unfinished := s.unfinished - {task.order},
      dependents := if task.result.Some? then s.dependents - {task.result.value} else s.dependents,
      history := s.history.(place := if task.order < |s.history.place|
                                     then s.history.place[task.order := Finished] else s.history.place))
  }

  function DependentsOf(s: Queue, result: Option<nat>): seq<nat> {
    if result.Some? && result.value in s.dependents then s.dependents[result.value] else []
  }

  /** Every waiting task can be counted off and made ready. */
  ghost predicate Countable(s: Queue) {
    && Callable(s)
    && forall o :: o in s.waiting ==>
      s.waiting[o].priority < PRIORITIES && s.waiting[o].remaining > 0 && s.waiting[o].task.order < |s.history.place|
  }

  /** done(): the task is finished, and counted off every task that runs after it. */
  function Done(s: Queue, w: nat): Queue
    requires Countable(s)
    requires w < |s.workers| && s.workers[w].control.Ran?
  {
    CountOff(Retire(s, w), DependentsOf(s, s.workers[w].control.task.result))
  }

  /** What a worker's loop does next once no thunk is running: end if told to quit, or pop
      the first thunk and start it. */
  function Begin(s: Queue, w: nat): Queue
    requires w < |s.workers| && s.workers[w].control.Between?
    requires !Blocked(s.workers[w])
  {
    var worker := s.workers[w];
    var next :=
      if worker.quit then Worker([], Ended, false)
      else
        Worker(worker.pending[1..],
               match worker.pending[0]
               case Sweep => Taking(false)
               case Finish => Taking(true)
               case Other => Elsewhere,
               false);
    s.(workers := s.workers[w := next])
  }

  /** The next step of worker w, which is always determined. */
  function Work(s: Queue, w: nat): Queue
    requires Countable(s)
    requires w < |s.workers| && !Blocked(s.workers[w])
  {
    match s.workers[w].control
    case Between => Begin(s, w)
    case Taking(_) => Take(s, w)
    case Running(_, _) => Return(s, w)
    case Ran(_, _) => Done(s, w)
    case Checking => WithControl(s, w, if s.workers[w].pending != [] then Reposting else Quitting)
    case Reposting =>
      s.(workers := s.workers[w := Perform(s.workers[w], Finish).(control := Between)])
    case Quitting => s.(workers := s.workers[w := s.workers[w].(control := Between, quit := true)])
    case Elsewhere => WithControl(s, w, Between)
  }

  /** A timer installed on a worker's loop, taken off it, or fired by it; one that does not fire
      again is gone. */
  function Install(s: Queue, w: nat): Queue
    requires w < |s.timers| && w < |s.workers|
  {
    if Gone(s.workers[w]) then s else s.(timers := s.timers[w := s.timers[w] + 1])
  }

  function Remove(s: Queue, w: nat): Queue
    requires w < |s.timers| && s.timers[w] > 0
  {
    s.(timers := s.timers[w := s.timers[w] - 1])
  }

  function Fire(s: Queue, w: nat, again: bool): Queue
    requires w < |s.workers| && w < |s.timers| && s.timers[w] > 0
  {
    var t := WithControl(s, w, Elsewhere);
    if again then t else Remove(t, w)
  }

  /** With a timer on its loop and nothing queued, run() can return though nothing told it to quit: the
      timer is not due at the first look and due at the second, and neither look fires it. The worker's
      thread ends then, and its loop refuses every thunk. */
  predicate MayLapse(s: Queue, w: nat) {
    && w < |s.workers| && w < |s.timers| && s.timers[w] > 0
    && s.workers[w].control.Between? && !s.workers[w].quit && s.workers[w].pending == []
  }

  /** Everything that can happen: a call on a handle, other work posted on a worker's loop, a
      timer installed, taken off or fired there, a loop that lapses, an id taken by another queue,
      or a step of a worker. */
  datatype Step =
    | Submits(priority: int, after: seq<ResultRef>)
    | Enqueues(priority: int, after: seq<ResultRef>)
    | Cancels(id: nat)
    | Stops
    | Posts(worker: nat)
    | Installs(worker: nat)
    | Removes(worker: nat)
    | Fires(worker: nat, again: bool)
    | Lapses(worker: nat)
    | TakesId
    | Works(worker: nat)

  /** A caller can only name results that exist: one from this queue was made by it. */
  predicate HandlesExist(s: Queue, after: seq<ResultRef>) {
    forall r :: r in after && r.queue == s.number ==> r.id in s.results
  }

  ghost predicate Enabled(s: Queue, step: Step) {
    match step
    case Submits(_, after) => HandlesExist(s, after)
    case Enqueues(_, after) => HandlesExist(s, after)
    case Cancels(_) => true
    case Stops => true
    case Posts(w) => w < |s.workers|
    case Installs(w) => w < |s.workers| && w < |s.timers|
    case Removes(w) => w < |s.timers| && s.timers[w] > 0
    case Fires(w, _) =>
      && w < |s.workers| && w < |s.timers| && s.timers[w] > 0
      && s.workers[w].control.Between? && !s.workers[w].quit
    case Lapses(w) => MayLapse(s, w)
    case TakesId => true
    case Works(w) => w < |s.workers| && !Blocked(s.workers[w])
  }

  ghost function Apply(s: Queue, step: Step): Queue
    requires Countable(s) && Enabled(s, step)
  {
    match step
    case Submits(priority, after) => Submit(s, priority, after).0
    case Enqueues(priority, after) => Enqueue(s, priority, after).0
    case Cancels(id) => Cancel(s, id)
    case Stops => Stop(s)
    case Posts(w) => s.(workers := s.workers[w := Perform(s.workers[w], Other)])
    case Installs(w) => Install(s, w)
    case Removes(w) => Remove(s, w)
    case Fires(w, again) => Fire(s, w, again)
    case Lapses(w) => WithControl(s, w, Lapsed)
    case TakesId => s.(nextId := s.nextId + 1)
    case Works(w) => Work(s, w)
  }
}
