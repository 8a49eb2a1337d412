/** Left to themselves, the workers finish: each step one of them takes uses up some of a
    measure that only calls from outside add to. */
module QueueDrain {
  import opened QueueState
  import opened QueueSteps
  import opened QueueInvariant
  import opened QueueProofs
  import opened QueueRuns

  function PendingWork(pending: seq<Thunk>): nat {
    if pending == [] then 0
    else (if pending[0] != Finish then 2 else if pending[1..] == [] then 5 else 9) + PendingWork(pending[1..])
  }

  /** The rest of a finish thunk takes longer when it will have to go round again. */
  function EndingWork(pending: seq<Thunk>): nat {
    if pending == [] then 4 else 8
  }

  function WorkerWork(worker: Worker): nat {
    PendingWork(worker.pending) +
    match worker.control
    case Between => if worker.quit then 1 else 0
    case Taking(ending) => if ending then EndingWork(worker.pending) else 1
    case Running(_, ending) => 2 + if ending then EndingWork(worker.pending) else 1
    case Ran(_, ending) => 1 + if ending then EndingWork(worker.pending) else 1
    case Checking => EndingWork(worker.pending) - 1
    case Reposting => 6
    case Quitting => 2
    case Elsewhere => 1
    case Ended => 0
    case Lapsed => 0
  }

  function WorkersWork(workers: seq<Worker>): nat {
    if workers == [] then 0 else WorkerWork(workers[0]) + WorkersWork(workers[1..])
  }

  /** A waiting task costs what handing out its sweeps will. */
  function PlaceWork(place: Place, workers: nat): nat {
    match place
    case Ready => 3
    case Aside => 4 + 2 * workers
    case _ => 0
  }

  function PlacesWork(places: seq<Place>, workers: nat): nat {
    if places == [] then 0 else PlaceWork(places[0], workers) + PlacesWork(places[1..], workers)
  }

  function Left(s: Queue): nat {
    WorkersWork(s.workers) + PlacesWork(s.history.place, |s.workers|)
  }

  lemma {:induction false} WorkersWorkAt(workers: seq<Worker>, w: nat, worker: Worker)
    requires w < |workers|
    ensures WorkersWork(workers[w := worker]) + WorkerWork(workers[w]) == WorkersWork(workers) + WorkerWork(worker)
  {
    if w > 0 {
      WorkersWorkAt(workers[1..], w - 1, worker);
      assert workers[w := worker][1..] == workers[1..][w - 1 := worker];
    } else {
      assert workers[w := worker][1..] == workers[1..];
    }
  }

  lemma {:induction false} PlacesWorkAt(places: seq<Place>, o: nat, place: Place, workers: nat)
    requires o < |places|
    ensures PlacesWork(places[o := place], workers) + PlaceWork(places[o], workers)
         == PlacesWork(places, workers) + PlaceWork(place, workers)
  {
    if o > 0 {
      PlacesWorkAt(places[1..], o - 1, place, workers);
      assert places[o := place][1..] == places[1..][o - 1 := place];
    } else {
      assert places[o := place][1..] == places[1..];
    }
  }

  lemma {:induction false} WorkersWorkAdded(workers: seq<Worker>, others: seq<Worker>)
    requires |others| == |workers|
    requires forall w :: 0 <= w < |workers| ==> WorkerWork(others[w]) <= WorkerWork(workers[w]) + 2
    ensures WorkersWork(others) <= WorkersWork(workers) + 2 * |workers|
  {
    if workers != [] {
      WorkersWorkAdded(workers[1..], others[1..]);
    }
  }

  lemma {:induction false} PendingWorkPost(pending: seq<Thunk>, thunk: Thunk)
    requires Finish !in pending
    ensures PendingWork(pending + [thunk]) == PendingWork(pending) + if thunk == Finish then 5 else 2
  {
    if pending != [] {
      PendingWorkPost(pending[1..], thunk);
      assert (pending + [thunk])[1..] == pending[1..] + [thunk];
      assert pending[0] != Finish;
    }
  }

  lemma SweepCosts(worker: Worker)
    requires !InFinish(worker) && Finish !in worker.pending
    ensures WorkerWork(Perform(worker, Sweep)) <= WorkerWork(worker) + 2
  {
    PendingWorkPost(worker.pending, Sweep);
  }

  lemma MakeReadyCosts(s: Queue, task: Entry, priority: nat)
    requires Callable(s) && priority < PRIORITIES && task.order < |s.history.place|
    requires s.history.place[task.order] == Aside
    requires s.handles > 0 ==>
      forall w :: 0 <= w < |s.workers| ==> !InFinish(s.workers[w]) && Finish !in s.workers[w].pending
    ensures Left(MakeReady(s, task, priority)) < Left(s)
  {
    var t := MakeReady(s, task, priority);
    forall w | 0 <= w < |s.workers| ensures WorkerWork(t.workers[w]) <= WorkerWork(s.workers[w]) + 2 {
      if t.workers[w] != s.workers[w] {
        SweepCosts(s.workers[w]);
      }
    }
    WorkersWorkAdded(s.workers, t.workers);
    PlacesWorkAt(s.history.place, task.order, Place.Ready, |s.workers|);
  }

  lemma {:induction false} CountOffCosts(s: Queue, orders: seq<nat>)
    requires Partial(s, {}, orders) && (s.accepting || SomeServer(s.workers))
    ensures Countable(s) && Left(CountOff(s, orders)) <= Left(s)
    decreases |orders|
  {
    InvIsCountable(s, {}, orders);
    if orders != [] {
      var o := orders[0];
      assert [o] + orders[1..] == orders;
      CountOneKeeps(s, o, orders[1..]);
      CountOneCosts(s, o);
      CountOffCosts(CountOne(s, o), orders[1..]);
    }
  }

  lemma CountOneCosts(s: Queue, o: nat)
    requires Shape(s) && Countable(s) && WaitingTable(s.waiting, s.history, {})
    requires Served(s.accepting, s.sweeping, s.workers, s.ready)
    ensures Left(CountOne(s, o)) <= Left(s)
  {
    if o in s.waiting && s.waiting[o].remaining == 1 {
      MakeReadyCosts(s.(waiting := s.waiting - {o}), s.waiting[o].task, s.waiting[o].priority);
    }
  }

  lemma DoneCosts(s: Queue, w: nat)
    requires Inv(s) && w < |s.workers| && s.workers[w].control.Ran?
    ensures Countable(s) && Left(Done(s, w)) < Left(s)
  {
    InvCountable(s);
    RetireKeeps(s, w);
    assert Shape(s) && OnWorkers(s.workers, s.history);
    hide Inv, Partial, Shape, OnWorkers, Countable, Left, Retire, CountOff;
    RetireCosts(s, w);
    CountOffCosts(Retire(s, w), DependentsOf(s, s.workers[w].control.task.result));
  }

  lemma RetireCosts(s: Queue, w: nat)
    requires Shape(s) && OnWorkers(s.workers, s.history) && w < |s.workers| && s.workers[w].control.Ran?
    ensures Left(Retire(s, w)) < Left(s)
  {
    var t := Retire(s, w);
    InHand(s, w);
    hide OnWorkers;
    WorkersWorkAt(s.workers, w, t.workers[w]);
    PlacesWorkAt(s.history.place, s.workers[w].control.task.order, Finished, |s.workers|);
  }

  lemma TakeSomeCosts(s: Queue, w: nat, p: nat, o: nat)
    requires Next(s, w, p, o)
    ensures Left(Take(s, w)) < Left(s)
  {
    WorkersWorkAt(s.workers, w, Take(s, w).workers[w]);
    PlacesWorkAt(s.history.place, o, On(w), |s.workers|);
  }

  lemma TakeNoneCosts(s: Queue, w: nat)
    requires Shape(s) && Served(s.accepting, s.sweeping, s.workers, s.ready)
    requires w < |s.workers| && s.workers[w].control.Taking? && Highest(s.ready) < 0
    ensures Left(Take(s, w)) < Left(s)
  {
    assert if s.accepting then !InFinish(s.workers[w]) else Closing(s.workers[w]);
    WorkersWorkAt(s.workers, w, Take(s, w).workers[w]);
  }

  lemma BeginCosts(s: Queue, w: nat)
    requires w < |s.workers| && s.workers[w].control.Between? && !Blocked(s.workers[w])
    ensures Left(Begin(s, w)) < Left(s)
  {
    var t := Begin(s, w);
    WorkersWorkAt(s.workers, w, t.workers[w]);
    assert t.workers == s.workers[w := t.workers[w]];
  }

  lemma ReturnCosts(s: Queue, w: nat)
    requires w < |s.workers| && s.workers[w].control.Running?
    ensures Left(Return(s, w)) < Left(s)
  {
    var t := Return(s, w);
    WorkersWorkAt(s.workers, w, t.workers[w]);
    assert t.workers == s.workers[w := t.workers[w]];
  }

  lemma LeaveCosts(s: Queue, w: nat)
    requires Shape(s) && Countable(s) && Served(s.accepting, s.sweeping, s.workers, s.ready) && w < |s.workers|
    requires s.workers[w].control in {Checking, Reposting, Quitting, Elsewhere}
    ensures Left(Work(s, w)) < Left(s)
  {
    if s.workers[w].control.Reposting? {
      assert InFinish(s.workers[w]) && Closing(s.workers[w]);
      PendingWorkPost(s.workers[w].pending, Finish);
    }
    WorkersWorkAt(s.workers, w, Work(s, w).workers[w]);
  }

  /** Each step of a worker leaves less to do. */
  lemma WorkCosts(s: Queue, w: nat)
    requires Inv(s) && w < |s.workers| && !Blocked(s.workers[w])
    ensures Countable(s) && Left(Work(s, w)) < Left(s)
  {
    InvIsCountable(s, {}, []);
    match s.workers[w].control
    case Between => BeginCosts(s, w);
    case Taking(_) =>
      if Highest(s.ready) >= 0 {
        var p, o := NextIs(s, w);
        TakeSomeCosts(s, w, p, o);
      } else {
        TakeNoneCosts(s, w);
      }
    case Running(_, _) => ReturnCosts(s, w);
    case Ran(_, _) => DoneCosts(s, w);
    case _ => LeaveCosts(s, w);
  }

  /** How many workers' loops have not lapsed. */
  function NotLapsed(workers: seq<Worker>): nat {
    if workers == [] then 0 else (if workers[0].control.Lapsed? then 0 else 1) + NotLapsed(workers[1..])
  }

  lemma {:induction false} NotLapsedSame(workers: seq<Worker>, others: seq<Worker>)
    requires |others| == |workers|
    requires forall w :: 0 <= w < |workers| ==> (workers[w].control.Lapsed? ==> others[w].control.Lapsed?)
    ensures NotLapsed(others) <= NotLapsed(workers)
    ensures (exists w :: 0 <= w < |workers| && !workers[w].control.Lapsed? && others[w].control.Lapsed?) ==>
      NotLapsed(others) < NotLapsed(workers)
  {
    if workers != [] {
      NotLapsedSame(workers[1..], others[1..]);
      if w :| 0 < w < |workers| && !workers[w].control.Lapsed? && others[w].control.Lapsed? {
        assert !workers[1..][w - 1].control.Lapsed? && others[1..][w - 1].control.Lapsed?;
      }
    }
  }

  lemma WorkLapsesNone(s: Queue, w: nat)
    requires Countable(s) && w < |s.workers| && !Blocked(s.workers[w])
    ensures NotLapsed(Work(s, w).workers) <= NotLapsed(s.workers)
  {
    WorkStaysLapsed(s, w);
    hide Work, Countable;
    NotLapsedSame(s.workers, Work(s, w).workers);
  }

  lemma WorkStaysLapsed(s: Queue, w: nat)
    requires Countable(s) && w < |s.workers| && !Blocked(s.workers[w])
    ensures |Work(s, w).workers| == |s.workers|
    ensures forall v :: 0 <= v < |s.workers| && s.workers[v].control.Lapsed? ==> Work(s, w).workers[v].control.Lapsed?
  {
    if s.workers[w].control.Ran? {
      CountOffControls(Retire(s, w), DependentsOf(s, s.workers[w].control.task.result));
    }
    hide CountOff;
  }

  lemma LapseCosts(s: Queue, w: nat)
    requires MayLapse(s, w)
    ensures var t := WithControl(s, w, Lapsed); Left(t) == Left(s) && NotLapsed(t.workers) < NotLapsed(s.workers)
  {
    var t := WithControl(s, w, Lapsed);
    WorkersWorkAt(s.workers, w, t.workers[w]);
    NotLapsedSame(s.workers, t.workers);
  }

  /** However the workers take turns from some state on, and whichever loops lapse, they take at most as
      many steps as that state has left; so with no further call from outside, every run comes to a
      state where no worker has a step to take. */
  lemma {:induction false} WorkersFinish(run: seq<Queue>, steps: seq<Step>, i: nat)
    requires IsRun(run, steps) && i < |run|
    requires forall k :: i <= k < |steps| ==> steps[k].Works? || steps[k].Lapses?
    ensures |steps| - i <= Left(run[i]) + NotLapsed(run[i].workers)
    decreases |steps| - i
  {
    RunLength(run, steps);
    if i < |steps| {
      Always(run, steps, i);
      OneStep(run, steps, i);
      WorkersFinish(run, steps, i + 1);
      hide IsRun, Inv, Left, Work;
      match steps[i]
      case Works(w) =>
        WorkCosts(run[i], w);
        WorkLapsesNone(run[i], w);
      case Lapses(w) => LapseCosts(run[i], w);
    }
  }
}
