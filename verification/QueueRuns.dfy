/** What holds over every run of a queue: no task is lost, stuck, run twice, run before what
    it runs after, or run after something cancelled. */
module QueueRuns {
  import opened Wrappers
  import opened QueueState
  import opened QueueSteps
  import opened QueueInvariant
  import opened QueueProofs

  /** `run` lists the states a queue goes through as `steps` happen, in any order. */
  ghost predicate IsRun(run: seq<Queue>, steps: seq<Step>) {
    && |run| == |steps| + 1
    && (exists number: nat, workers: nat, nextId: nat :: workers > 0 && run[0] == Init(number, workers, nextId))
    && (forall i :: 0 <= i < |steps| ==> Goes(run[i], steps[i], run[i + 1]))
  }

  ghost predicate Goes(s: Queue, step: Step, t: Queue) {
    Countable(s) && Enabled(s, step) && t == Apply(s, step)
  }

  lemma {:induction false} Always(run: seq<Queue>, steps: seq<Step>, i: nat)
    requires IsRun(run, steps) && i < |run|
    ensures Inv(run[i])
  {
    if i == 0 {
      var number: nat, workers: nat, nextId: nat :| workers > 0 && run[0] == Init(number, workers, nextId);
      InitKeeps(number, workers, nextId);
    } else {
      Always(run, steps, i - 1);
      assert Goes(run[i - 1], steps[i - 1], run[i]);
      StepKeeps(run[i - 1], steps[i - 1]);
    }
  }

  /** Every enabled step can happen in a state a run has reached. */
  lemma RunGoesOn(run: seq<Queue>, steps: seq<Step>, step: Step)
    requires IsRun(run, steps) && Enabled(run[|steps|], step)
    ensures Countable(run[|steps|]) && IsRun(run + [Apply(run[|steps|], step)], steps + [step])
  {
    hide *;
    RunLength(run, steps);
    Always(run, steps, |steps|);
    StepGoes(run[|steps|], step);
    LongerRun(run, steps, step, Apply(run[|steps|], step));
  }

  lemma RunLength(run: seq<Queue>, steps: seq<Step>)
    requires IsRun(run, steps)
    ensures |run| == |steps| + 1
  {
    hide Goes;
  }

  lemma StepGoes(s: Queue, step: Step)
    requires Inv(s) && Enabled(s, step)
    ensures Countable(s) && Goes(s, step, Apply(s, step))
  {
    hide Inv, Countable, Enabled, Apply;
    StepKeeps(s, step);
  }

  lemma LongerRun(run: seq<Queue>, steps: seq<Step>, step: Step, next: Queue)
    requires IsRun(run, steps) && |run| == |steps| + 1 && Goes(run[|steps|], step, next)
    ensures IsRun(run + [next], steps + [step])
  {
    hide Goes, Init;
    var run', steps' := run + [next], steps + [step];
    assert run'[0] == run[0];
    forall i | 0 <= i < |steps'| ensures Goes(run'[i], steps'[i], run'[i + 1]) {
      if i < |steps| {
        assert Goes(run[i], steps[i], run[i + 1]);
      }
    }
  }

  // ---- no stuck run ----

  /** The earliest unfinished task is ready or running, never waiting for another. */
  lemma EarliestNotWaiting(s: Queue, o: nat)
    requires Inv(s) && o in s.unfinished && forall x :: x in s.unfinished ==> o <= x
    ensures o !in s.waiting
    ensures s.history.place[o].Ready? || s.history.place[o].On?
  {
    if o in s.waiting {
      CountInIsZero(s.history.log[o].after, s.dependents.Keys);
      assert false;
    }
  }

  /** With some task unfinished, some worker has a step to take, whether or not the queue has
      stopped, exactly when not every worker has lapsed. */
  lemma NeverStuck(run: seq<Queue>, steps: seq<Step>, i: nat)
    requires IsRun(run, steps) && i < |run|
    requires run[i].unfinished != {}
    ensures (exists w :: 0 <= w < |run[i].workers| && !Blocked(run[i].workers[w])) <==> !AllLapsed(run[i].workers)
  {
    Always(run, steps, i);
    if !AllLapsed(run[i].workers) {
      SomeoneCanStep(run[i]);
    }
  }

  lemma SomeoneCanStep(s: Queue)
    requires Inv(s) && s.unfinished != {} && !AllLapsed(s.workers)
    ensures exists w :: 0 <= w < |s.workers| && !Blocked(s.workers[w])
  {
    var o := Least(s.unfinished);
    EarliestNotWaiting(s, o);
    if s.history.place[o].On? {
      assert !Blocked(s.workers[s.history.place[o].worker]);
    } else {
      assert s.ready[s.history.log[o].priority] != [] by {
        assert Lists(s.ready[s.history.log[o].priority], s.history.log[o].priority, s.history);
      }
      assert AnyReady(s.ready);
      assert SomeServer(s.workers) by {
        if s.accepting {
          var v :| 0 <= v < |s.workers| && !s.workers[v].control.Lapsed?;
          assert Serving(s.workers[v]);
        }
      }
      var w :| 0 <= w < |s.workers| && Serving(s.workers[w]);
      ServersAreNotBlocked(s, w);
    }
  }

  lemma ServersAreNotBlocked(s: Queue, w: nat)
    requires Inv(s) && w < |s.workers| && Serving(s.workers[w])
    ensures !Blocked(s.workers[w])
  {
    assert s.accepting ==> !InFinish(s.workers[w]);
    assert !s.accepting ==> Closing(s.workers[w]);
  }

  // ---- loops that lapse ----

  /** A worker that never has a timer on its loop does not lapse; so with one such worker the queue is
      never stuck. */
  lemma {:induction false} NoTimerNoLapse(run: seq<Queue>, steps: seq<Step>, i: nat, w: nat)
    requires IsRun(run, steps) && i < |run| && w < |run[i].workers|
    requires forall k :: 0 <= k < i ==> steps[k] != Installs(w)
    ensures Untimed(run[i], w)
  {
    RunLength(run, steps);
    if i == 0 {
      StartsWithoutTimers(run, steps, w);
    } else {
      Always(run, steps, i - 1);
      OneStep(run, steps, i - 1);
      hide IsRun, Inv;
      StepControls(run[i - 1], steps[i - 1]);
      NoTimerNoLapse(run, steps, i - 1, w);
    }
  }

  lemma StartsWithoutTimers(run: seq<Queue>, steps: seq<Step>, w: nat)
    requires IsRun(run, steps) && |run| > 0 && w < |run[0].workers|
    ensures Untimed(run[0], w)
  {
  }

  lemma OneStep(run: seq<Queue>, steps: seq<Step>, i: nat)
    requires IsRun(run, steps) && i < |steps|
    ensures i + 1 < |run| && Goes(run[i], steps[i], run[i + 1])
  {
    hide Goes;
  }

  /** The state in which every worker's loop has lapsed, however it was reached, stays so, and no task
      starts any more: with a task unfinished then, or accepted later, the queue is stuck. */
  lemma {:induction false} LapsedForGood(run: seq<Queue>, steps: seq<Step>, i: nat, j: nat)
    requires IsRun(run, steps) && i <= j < |run| && AllLapsed(run[i].workers)
    ensures AllLapsed(run[j].workers) && run[j].history.started == run[i].history.started
    decreases j - i
  {
    hide *;
    RunLength(run, steps);
    if i < j {
      LapsedForGood(run, steps, i, j - 1);
      Always(run, steps, j - 1);
      OneStep(run, steps, j - 1);
      StaysLapsed(run[j - 1], steps[j - 1], run[j]);
    }
  }

  lemma StaysLapsed(s: Queue, step: Step, t: Queue)
    requires Inv(s) && Goes(s, step, t) && AllLapsed(s.workers)
    ensures AllLapsed(t.workers) && t.history.started == s.history.started
  {
    hide Inv, Countable, Enabled, Apply;
    StepControls(s, step);
  }

  /** No timer on a worker's loop, which has not lapsed. */
  predicate Untimed(s: Queue, w: nat) {
    w < |s.workers| && w < |s.timers| && !s.workers[w].control.Lapsed? && s.timers[w] == 0
  }

  /** What a step may do to the loops: one lapses only with a timer on it, which only an install puts
      there, and where all have lapsed no task starts. */
  ghost predicate Controlled(s: Queue, step: Step, t: Queue) {
    && |t.workers| == |s.workers| && |t.timers| == |s.timers|
    && (forall w :: 0 <= w < |s.workers| && Untimed(s, w) && step != Installs(w) ==> Untimed(t, w))
    && (AllLapsed(s.workers) ==> AllLapsed(t.workers) && t.history.started == s.history.started)
  }

  predicate SameControls(s: Queue, t: Queue) {
    && |t.workers| == |s.workers| && t.timers == s.timers && t.history.started == s.history.started
    && forall w :: 0 <= w < |s.workers| ==> t.workers[w].control == s.workers[w].control
  }

  lemma SameIsControlled(s: Queue, step: Step, t: Queue)
    requires SameControls(s, t)
    ensures Controlled(s, step, t)
  {
  }

  lemma {:induction false} CountOffControls(s: Queue, orders: seq<nat>)
    requires Countable(s)
    ensures SameControls(s, CountOff(s, orders))
    decreases |orders|
  {
    if orders != [] {
      CountOffControls(CountOne(s, orders[0]), orders[1..]);
    }
  }

  lemma AcceptControls(s: Queue, priority: nat, after: seq<nat>, result: Option<nat>)
    requires Shape(s) && priority < PRIORITIES
    ensures SameControls(s, Accept(WithResult(s, result), priority, after, result))
  {
  }

  lemma CallControls(s: Queue, priority: int, after: seq<ResultRef>)
    requires Shape(s)
    ensures SameControls(s, Submit(s, priority, after).0) && SameControls(s, Enqueue(s, priority, after).0)
  {
    if NamesAPriority(priority) {
      AcceptControls(s, priority, Ids(after), None);
      AcceptControls(s, priority, Ids(after), Some(s.nextId));
    }
    hide Accept;
  }

  /** A worker that takes a step has not lapsed, and does not. */
  lemma OneControlled(s: Queue, w: nat, worker: Worker, t: Queue)
    requires w < |s.workers| && !s.workers[w].control.Lapsed? && !worker.control.Lapsed?
    requires t.workers == s.workers[w := worker] && t.timers == s.timers
    ensures Controlled(s, Works(w), t)
  {
  }

  lemma DoneControls(s: Queue, w: nat)
    requires Countable(s) && w < |s.workers| && s.workers[w].control.Ran?
    ensures Controlled(s, Works(w), Done(s, w))
  {
    var t := Retire(s, w);
    var orders := DependentsOf(s, s.workers[w].control.task.result);
    CountOffControls(t, orders);
    OneControlled(s, w, t.workers[w], t);
    hide CountOff, Countable;
  }

  lemma WorkControls(s: Queue, w: nat)
    requires Countable(s) && w < |s.workers| && !Blocked(s.workers[w])
    ensures Controlled(s, Works(w), Work(s, w))
  {
    if s.workers[w].control.Ran? {
      hide Controlled, Done, Countable;
      DoneControls(s, w);
    } else {
      var t := Work(s, w);
      assert t.workers == s.workers[w := t.workers[w]] && t.timers == s.timers && !t.workers[w].control.Lapsed?;
      hide Controlled, Work, Countable;
      OneControlled(s, w, t.workers[w], t);
    }
  }

  lemma StepControls(s: Queue, step: Step)
    requires Inv(s) && Countable(s) && Enabled(s, step)
    ensures Controlled(s, step, Apply(s, step))
  {
    assert Shape(s);
    hide Inv, Countable, Submit, Enqueue, Work, Controlled;
    match step
    case Submits(priority, after) =>
      CallControls(s, priority, after);
      SameIsControlled(s, step, Apply(s, step));
    case Enqueues(priority, after) =>
      CallControls(s, priority, after);
      SameIsControlled(s, step, Apply(s, step));
    case Works(w) => WorkControls(s, w);
    case Cancels(id) => SameIsControlled(s, step, Apply(s, step));
    case Stops => SameIsControlled(s, step, Apply(s, step));
    case Posts(w) => SameIsControlled(s, step, Apply(s, step));
    case TakesId => SameIsControlled(s, step, Apply(s, step));
    case _ => TimerControls(s, step);
  }

  lemma TimerControls(s: Queue, step: Step)
    requires Countable(s) && Enabled(s, step)
    requires step.Installs? || step.Removes? || step.Fires? || step.Lapses?
    ensures Controlled(s, step, Apply(s, step))
  {
    hide Countable;
  }

  /** A queue with a worker on whose loop no timer is ever installed is never stuck. */
  lemma NeverStuckWithoutTimers(run: seq<Queue>, steps: seq<Step>, i: nat, w: nat)
    requires IsRun(run, steps) && i < |run| && run[i].unfinished != {} && w < |run[i].workers|
    requires forall k :: 0 <= k < i ==> steps[k] != Installs(w)
    ensures exists v :: 0 <= v < |run[i].workers| && !Blocked(run[i].workers[v])
  {
    NoTimerNoLapse(run, steps, i, w);
    NeverStuck(run, steps, i);
  }

  /** A new queue of which the first n loops got a timer and lapsed. */
  function LapsedFirst(number: nat, workers: nat, nextId: nat, n: nat): Queue {
    Init(number, workers, nextId).(
      workers := seq(workers, w => Worker([], if w < n then Lapsed else Between, false)),
      timers := seq(workers, w => if w < n then 1 else 0))
  }

  lemma {:induction false} LapseFirst(number: nat, workers: nat, nextId: nat, n: nat)
    returns (run: seq<Queue>, steps: seq<Step>)
    requires workers > 0 && n <= workers
    ensures IsRun(run, steps) && |run| == |steps| + 1 && run[|steps|] == LapsedFirst(number, workers, nextId, n)
  {
    var s := LapsedFirst(number, workers, nextId, n);
    if n == 0 {
      run, steps := [s], [];
      assert s == Init(number, workers, nextId);
    } else {
      var w: nat := n - 1;
      run, steps := LapseFirst(number, workers, nextId, n - 1);
      var before := LapsedFirst(number, workers, nextId, n - 1);
      var timed := Install(before, w);
      assert WithControl(timed, w, Lapsed) == s;
      hide IsRun;
      run, steps := RunWith(run, steps, Installs(w));
      run, steps := RunWith(run, steps, Lapses(w));
    }
  }

  lemma RunWith(run: seq<Queue>, steps: seq<Step>, step: Step) returns (run': seq<Queue>, steps': seq<Step>)
    requires IsRun(run, steps) && |run| == |steps| + 1 && Enabled(run[|steps|], step)
    ensures Countable(run[|steps|]) && IsRun(run', steps')
    ensures |run'| == |steps'| + 1 && run'[|steps'|] == Apply(run[|steps|], step)
  {
    hide *;
    RunGoesOn(run, steps, step);
    run', steps' := run + [Apply(run[|steps|], step)], steps + [step];
  }

  /** Every queue, of any number of workers, can come to be stuck: each loop gets a timer and lapses, and a
      task is accepted that no worker will ever run. */
  lemma StuckRun(number: nat, workers: nat, nextId: nat) returns (run: seq<Queue>, steps: seq<Step>)
    requires workers > 0
    ensures IsRun(run, steps) && |run| == |steps| + 1
    ensures var last := run[|steps|];
      && last.accepting && last.unfinished == {0} && |last.workers| == workers
      && forall w :: 0 <= w < workers ==> Blocked(last.workers[w])
  {
    run, steps := LapseFirst(number, workers, nextId, workers);
    var s := LapsedFirst(number, workers, nextId, workers);
    assert AllLapsed(s.workers);
    AcceptsAll(s);
    hide IsRun;
    run, steps := RunWith(run, steps, Submits(1, []));
  }

  lemma AcceptsAll(s: Queue)
    requires Callable(s) && s.accepting && s.unfinished == {} && s.accepted == 0 && AllLapsed(s.workers)
    ensures Enabled(s, Submits(1, []))
    ensures var t := Submit(s, 1, []).0;
      t.accepting && t.unfinished == {0} && |t.workers| == |s.workers| && AllLapsed(t.workers)
  {
    assert Ids([]) == [];
  }

  lemma {:induction false} Least(orders: set<nat>) returns (o: nat)
    requires orders != {}
    ensures o in orders && forall x :: x in orders ==> o <= x
  {
    var y :| y in orders;
    var rest := orders - {y};
    if rest == {} {
      o := y;
      assert orders == {y};
    } else {
      var z := Least(rest);
      o := if y <= z then y else z;
      assert forall x :: x in orders ==> x == y || x in rest;
    }
  }

  /** A run whose workers have nothing left to do has finished or cancelled every task it
      accepted, unless every worker has lapsed; and once the queue has stopped, all of its workers
      have ended. */
  lemma QuietRunIsComplete(run: seq<Queue>, steps: seq<Step>, i: nat)
    requires IsRun(run, steps) && i < |run|
    requires forall w :: 0 <= w < |run[i].workers| ==> Blocked(run[i].workers[w])
    ensures !AllLapsed(run[i].workers) ==> forall o :: 0 <= o < run[i].accepted ==>
      o < |run[i].history.place| && (run[i].history.place[o].Finished? || run[i].history.place[o].Dropped?)
    ensures !run[i].accepting ==> forall w :: 0 <= w < |run[i].workers| ==> Gone(run[i].workers[w])
  {
    var s := run[i];
    Always(run, steps, i);
    if s.unfinished != {} && !AllLapsed(s.workers) {
      SomeoneCanStep(s);
    }
    if !AllLapsed(s.workers) {
      forall o | 0 <= o < s.accepted ensures s.history.place[o].Finished? || s.history.place[o].Dropped? {
        assert o !in s.unfinished;
      }
    }
    if !s.accepting {
      forall w | 0 <= w < |s.workers| ensures Gone(s.workers[w]) {
        assert Closing(s.workers[w]);
      }
    }
  }

  // ---- what a task runs after ----

  /** A waiting task's counter is never zero: it counts the results the task names that are not
      done yet, one named twice counted twice, and the order of the task is listed under each
      of these exactly as often as the task names it. Orders of tasks cancelled meanwhile may
      be listed too, and are counted for no one. */
  lemma RemainingIsExact(run: seq<Queue>, steps: seq<Step>, i: nat, o: nat)
    requires IsRun(run, steps) && i < |run| && o in run[i].waiting
    ensures o < |run[i].history.log|
    ensures run[i].waiting[o].remaining > 0
    ensures run[i].waiting[o].remaining == CountIn(run[i].history.log[o].after, run[i].dependents.Keys)
    ensures forall id :: id in run[i].dependents ==>
      multiset(run[i].dependents[id])[o] == multiset(run[i].history.log[o].after)[id]
    ensures forall id :: id in run[i].history.log[o].after && id !in run[i].dependents ==>
      id in run[i].results && run[i].results[id] == Returned
  {
    Always(run, steps, i);
    hide IsRun;
    WaitsFor(run[i], o);
    NamesReturned(run[i], o);
    hide Inv;
  }

  lemma WaitsFor(s: Queue, o: nat)
    requires Inv(s) && o in s.waiting
    ensures o < |s.history.log| && s.waiting[o].remaining > 0
    ensures s.waiting[o].remaining == CountIn(s.history.log[o].after, s.dependents.Keys)
    ensures forall id :: id in s.dependents ==> multiset(s.dependents[id])[o] == multiset(s.history.log[o].after)[id]
  {
    hide ReadyLists, WaitingTable, OnWorkers, Conserved, Owners, Results, Listing, Chains, Met, Served, Fifo, Starts;
  }

  lemma NamesReturned(s: Queue, o: nat)
    requires Inv(s) && o in s.waiting && o < |s.history.log|
    ensures forall id :: id in s.history.log[o].after && id !in s.dependents ==>
      id in s.results && s.results[id] == Returned
  {
    hide ReadyLists, OnWorkers, Conserved, Counted, Met, Served, Fifo, Starts;
    forall id | id in s.history.log[o].after && id !in s.dependents
      ensures id in s.results && s.results[id] == Returned
    {
      assert id in s.history.owner && s.history.owner[id] < |s.history.place|;
      assert s.results[id] == ResultAt(s.history.place[s.history.owner[id]], s.workers);
    }
  }

  /** The step that starts a task finds every result it runs after returned. */
  lemma StartsAfterAllReturned(run: seq<Queue>, steps: seq<Step>, i: nat, w: nat)
    requires IsRun(run, steps) && i < |steps|
    requires steps[i] == Works(w) && w < |run[i].workers| && run[i].workers[w].control.Taking?
    requires |run[i + 1].history.started| > |run[i].history.started|
    ensures var o := run[i + 1].history.started[|run[i].history.started|];
      && run[i + 1].history.started == run[i].history.started + [o]
      && o < |run[i].history.log|
      && forall id :: id in run[i].history.log[o].after ==> id in run[i].results && run[i].results[id] == Returned
  {
    var s := run[i];
    Always(run, steps, i);
    assert Goes(s, steps[i], run[i + 1]);
    var p, o := NextIs(s, w);
    assert Met(s.history, s.results);
  }

  /** A task that names a cancelled result has never started. */
  lemma CancelledNeverFollowed(run: seq<Queue>, steps: seq<Step>, i: nat, o: nat, id: nat)
    requires IsRun(run, steps) && i < |run|
    requires id in run[i].results && run[i].results[id] == Cancelled
    requires o < |run[i].history.log| && id in run[i].history.log[o].after
    ensures o !in run[i].history.started && o !in run[i].unfinished
  {
    Always(run, steps, i);
  }

  /** What one step does to results and to the log: a result that has left pending never
      changes, and what was accepted stays on record. */
  ghost predicate Grows(s: Queue, t: Queue) {
    && s.history.log <= t.history.log && s.history.started <= t.history.started
    && (forall id :: id in s.results ==>
          id in t.results && (s.results[id] != Pending ==> t.results[id] == s.results[id]))
  }

  lemma {:induction false} CountOffGrows(s: Queue, orders: seq<nat>)
    requires Countable(s)
    ensures var t := CountOff(s, orders);
      t.history.log == s.history.log && t.history.started == s.history.started && t.results == s.results
    decreases |orders|
  {
    if orders != [] {
      CountOffGrows(CountOne(s, orders[0]), orders[1..]);
    }
  }

  lemma DoneGrows(s: Queue, w: nat)
    requires Countable(s) && w < |s.workers| && s.workers[w].control.Ran?
    ensures Grows(s, Done(s, w))
  {
    CountOffGrows(Retire(s, w), DependentsOf(s, s.workers[w].control.task.result));
  }

  lemma WorkGrows(s: Queue, w: nat)
    requires Shape(s) && Countable(s) && w < |s.workers| && !Blocked(s.workers[w]) && !s.workers[w].control.Ran?
    ensures Grows(s, Work(s, w))
  {
  }

  lemma AcceptGrows(s: Queue, priority: nat, after: seq<nat>, result: Option<nat>)
    requires Shape(s) && priority < PRIORITIES && s.nextId !in s.results
    requires result.Some? ==> result.value == s.nextId
    ensures Grows(s, Accept(WithResult(s, result), priority, after, result))
  {
  }

  lemma SubmitGrows(s: Queue, priority: int, after: seq<ResultRef>)
    requires Shape(s) && s.nextId !in s.results
    ensures Grows(s, Submit(s, priority, after).0)
  {
    if NamesAPriority(priority) {
      AcceptGrows(s, priority, Ids(after), None);
    }
    hide Accept;
  }

  lemma EnqueueGrows(s: Queue, priority: int, after: seq<ResultRef>)
    requires Shape(s) && s.nextId !in s.results
    ensures Grows(s, Enqueue(s, priority, after).0)
  {
    if NamesAPriority(priority) {
      AcceptGrows(s, priority, Ids(after), Some(s.nextId));
    }
    hide Accept;
  }

  lemma StepGrows(s: Queue, step: Step)
    requires Inv(s) && Enabled(s, step)
    ensures Countable(s) && Grows(s, Apply(s, step))
  {
    hide Inv, Shape, Countable, Submit, Enqueue, Cancel, Work, Grows;
    InvBasics(s);
    match step
    case Submits(priority, after) => SubmitGrows(s, priority, after);
    case Enqueues(priority, after) => EnqueueGrows(s, priority, after);
    case Cancels(id) => CancelGrows(s, id);
    case Works(w) => WorkerGrows(s, w);
    case Stops => OthersGrow(s, Apply(s, step));
    case Posts(w) => OthersGrow(s, Apply(s, step));
    case Installs(w) => OthersGrow(s, Apply(s, step));
    case Removes(w) => OthersGrow(s, Apply(s, step));
    case Fires(w, _) => OthersGrow(s, Apply(s, step));
    case Lapses(w) => OthersGrow(s, Apply(s, step));
    case TakesId => OthersGrow(s, Apply(s, step));
  }

  lemma InvBasics(s: Queue)
    requires Inv(s)
    ensures Shape(s) && Countable(s) && s.nextId !in s.results
  {
    InvCountable(s);
    NextIdIsNew(s);
    hide Shape, Countable;
  }

  lemma OthersGrow(s: Queue, t: Queue)
    requires s.history == t.history && s.results == t.results
    ensures Grows(s, t)
  {
  }

  lemma WorkerGrows(s: Queue, w: nat)
    requires Shape(s) && Countable(s) && w < |s.workers| && !Blocked(s.workers[w])
    ensures Grows(s, Work(s, w))
  {
    hide Grows, Done, Shape, Countable;
    if s.workers[w].control.Ran? {
      DoneGrows(s, w);
    } else {
      WorkGrows(s, w);
    }
  }

  lemma CancelGrows(s: Queue, id: nat)
    requires Inv(s)
    ensures Grows(s, Cancel(s, id))
  {
    if Cancellable(s, id) {
      GonePending(s, id);
    }
    hide Inv, Cancellable, Closure, IdsOf;
  }

  /** Every result a cancel reaches is still pending. */
  lemma GonePending(s: Queue, id: nat)
    requires Inv(s) && Cancellable(s, id)
    ensures forall i :: i in IdsOf(s, Closure(s, s.history.owner[id])) ==> i in s.results && s.results[i] == Pending
  {
    var root := s.history.owner[id];
    assert Shape(s) && Owners(s.history, s.results, s.nextId) && Results(s.history, s.results, s.workers);
    hide Inv, Reaches;
    forall i | i in IdsOf(s, Closure(s, root)) ensures i in s.results && s.results[i] == Pending {
      ClosurePlaces(s, root, s.history.owner[i]);
    }
  }

  lemma OneGrows(run: seq<Queue>, steps: seq<Step>, i: nat)
    requires IsRun(run, steps) && i < |steps|
    ensures Grows(run[i], run[i + 1])
  {
    Always(run, steps, i);
    assert Goes(run[i], steps[i], run[i + 1]);
    StepGrows(run[i], steps[i]);
  }

  lemma {:induction false} RunGrows(run: seq<Queue>, steps: seq<Step>, i: nat, j: nat)
    requires IsRun(run, steps) && i <= j < |run|
    ensures Grows(run[i], run[j])
    decreases j - i
  {
    hide *;
    if i < j {
      RunLength(run, steps);
      RunGrows(run, steps, i, j - 1);
      OneGrows(run, steps, j - 1);
      GrowsTwice(run[i], run[j - 1], run[j]);
    } else {
      GrowsNone(run[i]);
    }
  }

  lemma GrowsTwice(s: Queue, t: Queue, u: Queue)
    requires Grows(s, t) && Grows(t, u)
    ensures Grows(s, u)
  {
  }

  lemma GrowsNone(s: Queue)
    ensures Grows(s, s)
  {
  }

  /** Once a result is cancelled, no task that names it ever starts, in that state or later. */
  lemma CancelIsForGood(run: seq<Queue>, steps: seq<Step>, i: nat, j: nat, o: nat, id: nat)
    requires IsRun(run, steps) && i <= j < |run|
    requires id in run[i].results && run[i].results[id] == Cancelled
    requires o < |run[j].history.log| && id in run[j].history.log[o].after
    ensures o !in run[j].history.started && o !in run[j].unfinished
  {
    RunGrows(run, steps, i, j);
    CancelledNeverFollowed(run, steps, j, o, id);
  }

  /** The tasks a cancel takes are the least set that holds the task it names and every task
      waiting to run after one of them. */
  lemma ClosureIsLeast(s: Queue, root: nat, others: set<nat>)
    requires Inv(s) && root < s.accepted && root in others
    requires forall a, b :: a in others && RunsAfter(s, a, b) ==> b in others
    ensures root in Closure(s, root)
    ensures forall a, b :: a in Closure(s, root) && RunsAfter(s, a, b) ==> b in Closure(s, root)
    ensures Closure(s, root) <= others
  {
    forall a, b | a in Closure(s, root) && RunsAfter(s, a, b) ensures b in Closure(s, root) {
      ClosureStep(s, root, s.history.log[a].result.value, b);
    }
    forall b | b in Closure(s, root) ensures b in others {
      ReachedIsIn(s, root, b, others);
    }
  }

  lemma {:induction false} ReachedIsIn(s: Queue, a: nat, b: nat, others: set<nat>)
    requires Reaches(s, a, b) && a in others
    requires forall x, y :: x in others && RunsAfter(s, x, y) ==> y in others
    ensures b in others
    decreases b
  {
    if a != b {
      var m :| a <= m < b && Reaches(s, a, m) && RunsAfter(s, m, b);
      ReachedIsIn(s, a, m, others);
    }
  }

  // ---- conservation ----

  ghost function ReadyOrders(s: Queue): set<nat> {
    set p, i | 0 <= p < |s.ready| && 0 <= i < |s.ready[p]| :: s.ready[p][i].order
  }

  ghost function RunningOrders(s: Queue): set<nat> {
    set w | 0 <= w < |s.workers| && Busy(s.workers[w].control) :: s.workers[w].control.task.order
  }

  /** The unfinished tasks are the ready, the waiting and the running ones, and no task is two
      of these; every other accepted task was either run to its end or cancelled, never both. */
  lemma EveryTaskIsSomewhere(run: seq<Queue>, steps: seq<Step>, i: nat)
    requires IsRun(run, steps) && i < |run|
    ensures run[i].unfinished == ReadyOrders(run[i]) + run[i].waiting.Keys + RunningOrders(run[i])
    ensures ReadyOrders(run[i]) !! run[i].waiting.Keys !! RunningOrders(run[i])
    ensures forall o :: 0 <= o < run[i].accepted && o !in run[i].unfinished ==>
      o < |run[i].history.place| &&
      (if o in run[i].history.started then run[i].history.place[o].Finished? else run[i].history.place[o].Dropped?)
    ensures forall k, l :: 0 <= k < l < |run[i].history.started| ==>
      run[i].history.started[k] != run[i].history.started[l]
  {
    hide Owners, Results, Listing, Chains, Counted, Met, Served, Fifo;
    var s := run[i];
    Always(run, steps, i);
    forall o | o in ReadyOrders(s) ensures o < s.accepted && s.history.place[o].Ready? {
      var p, j :| 0 <= p < |s.ready| && 0 <= j < |s.ready[p]| && s.ready[p][j].order == o;
      assert Lists(s.ready[p], p, s.history);
    }
    forall o | 0 <= o < s.accepted && s.history.place[o].Ready? ensures o in ReadyOrders(s) {
      var p := s.history.log[o].priority;
      assert Lists(s.ready[p], p, s.history);
      var j :| 0 <= j < |s.ready[p]| && s.ready[p][j] == EntryOf(s.history.log, o);
    }
    forall o | 0 <= o < s.accepted && s.history.place[o].On? ensures o in RunningOrders(s) {
      var w := s.history.place[o].worker;
      assert Busy(s.workers[w].control);
    }
  }

  /** A task's result is still pending when the task returns, so a cancel has not filled it in. */
  lemma PendingWhenReturned(run: seq<Queue>, steps: seq<Step>, i: nat, w: nat, id: nat)
    requires IsRun(run, steps) && i < |run| && w < |run[i].workers|
    requires run[i].workers[w].control.Running? && run[i].workers[w].control.task.result == Some(id)
    ensures id in run[i].results && run[i].results[id] == Pending
  {
    Always(run, steps, i);
  }

  /** Every result a cancel marks is still pending, so no task has filled it in. */
  lemma PendingWhenCancelled(run: seq<Queue>, steps: seq<Step>, i: nat, id: nat, other: nat)
    requires IsRun(run, steps) && i < |run| && Cancellable(run[i], id)
    requires other in IdsOf(run[i], Closure(run[i], run[i].history.owner[id]))
    ensures other in run[i].results && run[i].results[other] == Pending
  {
    Always(run, steps, i);
    ClosurePlaces(run[i], run[i].history.owner[id], run[i].history.owner[other]);
  }

  // ---- wait_for() ----

  lemma {:induction false} CountOffSettles(s: Queue, orders: seq<nat>)
    requires Countable(s)
    ensures CountOff(s, orders).unfinished == s.unfinished && CountOff(s, orders).accepted == s.accepted
    decreases |orders|
  {
    if orders != [] {
      CountOffSettles(CountOne(s, orders[0]), orders[1..]);
    }
  }

  lemma AcceptSettles(s: Queue, priority: nat, after: seq<nat>, result: Option<nat>, target: nat)
    requires Shape(s) && priority < PRIORITIES && target <= s.accepted && Settled(s, target)
    ensures var t := Accept(WithResult(s, result), priority, after, result);
      Settled(t, target) && s.accepted <= t.accepted
  {
  }

  lemma WorkSettles(s: Queue, w: nat, target: nat)
    requires Countable(s) && w < |s.workers| && !Blocked(s.workers[w]) && target <= s.accepted && Settled(s, target)
    ensures Settled(Work(s, w), target) && s.accepted <= Work(s, w).accepted
  {
    if s.workers[w].control.Ran? {
      CountOffSettles(Retire(s, w), DependentsOf(s, s.workers[w].control.task.result));
    }
    hide CountOff;
  }

  lemma CallSettles(s: Queue, priority: int, after: seq<ResultRef>, target: nat)
    requires Shape(s) && target <= s.accepted && Settled(s, target)
    ensures Settled(Submit(s, priority, after).0, target) && s.accepted <= Submit(s, priority, after).0.accepted
    ensures Settled(Enqueue(s, priority, after).0, target) && s.accepted <= Enqueue(s, priority, after).0.accepted
  {
    if NamesAPriority(priority) {
      AcceptSettles(s, priority, Ids(after), None, target);
      AcceptSettles(s, priority, Ids(after), Some(s.nextId), target);
    }
    hide Accept;
  }

  lemma StepSettles(s: Queue, step: Step, target: nat)
    requires Shape(s) && Countable(s) && Enabled(s, step) && target <= s.accepted && Settled(s, target)
    ensures Settled(Apply(s, step), target) && s.accepted <= Apply(s, step).accepted
  {
    hide Countable, Submit, Enqueue, Work;
    match step
    case Submits(priority, after) => CallSettles(s, priority, after, target);
    case Enqueues(priority, after) => CallSettles(s, priority, after, target);
    case Works(w) => WorkSettles(s, w, target);
    case _ =>
  }

  lemma OneSettles(run: seq<Queue>, steps: seq<Step>, i: nat, target: nat)
    requires IsRun(run, steps) && i < |steps| && target <= run[i].accepted && Settled(run[i], target)
    ensures target <= run[i + 1].accepted && Settled(run[i + 1], target)
  {
    Always(run, steps, i);
    assert Goes(run[i], steps[i], run[i + 1]);
    StepSettles(run[i], steps[i], target);
  }

  /** Once every task accepted before the call has settled, it stays so whatever happens. */
  lemma {:induction false} SettledStays(run: seq<Queue>, steps: seq<Step>, i: nat, j: nat, target: nat)
    requires IsRun(run, steps) && i <= j < |run|
    requires target <= run[i].accepted && Settled(run[i], target)
    ensures target <= run[j].accepted && Settled(run[j], target)
    decreases j - i
  {
    if i < j {
      SettledStays(run, steps, i, j - 1, target);
      OneSettles(run, steps, j - 1, target);
    }
  }

  // ---- priority and order ----

  /** The task a worker starts has the highest priority of all that are ready. */
  lemma HighestPriorityStarts(run: seq<Queue>, steps: seq<Step>, i: nat, w: nat, other: nat)
    requires IsRun(run, steps) && i < |steps|
    requires steps[i] == Works(w) && w < |run[i].workers| && run[i].workers[w].control.Taking?
    requires other in ReadyOrders(run[i])
    ensures run[i + 1].workers[w].control.Running?
    ensures var o := run[i + 1].workers[w].control.task.order;
      o < |run[i].history.log| && other < |run[i].history.log|
      && run[i].history.log[other].priority <= run[i].history.log[o].priority
  {
    hide WaitingTable, OnWorkers, Conserved, Owners, Results, Listing, Chains, Counted, Met, Served, Fifo, Starts;
    var s := run[i];
    Always(run, steps, i);
    assert Goes(s, steps[i], run[i + 1]);
    var q, j :| 0 <= q < |s.ready| && 0 <= j < |s.ready[q]| && s.ready[q][j].order == other;
    assert Lists(s.ready[q], q, s.history);
    assert s.ready[q] != [];
    var p, o := NextIs(s, w);
  }

  lemma ListedAfter(log: seq<Task>, p: nat, started: seq<nat>, list: seq<Entry>, k: nat, j: nat)
    requires Ascending(log, p, started + Orders(list)) && k < |started| && j < |list|
    requires Direct(log, started[k], p) && Direct(log, list[j].order, p)
    ensures started[k] < list[j].order
  {
    var line := started + Orders(list);
    assert line[k] == started[k] && line[|started| + j] == list[j].order;
  }

  /** Of two tasks of one priority that waited for nothing, the one accepted first starts
      first, unless it is cancelled. */
  lemma FirstAcceptedStartsFirst(run: seq<Queue>, steps: seq<Step>, i: nat, a: nat, b: nat, k: nat)
    requires IsRun(run, steps) && i < |run|
    requires a < b < |run[i].history.log|
    requires run[i].history.log[a].priority == run[i].history.log[b].priority
    requires run[i].history.log[a].direct && run[i].history.log[b].direct
    requires k < |run[i].history.started| && run[i].history.started[k] == b
    requires a < |run[i].history.place| && run[i].history.place[a] != Dropped
    ensures exists j :: 0 <= j < k && run[i].history.started[j] == a
  {
    var s := run[i];
    Always(run, steps, i);
    var p := s.history.log[a].priority;
    var line := s.history.started + Orders(s.ready[p]);
    assert Ascending(s.history.log, p, line);
    assert line[k] == b && Direct(s.history.log, b, p) && Direct(s.history.log, a, p);
    if s.history.place[a].Ready? {
      assert Lists(s.ready[p], p, s.history);
      var j :| 0 <= j < |s.ready[p]| && s.ready[p][j] == EntryOf(s.history.log, a);
      ListedAfter(s.history.log, p, s.history.started, s.ready[p], k, j);
      assert false;
    } else {
      assert a in s.history.started;
      var j :| 0 <= j < |s.history.started| && s.history.started[j] == a;
      assert line[j] == a;
    }
  }
}
