/** The run loop of src/thread/runloop.cpp: queued tasks, timer passes, and what one call may run. */
module RunLoopClass {
  import opened Wrappers
  import opened Deadline
  import opened Timers

  /** A queued task and its place in the order tasks were posted. */
  datatype Queued = Queued(sequence: nat, task: nat)

  /** The boundary of a pass over the timers, and the ids already taken in it. */
  datatype Pass = Pass(boundary: int, handled: seq<nat>)

  datatype Work = Fire(slot: Slot) | Run(entry: Queued)

  /** What a running call on the loop's own thread decides by. */
  datatype Loop = Loop(pending: seq<Queued>, slots: seq<Slot>, pass: Pass)

  /** What running calls do, and other threads and the running task between two of these. */
  datatype Move =
    | Fires(at: int)
    | Runs(now: int)
    | Refreshes(now: int)
    | Posted(entry: Queued)
    | Dropped(id: nat)
    | Installed(slot: Slot)
    | Cleared
    | Quits

  function Due1(l: Loop): int {
    Pick(l.slots, l.pass.boundary, l.pass.handled)
  }

  /** A due timer goes before a task, and the pass ends only with a task or with nothing to do. */
  predicate CanMove(l: Loop, m: Move) {
    match m
    case Fires(_) => Due1(l) >= 0
    case Runs(_) => Due1(l) == -1 && l.pending != []
    case Refreshes(_) => Due1(l) == -1 && l.pending == []
    case _ => true
  }

  function Moved(l: Loop, m: Move): Loop
    requires CanMove(l, m)
  {
    match m
    case Fires(at) =>
      var i := Due1(l);
      Loop(l.pending, AfterClaim(l.slots, i, at), l.pass.(handled := l.pass.handled + [l.slots[i].id]))
    case Runs(now) => Loop(l.pending[1..], l.slots, if l.slots != [] then Pass(now, []) else l.pass)
    case Refreshes(now) => l.(pass := Pass(now, []))
    case Posted(entry) => l.(pending := l.pending + [entry])
    case Dropped(id) =>
      var i := IndexOf(l.slots, id); if i == |l.slots| then l else l.(slots := Without(l.slots, i))
    case Installed(slot) => l.(slots := l.slots + [slot])
    case Cleared => l.(pending := [])
    case Quits => l
  }

  predicate IsRun(l: Loop, moves: seq<Move>)
    decreases moves
  {
    moves == [] || (CanMove(l, moves[0]) && IsRun(Moved(l, moves[0]), moves[1..]))
  }

  /** Where the moves of a run lead. */
  function AfterMoves(l: Loop, moves: seq<Move>): Loop
    requires IsRun(l, moves)
    decreases moves
  {
    if moves == [] then l else AfterMoves(Moved(l, moves[0]), moves[1..])
  }

  predicate Leads(l: Loop, moves: seq<Move>, next: Loop) {
    IsRun(l, moves) && AfterMoves(l, moves) == next
  }

  /** The work that some moves take: a task, or a timer due in this pass, or one due in a new pass. */
  predicate Takes(l: Loop, moves: seq<Move>, work: Work) {
    match work
    case Run(entry) => |moves| == 1 && moves[0].Runs? && CanMove(l, moves[0]) && entry == l.pending[0]
    case Fire(slot) =>
      if |moves| == 1 then moves[0].Fires? && CanMove(l, moves[0]) && slot == l.slots[Due1(l)]
      else
        && |moves| == 2 && moves[0].Refreshes? && CanMove(l, moves[0])
        && var renewed := Moved(l, moves[0]);
           moves[1].Fires? && CanMove(renewed, moves[1]) && slot == renewed.slots[Due1(renewed)]
  }

  function TimerFires(moves: seq<Move>): nat {
    if moves == [] then 0 else (if moves[0].Fires? then 1 else 0) + TimerFires(moves[1..])
  }

  function TasksRun(moves: seq<Move>): nat {
    if moves == [] then 0 else (if moves[0].Runs? then 1 else 0) + TasksRun(moves[1..])
  }

  /** The timers that are installed in a run, and the tasks that are posted. */
  function NewTimers(moves: seq<Move>): seq<Slot> {
    if moves == [] then [] else (if moves[0].Installed? then [moves[0].slot] else []) + NewTimers(moves[1..])
  }

  function NewTasks(moves: seq<Move>): seq<Queued> {
    if moves == [] then [] else (if moves[0].Posted? then [moves[0].entry] else []) + NewTasks(moves[1..])
  }

  predicate NoneCleared(moves: seq<Move>) {
    forall i :: 0 <= i < |moves| ==> !moves[i].Cleared?
  }

  predicate Asked(moves: seq<Move>) {
    exists i :: 0 <= i < |moves| && moves[i].Quits?
  }

  lemma AskedAdd(a: seq<Move>, b: seq<Move>)
    ensures Asked(a + b) <==> Asked(a) || Asked(b)
  {
    if Asked(a) {
      var i :| 0 <= i < |a| && a[i].Quits?;
      assert (a + b)[i].Quits?;
    }
    if Asked(b) {
      var i :| 0 <= i < |b| && b[i].Quits?;
      assert (a + b)[|a| + i].Quits?;
    }
  }

  lemma {:induction false} LeadsOn(l: Loop, a: seq<Move>, next: Loop, b: seq<Move>, last: Loop)
    requires Leads(l, a, next) && Leads(next, b, last)
    ensures Leads(l, a + b, last)
    decreases a
  {
    hide CanMove, Moved;
    if a == [] {
      assert a + b == b;
    } else {
      assert (a + b)[0] == a[0] && (a + b)[1..] == a[1..] + b;
      LeadsOn(Moved(l, a[0]), a[1..], next, b, last);
    }
  }

  lemma {:induction false} FiresAdd(a: seq<Move>, b: seq<Move>)
    ensures TimerFires(a + b) == TimerFires(a) + TimerFires(b)
  {
    if a == [] {
      assert a + b == b;
    } else {
      assert (a + b)[0] == a[0] && (a + b)[1..] == a[1..] + b;
      FiresAdd(a[1..], b);
    }
  }

  lemma {:induction false} RunsAdd(a: seq<Move>, b: seq<Move>)
    ensures TasksRun(a + b) == TasksRun(a) + TasksRun(b)
  {
    if a == [] {
      assert a + b == b;
    } else {
      assert (a + b)[0] == a[0] && (a + b)[1..] == a[1..] + b;
      RunsAdd(a[1..], b);
    }
  }

  lemma {:induction false} TimersAdd(a: seq<Move>, b: seq<Move>)
    ensures NewTimers(a + b) == NewTimers(a) + NewTimers(b)
  {
    if a == [] {
      assert a + b == b;
    } else {
      assert (a + b)[0] == a[0] && (a + b)[1..] == a[1..] + b;
      TimersAdd(a[1..], b);
    }
  }

  lemma {:induction false} TasksAdd(a: seq<Move>, b: seq<Move>)
    ensures NewTasks(a + b) == NewTasks(a) + NewTasks(b)
  {
    if a == [] {
      assert a + b == b;
    } else {
      assert (a + b)[0] == a[0] && (a + b)[1..] == a[1..] + b;
      TasksAdd(a[1..], b);
    }
  }

  lemma CountsAdd(a: seq<Move>, b: seq<Move>)
    ensures TimerFires(a + b) == TimerFires(a) + TimerFires(b) && TasksRun(a + b) == TasksRun(a) + TasksRun(b)
    ensures NewTimers(a + b) == NewTimers(a) + NewTimers(b) && NewTasks(a + b) == NewTasks(a) + NewTasks(b)
    ensures NoneCleared(a + b) <==> NoneCleared(a) && NoneCleared(b)
  {
    hide *;
    FiresAdd(a, b);
    RunsAdd(a, b);
    TimersAdd(a, b);
    TasksAdd(a, b);
    ClearedAdd(a, b);
  }

  lemma ClearedAdd(a: seq<Move>, b: seq<Move>)
    ensures NoneCleared(a + b) <==> NoneCleared(a) && NoneCleared(b)
  {
    assert forall i :: 0 <= i < |a| ==> (a + b)[i] == a[i];
    assert forall i :: 0 <= i < |b| ==> (a + b)[|a| + i] == b[i];
  }

  /** How many installed timers a pass has not taken yet. */
  function Unhandled(slots: seq<Slot>, handled: seq<nat>): (n: nat)
    ensures n <= |slots|
  {
    if slots == [] then 0 else (if slots[0].id in handled then 0 else 1) + Unhandled(slots[1..], handled)
  }

  lemma {:induction false} UnhandledConcat(a: seq<Slot>, b: seq<Slot>, handled: seq<nat>)
    ensures Unhandled(a + b, handled) == Unhandled(a, handled) + Unhandled(b, handled)
  {
    if a == [] {
      assert a + b == b;
    } else {
      assert (a + b)[0] == a[0] && (a + b)[1..] == a[1..] + b;
      UnhandledConcat(a[1..], b, handled);
    }
  }

  lemma {:induction false} MoreHandled(slots: seq<Slot>, handled: seq<nat>, id: nat)
    ensures Unhandled(slots, handled + [id]) <= Unhandled(slots, handled)
  {
    if slots != [] {
      MoreHandled(slots[1..], handled, id);
    }
  }

  lemma Around(slots: seq<Slot>, i: nat, handled: seq<nat>)
    requires i < |slots|
    ensures Unhandled(slots, handled) == Unhandled(slots[..i], handled)
                                         + (if slots[i].id in handled then 0 else 1) + Unhandled(slots[i + 1..], handled)
  {
    assert slots == slots[..i] + ([slots[i]] + slots[i + 1..]);
    UnhandledConcat(slots[..i], [slots[i]] + slots[i + 1..], handled);
    assert ([slots[i]] + slots[i + 1..])[1..] == slots[i + 1..];
  }

  /** A claim leaves fewer timers to take. */
  lemma ClaimHandles(slots: seq<Slot>, i: nat, at: int, handled: seq<nat>)
    requires i < |slots| && slots[i].id !in handled
    ensures Unhandled(AfterClaim(slots, i, at), handled + [slots[i].id]) < Unhandled(slots, handled)
    ensures |AfterClaim(slots, i, at)| <= |slots|
  {
    var now := handled + [slots[i].id];
    Around(slots, i, handled);
    MoreHandled(slots[..i], handled, slots[i].id);
    MoreHandled(slots[i + 1..], handled, slots[i].id);
    if slots[i].repeats {
      var after := AfterClaim(slots, i, at);
      assert after[..i] == slots[..i] && after[i + 1..] == slots[i + 1..];
      Around(after, i, now);
    } else {
      UnhandledConcat(slots[..i], slots[i + 1..], now);
    }
  }

  lemma WithoutHandles(slots: seq<Slot>, i: nat, handled: seq<nat>)
    requires i < |slots|
    ensures Unhandled(Without(slots, i), handled) <= Unhandled(slots, handled)
  {
    Around(slots, i, handled);
    UnhandledConcat(slots[..i], slots[i + 1..], handled);
  }

  /** The most timers that can fire before so many tasks have run and a pass is over. */
  function Bound(l: Loop, tasks: nat): nat {
    Unhandled(l.slots, l.pass.handled) + tasks * |l.slots|
  }

  lemma MoveCosts(l: Loop, m: Move, tasks: nat)
    requires CanMove(l, m) && l.pending != [] && !m.Cleared?
    ensures !m.Runs? && !m.Installed? ==> (if m.Fires? then 1 else 0) + Bound(Moved(l, m), tasks) <= Bound(l, tasks)
    ensures m.Runs? ==> Bound(Moved(l, m), tasks) <= Bound(l, tasks + 1)
    ensures m.Installed? ==> Bound(Moved(l, m), tasks) <= Bound(l, tasks) + tasks + 1
    ensures |Moved(l, m).pending| >= |l.pending| - if m.Runs? then 1 else 0
  {
    hide Unhandled;
    match m {
      case Fires(at) =>
        ClaimHandles(l.slots, Due1(l), at, l.pass.handled);
        Smaller(tasks, |Moved(l, m).slots|, |l.slots|);
      case Runs(_) =>
        assert (tasks + 1) * |l.slots| == tasks * |l.slots| + |l.slots|;
      case Refreshes(_) =>
      case Posted(_) =>
      case Dropped(id) =>
        if IndexOf(l.slots, id) < |l.slots| {
          WithoutHandles(l.slots, IndexOf(l.slots, id), l.pass.handled);
          Smaller(tasks, |Moved(l, m).slots|, |l.slots|);
        }
      case Installed(slot) =>
        UnhandledConcat(l.slots, [slot], l.pass.handled);
        assert Unhandled([slot], l.pass.handled) <= 1;
        assert tasks * (|l.slots| + 1) == tasks * |l.slots| + tasks;
      case Quits =>
    }
  }

  /** The same, with so many more timers installed meanwhile. */
  function Allowed(l: Loop, tasks: nat, timers: nat): nat {
    Bound(l, tasks) + timers * (tasks + 1)
  }

  lemma MoveAllows(l: Loop, m: Move, tasks: nat, timers: nat)
    requires CanMove(l, m) && l.pending != [] && !m.Cleared?
    ensures !m.Runs? && !m.Installed? ==>
              (if m.Fires? then 1 else 0) + Allowed(Moved(l, m), tasks, timers) <= Allowed(l, tasks, timers)
    ensures m.Runs? ==> Allowed(Moved(l, m), tasks, timers) <= Allowed(l, tasks + 1, timers)
    ensures m.Installed? ==> Allowed(Moved(l, m), tasks, timers) <= Allowed(l, tasks, timers + 1)
    ensures |Moved(l, m).pending| >= |l.pending| - if m.Runs? then 1 else 0
  {
    hide Bound, Moved, CanMove;
    MoveCosts(l, m, tasks);
    assert timers * (tasks + 2) == timers * (tasks + 1) + timers;
    assert (timers + 1) * (tasks + 1) == timers * (tasks + 1) + tasks + 1;
  }

  /** While a task is queued, no more timers fire before it than are installed for each task up to it,
      however often they are due again; a timer installed meanwhile counts as often. */
  lemma {:induction false} BoundedBypass(l: Loop, moves: seq<Move>, j: nat)
    requires IsRun(l, moves) && NoneCleared(moves) && j < |l.pending| && TasksRun(moves) <= j
    ensures TimerFires(moves) <= Allowed(l, TasksRun(moves), |NewTimers(moves)|)
    decreases moves
  {
    if moves != [] {
      hide Allowed, Moved, CanMove;
      MoveAllows(l, moves[0], TasksRun(moves[1..]), |NewTimers(moves[1..])|);
      BoundedBypass(Moved(l, moves[0]), moves[1..], if moves[0].Runs? then j - 1 else j);
    }
  }

  lemma Smaller(n: nat, a: nat, b: nat)
    requires a <= b
    ensures n * a <= n * b
  {
  }

  /** The front task waits for at most as many timer fires as there are timers, those installed while it
      waits among them. */
  lemma FrontTaskWaits(l: Loop, moves: seq<Move>)
    requires IsRun(l, moves) && NoneCleared(moves) && l.pending != [] && TasksRun(moves) == 0
    ensures TimerFires(moves) <= |l.slots| + |NewTimers(moves)|
  {
    hide IsRun, TimerFires, TasksRun, NewTimers, NoneCleared, Unhandled;
    BoundedBypass(l, moves, 0);
  }

  // ---- one look for work ----

  /** The clock as next() reads it: when it begins a new pass, and before it decides to wait. */
  datatype Reads = Reads(renewed: int, current: int)

  /** What a look gives: work, a time to wait until, or nothing, at which run() ends. */
  datatype Found = Took(work: Work) | Rest(until: int) | Nothing

  /** The loop's state with a new pass, which a loop without timers does not begin. */
  function Renewed(l: Loop, now: int): Loop {
    if l.slots != [] then l.(pass := Pass(now, [])) else l
  }

  /** next(), by what it reads. */
  function Look(l: Loop, quitting: bool, deadline: int, times: Reads): Found {
    if quitting then Nothing
    else if Due1(l) >= 0 then Took(Fire(l.slots[Due1(l)]))
    else if l.pending != [] then Took(Run(l.pending[0]))
    else
      var now := Renewed(l, times.renewed);
      if Due1(now) >= 0 then Took(Fire(l.slots[Due1(now)]))
      else
        var until := Min(deadline, EarliestOf(l.slots));
        if until <= times.current then Nothing else Rest(until)
  }

  /** A look before a new pass. */
  lemma LooksFirst(l: Loop, deadline: int, times: Reads)
    ensures Look(l, true, deadline, times) == Nothing
    ensures Due1(l) >= 0 ==> Look(l, false, deadline, times) == Took(Fire(l.slots[Due1(l)]))
    ensures Due1(l) < 0 && l.pending != [] ==> Look(l, false, deadline, times) == Took(Run(l.pending[0]))
  {
  }

  /** A look in the new pass, if there is one. */
  lemma LooksAgain(l: Loop, now: Loop, deadline: int, times: Reads)
    requires Due1(l) < 0 && l.pending == [] && now == Renewed(l, times.renewed)
    ensures Due1(now) >= 0 ==> Look(l, false, deadline, times) == Took(Fire(l.slots[Due1(now)]))
    ensures Due1(now) < 0 ==>
              var until := Min(deadline, EarliestOf(l.slots));
              Look(l, false, deadline, times) == if until <= times.current then Nothing else Rest(until)
  {
  }

  /** A look finds nothing, and run() ends, exactly when it was told to quit, or nothing is queued and no
      timer is due at the first read, but at the second the deadline has passed or some timer is due. */
  lemma EndsExactly(l: Loop, quitting: bool, deadline: int, times: Reads)
    requires l.pass.boundary <= times.renewed <= times.current < MAX_TIME
    ensures Look(l, quitting, deadline, times) == Nothing
            <==> quitting
                 || (&& l.pending == [] && (forall s :: s in l.slots ==> s.deadline > times.renewed)
                     && (deadline <= times.current || exists s :: s in l.slots && s.deadline <= times.current))
  {
    var now := Renewed(l, times.renewed);
    if Due1(now) == -1 && l.slots != [] {
      forall s | s in l.slots ensures s.deadline > times.renewed {
        assert !IsCandidate(s, times.renewed, []);
      }
    }
  }

  /** run() of a loop without timers ends only when it is told to, as documented. */
  lemma WithoutTimersOnlyQuitEnds(l: Loop, quitting: bool, times: Reads)
    requires l.slots == [] && l.pass.boundary <= times.renewed <= times.current < MAX_TIME
    ensures Look(l, quitting, MAX_TIME, times) == Nothing <==> quitting
  {
    EndsExactly(l, quitting, MAX_TIME, times);
  }

  /** With a timer it can end although nothing told it to: the clock reaches the timer's deadline between
      the two reads. Either read alone would fire the timer or wait for it. */
  lemma EndsBetweenReads(which: Slot, boundary: int)
    requires boundary < which.deadline < MAX_TIME
    ensures var l, d := Loop([], [which], Pass(boundary, [])), which.deadline;
      && Look(l, false, MAX_TIME, Reads(d - 1, d)) == Nothing
      && Look(l, false, MAX_TIME, Reads(d, d)) == Took(Fire(which))
      && Look(l, false, MAX_TIME, Reads(d - 1, d - 1)) == Rest(d)
  {
    var l, d := Loop([], [which], Pass(boundary, [])), which.deadline;
    assert which in l.slots && EarliestOf(l.slots) == d;
    assert !IsCandidate(l.slots[0], d - 1, []) && IsCandidate(l.slots[0], d, []);
  }

  /** What a look found is what it returned. */
  predicate FoundIs(found: Found, work: Option<Work>, waitUntil: Option<int>) {
    match found
    case Took(w) => work == Some(w) && waitUntil == None
    case Rest(until) => work == None && waitUntil == Some(until)
    case Nothing => work == None && waitUntil == None
  }

  /** Why a running call ended; a call may also be left off while it runs. */
  datatype End = LeftOff | QuitSeen | DeadlinePassed | BetweenReads(times: Reads)

  function WhyEnded(quitting: bool, deadline: int, times: Reads): End {
    if quitting then QuitSeen else if deadline <= times.current then DeadlinePassed else BetweenReads(times)
  }

  /** Without timers no run has any. */
  lemma {:induction false} NoTimersAppear(l: Loop, moves: seq<Move>)
    requires IsRun(l, moves) && l.slots == [] && NewTimers(moves) == []
    ensures AfterMoves(l, moves).slots == []
    decreases moves
  {
    if moves != [] {
      NoTimersAppear(Moved(l, moves[0]), moves[1..]);
    }
  }

  // ---- the loop ----

  /** A clock that only goes forward. */
  class Clock {
    var time: int

    method Now() returns (t: int)
      modifies this
      ensures old(time) <= t == time
      ensures old(time) <= LIMIT ==> time <= LIMIT
    {
      var passed :| 0 <= passed && (time <= LIMIT ==> time + passed <= LIMIT);
      time := time + passed;
      t := time;
    }
  }

  /** Tasks in the order they were posted, each before the next sequence number. */
  predicate InOrder(pending: seq<Queued>, next: nat) {
    && (forall i :: 0 <= i < |pending| ==> pending[i].sequence < next)
    && (forall i, j :: 0 <= i < j < |pending| ==> pending[i].sequence < pending[j].sequence)
  }

  lemma TailInOrder(pending: seq<Queued>, next: nat)
    requires InOrder(pending, next) && pending != []
    ensures InOrder(pending[1..], next)
  {
  }

  function Min(a: int, b: int): int {
    if b < a then b else a
  }

  /** What a drain has run so far of the tasks that were queued, and what it may still run. */
  ghost predicate Draining(queued: seq<Queued>, ran: seq<Queued>, left: seq<Queued>, limit: nat) {
    && (forall e :: e in ran ==> e in queued)
    && (forall e :: e in left && e.sequence < limit ==> e in queued)
    && (forall i, j :: 0 <= i < j < |ran| ==> ran[i].sequence < ran[j].sequence)
    && (forall i, j :: 0 <= i < |ran| && 0 <= j < |left| ==> ran[i].sequence < left[j].sequence)
  }

  /** With nothing cleared, the tasks that were queued have run up to some place, and the others are left. */
  predicate NoneLost(queued: seq<Queued>, ran: seq<Queued>, left: seq<Queued>) {
    |ran| <= |queued| && ran == queued[..|ran|] && queued[|ran|..] <= left
  }

  lemma PrefixHead<T>(a: seq<T>, b: seq<T>)
    requires a <= b
    ensures a == [] || (b != [] && a[0] == b[0])
  {
  }

  lemma AllRan(queued: seq<Queued>, ran: seq<Queued>, left: seq<Queued>, limit: nat)
    requires InOrder(queued, limit) && NoneLost(queued, ran, left)
    requires left == [] || left[0].sequence >= limit
    ensures ran == queued
  {
    PrefixHead(queued[|ran|..], left);
  }

  lemma DrainStarts(queued: seq<Queued>, left: seq<Queued>, limit: nat)
    requires forall e :: e in left && e.sequence < limit ==> e in queued
    ensures Draining(queued, [], left, limit)
    ensures queued <= left ==> NoneLost(queued, [], left)
  {
  }

  lemma DrainIsOver(queued: seq<Queued>, ran: seq<Queued>, left: seq<Queued>, limit: nat, next: nat)
    requires Draining(queued, ran, left, limit) && InOrder(left, next)
    requires left == [] || left[0].sequence >= limit
    ensures forall e :: e in ran ==> e in queued
    ensures forall i, j :: 0 <= i < j < |ran| ==> ran[i].sequence < ran[j].sequence
    ensures forall e :: e in left ==> e.sequence >= limit
  {
  }

  lemma DrainGoesOn(queued: seq<Queued>, ran: seq<Queued>, before: seq<Queued>, left: seq<Queued>, limit: nat,
                    next: nat)
    requires Draining(queued, ran, before, limit) && InOrder(before, next) && limit <= next
    requires before != [] && before[0].sequence < limit
    requires forall e :: e in left && e.sequence < next ==> e in before[1..]
    ensures Draining(queued, ran + [before[0]], left, limit)
    ensures left != [] ==> before[0].sequence < left[0].sequence
  {
    var now := ran + [before[0]];
    assert before[0] in before;
    assert forall e :: e in before[1..] ==> e in before;
    LaterLeft(before, left, next);
    assert forall i :: 0 <= i < |now| ==> now[i].sequence <= before[0].sequence;
    hide InOrder;
  }

  lemma NoneLostNext(queued: seq<Queued>, ran: seq<Queued>, before: seq<Queued>, left: seq<Queued>, limit: nat)
    requires Draining(queued, ran, before, limit) && NoneLost(queued, ran, before)
    requires before != [] && before[0].sequence < limit && before[1..] <= left
    ensures NoneLost(queued, ran + [before[0]], left)
  {
    assert before[0] in before;
    var k :| 0 <= k < |queued| && queued[k] == before[0];
    assert k >= |ran|;
    PrefixHead(queued[|ran|..], before);
    assert queued[|ran| + 1..] == queued[|ran|..][1..] <= before[1..];
    assert queued[..|ran| + 1] == ran + [queued[|ran|]];
  }

  lemma LaterLeft(before: seq<Queued>, left: seq<Queued>, next: nat)
    requires before != [] && InOrder(before, next)
    requires forall e :: e in left && e.sequence < next ==> e in before[1..]
    ensures forall j :: 0 <= j < |left| ==> before[0].sequence < left[j].sequence
  {
    forall j | 0 <= j < |left| ensures before[0].sequence < left[j].sequence {
      if left[j].sequence < next {
        assert left[j] in left;
        var k :| 0 <= k < |before[1..]| && before[1..][k] == left[j];
        assert before[k + 1] == left[j];
      }
    }
  }

  /** A timer with this id was installed, and due. */
  predicate WasDue(slots: seq<Slot>, boundary: int, id: nat) {
    exists s :: s in slots && s.id == id && s.deadline <= boundary
  }

  /** No timer is due that has not fired, but for those just added. */
  predicate NoneLeftDue(slots: seq<Slot>, added: seq<Slot>, boundary: int, fired: seq<nat>) {
    forall s :: s in slots && IsCandidate(s, boundary, fired) ==> s in added
  }

  lemma NoneLeftNow(slots: seq<Slot>, boundary: int, fired: seq<nat>)
    ensures Pick(slots, boundary, fired) == -1 ==> NoneLeftDue(slots, [], boundary, fired)
  {
  }

  lemma NoneLeftLater(slots: seq<Slot>, added: seq<Slot>, more: seq<Slot>, now: seq<Slot>, boundary: int, fired: seq<nat>)
    requires NoneLeftDue(slots, added, boundary, fired) && Known(slots, more, now)
    ensures NoneLeftDue(now, added + more, boundary, fired)
  {
  }

  /** No deadline is past the clock's last time point. */
  predicate InTime(slots: seq<Slot>) {
    forall s :: s in slots ==> s.deadline <= MAX_TIME
  }

  lemma ClaimInTime(slots: seq<Slot>, i: nat, at: int)
    requires InTime(slots) && i < |slots| && 0 <= at <= LIMIT
    ensures InTime(AfterClaim(slots, i, at))
  {
    hide After;
    assert slots[i] in slots;
  }

  /** The timers a pass has not taken are as they were. */
  predicate From(was: seq<Slot>, slots: seq<Slot>, handled: seq<nat>) {
    forall s :: s in slots && s.id !in handled ==> s in was
  }

  /** What a pass takes was due before anything was taken. */
  lemma ClaimFrom(was: seq<Slot>, slots: seq<Slot>, boundary: int, handled: seq<nat>, at: int)
    requires From(was, slots, handled) && Pick(slots, boundary, handled) >= 0
    ensures var i := Pick(slots, boundary, handled);
      && WasDue(was, boundary, slots[i].id)
      && From(was, AfterClaim(slots, i, at), handled + [slots[i].id])
  {
    var i := Pick(slots, boundary, handled);
    assert slots[i] in slots && slots[i] in was;
  }

  /** Every timer was there before, or was added. */
  predicate Known(was: seq<Slot>, added: seq<Slot>, now: seq<Slot>) {
    forall s :: s in now ==> s in was || s in added
  }

  /** However many a pass has handled, no more are left than before, with those that may be installed. */
  ghost predicate NoMoreUnhandled(was: seq<Slot>, installs: nat, now: seq<Slot>, left: nat) {
    forall handled :: left + Unhandled(now, handled) <= installs + Unhandled(was, handled)
  }

  lemma NothingReleased(l: Loop, installs: nat)
    ensures Outside(l, [], l) && Known(l.slots, [], l.slots) && NoMoreUnhandled(l.slots, installs, l.slots, installs)
  {
    assert l.pending + [] == l.pending;
  }

  lemma KnownTwice(was: seq<Slot>, a: seq<Slot>, mid: seq<Slot>, b: seq<Slot>, now: seq<Slot>)
    requires Known(was, a, mid) && Known(mid, b, now)
    ensures Known(was, a + b, now)
  {
  }

  lemma UnhandledTwice(was: seq<Slot>, installs: nat, mid: seq<Slot>, some: nat, now: seq<Slot>, left: nat)
    requires NoMoreUnhandled(was, installs, mid, some) && NoMoreUnhandled(mid, some, now, left)
    ensures NoMoreUnhandled(was, installs, now, left)
  {
    hide Unhandled;
    forall handled ensures left + Unhandled(now, handled) <= installs + Unhandled(was, handled) {
      assert some + Unhandled(mid, handled) <= installs + Unhandled(was, handled);
    }
  }

  lemma UnhandledLeft(was: seq<Slot>, installs: nat, now: seq<Slot>, left: nat, handled: seq<nat>)
    requires NoMoreUnhandled(was, installs, now, left)
    ensures left + Unhandled(now, handled) <= installs + Unhandled(was, handled)
  {
  }

  predicate AllDistinct(ids: seq<nat>) {
    forall i, j :: 0 <= i < j < |ids| ==> ids[i] != ids[j]
  }

  /** What a pass has handled, each once, was due; the timers it has not are as they were installed. */
  ghost predicate Firing(was: seq<Slot>, moves: seq<Move>, slots: seq<Slot>, boundary: int, handled: seq<nat>) {
    && AllDistinct(handled) && From(was + NewTimers(moves), slots, handled)
    && forall id :: id in handled ==> WasDue(was + NewTimers(moves), boundary, id)
  }

  lemma FiringStarts(was: seq<Slot>, boundary: int)
    ensures Firing(was, [], was, boundary, [])
  {
    assert was + [] == was;
  }

  /** A claim is one more that was due, and fewer are left. */
  lemma ClaimIsNext(was: seq<Slot>, moves: seq<Move>, slots: seq<Slot>, boundary: int, handled: seq<nat>, at: int)
    requires Firing(was, moves, slots, boundary, handled) && InTime(slots) && 0 <= at <= LIMIT
    requires Pick(slots, boundary, handled) >= 0
    ensures var i := Pick(slots, boundary, handled); var now := handled + [slots[i].id];
      && Firing(was, moves, AfterClaim(slots, i, at), boundary, now) && InTime(AfterClaim(slots, i, at))
      && Unhandled(AfterClaim(slots, i, at), now) < Unhandled(slots, handled)
  {
    var i := Pick(slots, boundary, handled);
    ClaimHandles(slots, i, at, handled);
    ClaimFrom(was + NewTimers(moves), slots, boundary, handled, at);
    ClaimInTime(slots, i, at);
    hide From, WasDue, InTime, Unhandled, AfterClaim, Pick;
  }

  lemma FiringGoesOn(was: seq<Slot>, moves: seq<Move>, more: seq<Move>, slots: seq<Slot>, now: seq<Slot>, boundary: int,
                     handled: seq<nat>)
    requires Firing(was, moves, slots, boundary, handled) && Known(slots, NewTimers(more), now)
    ensures Firing(was, moves + more, now, boundary, handled)
  {
    hide From, WasDue, Known, NewTimers, AllDistinct;
    CountsAdd(moves, more);
    SeenStays(was + NewTimers(moves), NewTimers(more), slots, now, boundary, handled);
    assert was + NewTimers(moves + more) == was + NewTimers(moves) + NewTimers(more);
  }

  lemma FiringMeans(was: seq<Slot>, moves: seq<Move>, slots: seq<Slot>, boundary: int, handled: seq<nat>)
    requires Firing(was, moves, slots, boundary, handled)
    ensures AllDistinct(handled) && forall id :: id in handled ==> WasDue(was + NewTimers(moves), boundary, id)
  {
    hide From, WasDue;
  }

  lemma DroppedHandles(slots: seq<Slot>, installs: nat, id: nat)
    ensures var i := IndexOf(slots, id); var now := if i < |slots| then Without(slots, i) else slots;
      && NoMoreUnhandled(slots, installs, now, installs) && Known(slots, [], now) && (InTime(slots) ==> InTime(now))
  {
    var i := IndexOf(slots, id);
    if i < |slots| {
      forall handled ensures Unhandled(Without(slots, i), handled) <= Unhandled(slots, handled) {
        WithoutHandles(slots, i, handled);
      }
    }
  }

  lemma InstalledHandles(slots: seq<Slot>, installs: nat, which: Slot)
    requires installs > 0
    ensures NoMoreUnhandled(slots, installs, slots + [which], installs - 1) && Known(slots, [which], slots + [which])
    ensures InTime(slots) && which.deadline <= MAX_TIME ==> InTime(slots + [which])
  {
    forall handled ensures Unhandled(slots + [which], handled) <= Unhandled(slots, handled) + 1 {
      UnhandledConcat(slots, [which], handled);
      assert Unhandled([which], handled) <= |[which]|;
    }
  }

  /** A move that someone else makes. */
  lemma OneOutside(l: Loop, m: Move, next: Loop)
    requires CanMove(l, m) && next == Moved(l, m) && !m.Fires? && !m.Runs?
    ensures Outside(l, [m], next)
    ensures NewTimers([m]) == (if m.Installed? then [m.slot] else [])
    ensures NewTasks([m]) == (if m.Posted? then [m.entry] else [])
    ensures NoneCleared([m]) == !m.Cleared?
  {
    OneMove(l, m);
    assert l.pending + [] == l.pending;
  }

  lemma OutsideTwice(l: Loop, a: seq<Move>, mid: Loop, b: seq<Move>, next: Loop)
    requires Outside(l, a, mid) && Outside(mid, b, next)
    ensures Outside(l, a + b, next)
  {
    hide Leads, TasksRun, TimerFires, NewTasks, NoneCleared;
    CountsAdd(a, b);
    LeadsOn(l, a, mid, b, next);
    if NoneCleared(a + b) {
      assert l.pending + NewTasks(a) + NewTasks(b) == l.pending + (NewTasks(a) + NewTasks(b));
    }
  }

  /** What was seen of the timers is still seen, with those installed since. */
  lemma SeenStays(seen: seq<Slot>, more: seq<Slot>, slots: seq<Slot>, now: seq<Slot>, boundary: int, handled: seq<nat>)
    requires From(seen, slots, handled) && Known(slots, more, now)
    ensures From(seen + more, now, handled)
    ensures forall id :: WasDue(seen, boundary, id) ==> WasDue(seen + more, boundary, id)
  {
  }

  lemma NoMoves()
    ensures NewTimers([]) == [] && NewTasks([]) == [] && NoneCleared([]) && !Asked([])
  {
  }

  lemma StaysPut(l: Loop)
    ensures Leads(l, [], l)
  {
  }

  /** What a running call has done so far: moves, the tasks it ran and the timers it fired. */
  ghost predicate SoFar(l: Loop, moves: seq<Move>, next: Loop, ran: seq<Queued>, fired: seq<Slot>) {
    && Leads(l, moves, next) && |ran| == TasksRun(moves) && |fired| == TimerFires(moves)
    && (NoneCleared(moves) ==> ran + next.pending == l.pending + NewTasks(moves))
  }

  lemma NothingSoFar(l: Loop)
    ensures SoFar(l, [], l, [], [])
  {
  }

  /** What others do between two pieces of work. */
  ghost predicate Outside(l: Loop, moves: seq<Move>, next: Loop) {
    && Leads(l, moves, next) && TasksRun(moves) == 0 && TimerFires(moves) == 0
    && (NoneCleared(moves) ==> next.pending == l.pending + NewTasks(moves))
  }

  lemma OutsideSoFar(l: Loop, moves: seq<Move>, mid: Loop, ran: seq<Queued>, fired: seq<Slot>, more: seq<Move>,
                     next: Loop)
    requires SoFar(l, moves, mid, ran, fired) && Outside(mid, more, next)
    ensures SoFar(l, moves + more, next, ran, fired)
  {
    hide Leads, TasksRun, TimerFires, NewTasks, NoneCleared;
    CountsAdd(moves, more);
    LeadsOn(l, moves, mid, more, next);
    if NoneCleared(moves + more) {
      assert ran + (mid.pending + NewTasks(more)) == ran + mid.pending + NewTasks(more);
      assert l.pending + NewTasks(moves) + NewTasks(more) == l.pending + (NewTasks(moves) + NewTasks(more));
    }
  }

  lemma WorkSoFar(l: Loop, moves: seq<Move>, mid: Loop, ran: seq<Queued>, fired: seq<Slot>, taken: seq<Move>,
                  next: Loop, work: Work)
    requires SoFar(l, moves, mid, ran, fired) && Leads(mid, taken, next) && Takes(mid, taken, work)
    ensures SoFar(l, moves + taken, next, if work.Run? then ran + [work.entry] else ran,
                  if work.Fire? then fired + [work.slot] else fired)
  {
    WorkTaken(mid, taken, work);
    hide IsRun, AfterMoves, Takes, TasksRun, TimerFires, NewTasks, NoneCleared;
    CountsAdd(moves, taken);
    LeadsOn(l, moves, mid, taken, next);
    if work.Run? {
      assert mid.pending == [work.entry] + next.pending;
      assert ran + ([work.entry] + next.pending) == ran + [work.entry] + next.pending;
    }
    assert NewTasks(moves) + [] == NewTasks(moves);
  }

  /** Nothing was taken, though a new pass may have begun. */
  lemma NothingTaken(l: Loop, moves: seq<Move>, next: Loop)
    requires moves == [] || (|moves| == 1 && moves[0].Refreshes?)
    requires Leads(l, moves, next)
    ensures Outside(l, moves, next)
  {
    if moves != [] {
      assert moves == [moves[0]];
      OneMove(l, moves[0]);
    }
    assert l.pending + [] == l.pending;
  }

  lemma TaskTaken(l: Loop, m: Move)
    requires m.Runs? && CanMove(l, m)
    ensures Leads(l, [m], Moved(l, m)) && Takes(l, [m], Run(l.pending[0]))
  {
    OneMove(l, m);
    hide Leads, Moved;
  }

  lemma FireTaken(l: Loop, moves: seq<Move>, now: Loop, m: Move)
    requires moves == [] || (|moves| == 1 && moves[0].Refreshes? && CanMove(l, moves[0]))
    requires Leads(l, moves, now) && m.Fires? && CanMove(now, m)
    ensures Leads(l, moves + [m], Moved(now, m)) && Takes(l, moves + [m], Fire(now.slots[Due1(now)]))
  {
    hide IsRun, AfterMoves, CanMove, Moved;
    OneMove(now, m);
    LeadsOn(l, moves, now, [m], Moved(now, m));
    if moves == [] {
      StaysPut(l);
      assert moves + [m] == [m];
    } else {
      OneMove(l, moves[0]);
      assert moves == [moves[0]];
    }
  }

  lemma WorkTaken(l: Loop, moves: seq<Move>, work: Work)
    requires Takes(l, moves, work)
    ensures NewTimers(moves) == [] && NewTasks(moves) == [] && NoneCleared(moves)
    ensures TasksRun(moves) == (if work.Run? then 1 else 0) && TimerFires(moves) == (if work.Fire? then 1 else 0)
    ensures IsRun(l, moves) && AfterMoves(l, moves).pending == if work.Run? then l.pending[1..] else l.pending
    ensures work.Run? ==> l.pending != [] && work.entry == l.pending[0]
  {
    if |moves| == 2 {
      var a, b := moves[0], moves[1];
      assert moves == [a] + [b];
      OneMove(l, a);
      OneMove(Moved(l, a), b);
      CountsAdd([a], [b]);
      LeadsOn(l, [a], Moved(l, a), [b], Moved(Moved(l, a), b));
    } else {
      assert moves == [moves[0]];
      OneMove(l, moves[0]);
    }
  }

  lemma OneMove(l: Loop, m: Move)
    requires CanMove(l, m)
    ensures Leads(l, [m], Moved(l, m))
    ensures TimerFires([m]) == (if m.Fires? then 1 else 0) && TasksRun([m]) == (if m.Runs? then 1 else 0)
    ensures NewTimers([m]) == (if m.Installed? then [m.slot] else [])
    ensures NewTasks([m]) == (if m.Posted? then [m.entry] else [])
    ensures NoneCleared([m]) == !m.Cleared?
  {
    hide CanMove, Moved;
    var next := Moved(l, m);
    assert [m][1..] == [] && IsRun(next, []) && AfterMoves(next, []) == next;
  }

  /** The timers fired before a task that was queued, of which `ran` are gone before it. */
  lemma FiredSoFar(l: Loop, moves: seq<Move>, next: Loop, ran: seq<Queued>, fired: seq<Slot>)
    requires SoFar(l, moves, next, ran, fired)
    ensures NoneCleared(moves) && |ran| < |l.pending| ==>
              |fired| <= (|l.slots| + |NewTimers(moves)|) * (|ran| + 1)
  {
    hide AfterMoves, IsRun, TasksRun, TimerFires, NewTasks, NoneCleared, Unhandled;
    if NoneCleared(moves) && |ran| < |l.pending| {
      BoundedBypass(l, moves, |ran|);
      AllOfThem(|l.slots|, |NewTimers(moves)|, Unhandled(l.slots, l.pass.handled), |ran|);
    }
  }

  lemma StateSoFar(l: Loop, moves: seq<Move>, next: Loop, ran: seq<Queued>, fired: seq<Slot>)
    requires SoFar(l, moves, next, ran, fired)
    ensures IsRun(l, moves) && |ran| == TasksRun(moves) && |fired| == TimerFires(moves)
    ensures NoneCleared(moves) ==> ran + next.pending == l.pending + NewTasks(moves)
    ensures l.slots == [] && NewTimers(moves) == [] ==> next.slots == []
  {
    if l.slots == [] && NewTimers(moves) == [] {
      NoTimersAppear(l, moves);
    }
    hide IsRun, AfterMoves, NewTimers;
  }

  lemma AllOfThem(slots: nat, more: nat, unhandled: nat, tasks: nat)
    requires unhandled <= slots
    ensures unhandled + tasks * slots + more * (tasks + 1) <= (slots + more) * (tasks + 1)
  {
  }

  class RunLoop {
    var pending: seq<Queued>
    var nextSequence: nat
    var quitting: bool
    var finished: bool
    const timers: TimerSchedule
    const clock: Clock

    predicate Valid()
      reads this
    {
      InOrder(pending, nextSequence)
    }

    constructor (timers: TimerSchedule, clock: Clock)
      ensures Valid() && pending == [] && !quitting && !finished
      ensures this.timers == timers && this.clock == clock
    {
      pending, nextSequence, quitting, finished := [], 0, false, false;
      this.timers, this.clock := timers, clock;
    }

    /** The state a pass decides by. */
    function State(pass: Pass): Loop
      reads this, timers
    {
      Loop(pending, timers.slots, pass)
    }

    method Enqueue(task: nat) returns (queued: bool)
      requires Valid()
      modifies this`pending, this`nextSequence
      ensures Valid() && queued == !old(finished)
      ensures if queued then pending == old(pending) + [Queued(old(nextSequence), task)]
                             && nextSequence == old(nextSequence) + 1
              else pending == old(pending) && nextSequence == old(nextSequence)
    {
      if finished {
        return false;
      }
      pending := pending + [Queued(nextSequence, task)];
      nextSequence := nextSequence + 1;
      queued := true;
    }

    method InstallTimer(which: Slot) returns (installed: bool)
      modifies timers
      ensures installed == !finished
      ensures timers.slots == if installed then old(timers.slots) + [which] else old(timers.slots)
    {
      if finished {
        return false;
      }
      timers.Install(which);
      installed := true;
    }

    method Quit()
      modifies this`quitting
      ensures quitting
    {
      quitting := true;
    }

    method Clear()
      requires Valid()
      modifies this`pending
      ensures Valid() && pending == []
    {
      pending := [];
    }

    method Finish()
      requires Valid()
      modifies this`pending, this`finished, timers
      ensures Valid() && finished && pending == [] && timers.slots == []
    {
      finished := true;
      pending := [];
      var discarded := timers.RemoveAll();
    }

    /** take_due_timer(): the claim is made at the time the clock shows now. */
    method TakeDueTimer(boundary: int, handled: seq<nat>) returns (which: Option<Slot>, handledNow: seq<nat>)
      modifies timers, clock
      ensures old(clock.time) <= clock.time && (old(clock.time) <= LIMIT ==> clock.time <= LIMIT)
      ensures var i := Pick(old(timers.slots), boundary, handled);
        if i == -1 then which == None && timers.slots == old(timers.slots) && handledNow == handled
        else which == Some(old(timers.slots)[i]) && timers.slots == AfterClaim(old(timers.slots), i, clock.time)
             && handledNow == handled + [old(timers.slots)[i].id]
    {
      var now := clock.Now();
      which, handledNow := timers.TakeDue(boundary, now, handled);
    }

    /** The part of next() under the lock: work to run, or nothing and perhaps a time to wait until. */
    method Next(deadline: int, consumeQuit: bool, pass: Pass)
      returns (work: Option<Work>, passNow: Pass, waitUntil: Option<int>, ghost moves: seq<Move>, ghost times: Reads)
      requires Valid() && pass.boundary <= clock.time && InTime(timers.slots) && 0 <= clock.time <= LIMIT
      modifies this`pending, this`quitting, timers, clock
      ensures Valid() && passNow.boundary <= clock.time && old(clock.time) <= clock.time <= LIMIT && InTime(timers.slots)
      ensures Leads(old(State(pass)), moves, State(passNow))
      ensures quitting == (old(quitting) && !consumeQuit) && (old(quitting) ==> moves == [])
      // What it gives is determined by the state and by two reads of the clock.
      ensures old(clock.time) <= times.renewed <= times.current <= clock.time
      ensures FoundIs(Look(old(State(pass)), old(quitting), deadline, times), work, waitUntil)
      // A timer is taken, or a task when none is due; a queued task never waits for the clock or a new pass.
      ensures work.Some? ==> Takes(old(State(pass)), moves, work.value)
      ensures work == None ==> moves == [] || (|moves| == 1 && moves[0].Refreshes?)
      ensures work == None ==> pending == old(pending) && timers.slots == old(timers.slots)
    {
      hide Leads, Takes, IsRun, AfterMoves, InOrder, Look;
      passNow, moves, times := pass, [], Reads(clock.time, clock.time);
      var refreshed := false;
      ghost var start := State(pass);
      StaysPut(start);
      while true
        invariant Valid() && pending == old(pending) && timers.slots == old(timers.slots)
        invariant quitting == old(quitting) && old(clock.time) <= clock.time <= LIMIT
        invariant passNow.boundary <= clock.time && old(clock.time) <= times.renewed <= times.current <= clock.time
        invariant !refreshed ==> passNow == pass && moves == []
        invariant refreshed ==> Due1(start) < 0
        invariant Leads(start, moves, State(passNow))
        invariant refreshed ==> passNow == Pass(times.renewed, []) && timers.slots != [] && pending == [] && !quitting
                                && moves == [Refreshes(passNow.boundary)] && CanMove(start, moves[0])
        decreases if refreshed then 0 else 1
      {
        if !refreshed {
          LooksFirst(start, deadline, times);
        }
        if quitting {
          if consumeQuit {
            quitting := false;
          }
          return None, passNow, None, moves, times;
        }
        ghost var now := State(passNow);
        var hasTimers := timers.slots != [];
        if hasTimers {
          var which, handled := TakeDueTimer(passNow.boundary, passNow.handled);
          passNow := passNow.(handled := handled);
          if which.Some? {
            ClaimInTime(old(timers.slots), Due1(now), clock.time);
            ghost var fire := Fires(clock.time);
            assert State(passNow) == Moved(now, fire);
            FireTaken(start, moves, now, fire);
            if refreshed {
              LooksAgain(start, now, deadline, times);
            }
            return Some(Fire(which.value)), passNow, None, moves + [fire], times;
          }
        }
        if pending != [] {
          var entry := pending[0];
          TailInOrder(pending, nextSequence);
          pending := pending[1..];
          var read := 0;
          if hasTimers {
            read := clock.Now();
            passNow := Pass(read, []);
          }
          assert State(passNow) == Moved(start, Runs(read));
          TaskTaken(start, Runs(read));
          return Some(Run(entry)), passNow, None, [Runs(read)], times;
        }
        if hasTimers && !refreshed {
          var read := clock.Now();
          passNow := Pass(read, []);
          moves, times := [Refreshes(read)], Reads(read, read);
          OneMove(start, Refreshes(read));
          refreshed := true;
          continue;
        }
        var current := clock.Now();
        times := times.(current := current);
        var earliest := timers.Earliest();
        var wait := Min(deadline, earliest);
        LooksAgain(start, now, deadline, times);
        if wait <= current {
          return None, passNow, None, moves, times;
        }
        return None, passNow, Some(wait), moves, times;
      }
    }

    /** What other threads and the running task may do while the lock is released, but for running the loop
        again: of timers they install at most `installs`. */
    method RunReleased(ghost pass: Pass, installs: nat) returns (left: nat, ghost moves: seq<Move>)
      requires Valid() && InTime(timers.slots) && 0 <= clock.time <= LIMIT
      modifies this`pending, this`nextSequence, this`quitting, timers, clock
      ensures Valid() && InTime(timers.slots) && old(clock.time) <= clock.time <= LIMIT
      ensures Outside(old(State(pass)), moves, State(pass))
      ensures left + |NewTimers(moves)| == installs && nextSequence >= old(nextSequence)
      ensures NoneCleared(moves) ==> pending == old(pending) + NewTasks(moves)
      ensures forall e :: e in pending && e.sequence < old(nextSequence) ==> e in old(pending)
      ensures Known(old(timers.slots), NewTimers(moves), timers.slots)
      ensures NoMoreUnhandled(old(timers.slots), installs, timers.slots, left)
      ensures quitting <==> old(quitting) || Asked(moves)
    {
      hide Known, NoMoreUnhandled, InTime, InOrder, NewTimers, NewTasks, NoneCleared, Outside, Asked;
      left, moves := installs, [];
      NoMoves();
      NothingReleased(State(pass), installs);
      var steps: nat := *;
      while steps > 0
        invariant Valid() && InTime(timers.slots) && old(clock.time) <= clock.time <= LIMIT
        invariant Outside(old(State(pass)), moves, State(pass))
        invariant left + |NewTimers(moves)| == installs && nextSequence >= old(nextSequence)
        invariant NoneCleared(moves) ==> pending == old(pending) + NewTasks(moves)
        invariant forall e :: e in pending && e.sequence < old(nextSequence) ==> e in old(pending)
        invariant Known(old(timers.slots), NewTimers(moves), timers.slots)
        invariant NoMoreUnhandled(old(timers.slots), installs, timers.slots, left)
        invariant quitting <==> old(quitting) || Asked(moves)
      {
        ghost var before, had := State(pass), left;
        ghost var more;
        left, more := DoReleased(pass, left);
        CountsAdd(moves, more);
        AskedAdd(moves, more);
        OutsideTwice(old(State(pass)), moves, before, more, State(pass));
        KnownTwice(old(timers.slots), NewTimers(moves), before.slots, NewTimers(more), timers.slots);
        UnhandledTwice(old(timers.slots), installs, before.slots, had, timers.slots, left);
        moves := moves + more;
        steps := steps - 1;
      }
    }

    /** One thing that someone else does; when time passes, the loop makes no move. */
    method DoReleased(ghost pass: Pass, installs: nat) returns (left: nat, ghost moves: seq<Move>)
      requires Valid() && InTime(timers.slots) && 0 <= clock.time <= LIMIT
      modifies this`pending, this`nextSequence, this`quitting, timers, clock
      ensures Valid() && InTime(timers.slots) && old(clock.time) <= clock.time <= LIMIT
      ensures Outside(old(State(pass)), moves, State(pass))
      ensures left + |NewTimers(moves)| == installs && nextSequence >= old(nextSequence)
      ensures NoneCleared(moves) ==> pending == old(pending) + NewTasks(moves)
      ensures forall e :: e in pending && e.sequence < old(nextSequence) ==> e in old(pending)
      ensures Known(old(timers.slots), NewTimers(moves), timers.slots)
      ensures NoMoreUnhandled(old(timers.slots), installs, timers.slots, left)
      ensures quitting <==> old(quitting) || Asked(moves)
    {
      hide Known, NoMoreUnhandled, NewTimers, NewTasks, NoneCleared, Outside;
      left, moves := installs, [];
      ghost var before := State(pass);
      var choice: nat, what: nat, which: Slot := *, *, *;
      NoMoves();
      NothingReleased(before, installs);
      if choice == 0 {
        var next := nextSequence;
        var queued := Enqueue(what);
        moves := if queued then [Posted(Queued(next, what))] else [];
      } else if choice == 1 {
        Clear();
        moves := [Cleared];
      } else if choice == 2 {
        Quit();
        moves := [Quits];
      } else if choice == 3 {
        var later := clock.Now();
      } else if choice == 4 {
        var removed := timers.Remove(what);
        moves := [Dropped(what)];
        DroppedHandles(before.slots, installs, what);
      } else if installs > 0 && which.deadline <= MAX_TIME {
        var installed := InstallTimer(which);
        if installed {
          left, moves := installs - 1, [Move.Installed(which)];
          InstalledHandles(before.slots, installs, which);
        }
      }
      if moves != [] {
        OneOutside(before, moves[0], State(pass));
      }
    }

    /** The timers run_pending() fires: each that is due once, even one due again at once, and those that
        are installed meanwhile, `installs` at most, and due. */
    method FireDue(boundary: int, installs: nat) returns (fired: seq<nat>, left: nat, ghost moves: seq<Move>)
      requires Valid() && InTime(timers.slots) && 0 <= clock.time <= LIMIT
      modifies this`pending, this`nextSequence, this`quitting, timers, clock
      ensures Valid() && InTime(timers.slots) && old(clock.time) <= clock.time <= LIMIT
      ensures left + |NewTimers(moves)| == installs && nextSequence >= old(nextSequence)
      ensures forall e :: e in pending && e.sequence < old(nextSequence) ==> e in old(pending)
      ensures NoneCleared(moves) ==> pending == old(pending) + NewTasks(moves)
      ensures AllDistinct(fired) && |fired| <= old(Unhandled(timers.slots, [])) + |NewTimers(moves)|
      ensures forall id :: id in fired ==> WasDue(old(timers.slots) + NewTimers(moves), boundary, id)
      ensures Pick(timers.slots, boundary, fired) == -1
    {
      hide Firing, AllDistinct, InOrder, Unhandled, AfterClaim, Pick, InTime, WasDue, Known, NoMoreUnhandled, NewTimers,
           NewTasks, NoneCleared, Outside;
      fired, left, moves := [], installs, [];
      NoMoves();
      FiringStarts(timers.slots, boundary);
      ghost var slots := timers.slots;
      var which, handled := TakeDueTimer(boundary, fired);
      if which.Some? {
        ClaimIsNext(old(timers.slots), moves, slots, boundary, fired, clock.time);
      }
      while which.Some?
        invariant Valid() && InTime(timers.slots) && old(clock.time) <= clock.time <= LIMIT
        invariant left + |NewTimers(moves)| == installs && nextSequence >= old(nextSequence)
        invariant forall e :: e in pending && e.sequence < old(nextSequence) ==> e in old(pending)
        invariant NoneCleared(moves) ==> pending == old(pending) + NewTasks(moves)
        invariant which.Some? ==> handled == fired + [which.value.id]
        invariant which.None? ==> handled == fired && Pick(timers.slots, boundary, fired) == -1
        invariant Firing(old(timers.slots), moves, timers.slots, boundary, handled)
        invariant |handled| + Unhandled(timers.slots, handled) + left <= old(Unhandled(timers.slots, [])) + installs
        decreases Unhandled(timers.slots, handled) + left, |handled| - |fired|
      {
        fired := handled;
        ghost var more;
        slots := timers.slots;
        ghost var had := left;
        left, more := RunReleased(Pass(boundary, []), left);
        CountsAdd(moves, more);
        FiringGoesOn(old(timers.slots), moves, more, slots, timers.slots, boundary, fired);
        UnhandledLeft(slots, had, timers.slots, left, fired);
        moves, slots := moves + more, timers.slots;
        which, handled := TakeDueTimer(boundary, fired);
        if which.Some? {
          ClaimIsNext(old(timers.slots), moves, slots, boundary, fired, clock.time);
        }
      }
      FiringMeans(old(timers.slots), moves, timers.slots, boundary, fired);
    }

    /** run_pending(): the timers already due, and those that are installed and due meanwhile; then the
        tasks queued before it was called and no others, whatever those tasks post; all of them unless
        something clears the queue. Others install at most `installs` timers while it runs, any number. */
    method RunPending(installs: nat)
      returns (fired: seq<nat>, ran: seq<Queued>, ghost boundary: int, ghost before: seq<Move>, ghost after: seq<Move>)
      requires Valid() && InTime(timers.slots) && 0 <= clock.time <= LIMIT
      modifies this`pending, this`nextSequence, this`quitting, timers, clock
      ensures Valid() && |NewTimers(before)| + |NewTimers(after)| <= installs
      ensures forall e :: e in ran ==> e in old(pending)
      ensures forall i, j :: 0 <= i < j < |ran| ==> ran[i].sequence < ran[j].sequence
      ensures forall e :: e in pending ==> e.sequence >= old(nextSequence)
      ensures NoneCleared(before) && NoneCleared(after) ==> ran == old(pending)
      // The clock is read once, when the call starts; the timers fired were due by then, and none of those is left.
      ensures old(clock.time) <= boundary <= clock.time
      ensures AllDistinct(fired) && |fired| <= |old(timers.slots)| + |NewTimers(before)|
      ensures forall id :: id in fired ==> WasDue(old(timers.slots) + NewTimers(before), boundary, id)
      ensures NoneLeftDue(timers.slots, NewTimers(after), boundary, fired)
    {
      hide NewTimers, NewTasks, NoneCleared, WasDue, InTime, Unhandled, Pick, InOrder, Draining, NoneLost, Known, NoneLeftDue;
      var time := clock.Now();
      boundary := time;
      var limit := nextSequence;
      var left: nat;
      fired, left, before := FireDue(time, installs);
      ran, after := [], [];
      NoMoves();
      DrainStarts(old(pending), pending, limit);
      NoneLeftNow(timers.slots, boundary, fired);
      while pending != [] && pending[0].sequence < limit
        invariant Valid() && nextSequence >= limit && boundary <= clock.time <= LIMIT && InTime(timers.slots)
        invariant Draining(old(pending), ran, pending, limit)
        invariant NoneCleared(before) && NoneCleared(after) ==> NoneLost(old(pending), ran, pending)
        invariant left + |NewTimers(before)| + |NewTimers(after)| == installs
        invariant NoneLeftDue(timers.slots, NewTimers(after), boundary, fired)
        decreases limit - (if pending == [] then limit else pending[0].sequence)
      {
        ghost var queue, next, slots := pending, nextSequence, timers.slots;
        ghost var more;
        var entry;
        entry, left, more := RunFirst(left);
        CountsAdd(after, more);
        NoneLeftLater(slots, NewTimers(after), NewTimers(more), timers.slots, boundary, fired);
        DrainGoesOn(old(pending), ran, queue, pending, limit, next);
        if NoneCleared(before) && NoneCleared(after + more) {
          NoneLostNext(old(pending), ran, queue, pending, limit);
        }
        after := after + more;
        ran := ran + [entry];
      }
      DrainIsOver(old(pending), ran, pending, limit, nextSequence);
      if NoneCleared(before) && NoneCleared(after) {
        AllRan(old(pending), ran, pending, limit);
      }
    }

    /** Takes the first queued task and runs it. */
    method RunFirst(installs: nat) returns (entry: Queued, left: nat, ghost moves: seq<Move>)
      requires Valid() && pending != [] && InTime(timers.slots) && 0 <= clock.time <= LIMIT
      modifies this`pending, this`nextSequence, this`quitting, timers, clock
      ensures Valid() && nextSequence >= old(nextSequence) && entry == old(pending)[0] && InTime(timers.slots)
      ensures forall e :: e in pending && e.sequence < old(nextSequence) ==> e in old(pending)[1..]
      ensures NoneCleared(moves) ==> old(pending)[1..] <= pending
      ensures old(clock.time) <= clock.time <= LIMIT && left + |NewTimers(moves)| == installs
      ensures Known(old(timers.slots), NewTimers(moves), timers.slots)
    {
      entry := pending[0];
      pending := pending[1..];
      left, moves := RunReleased(Pass(0, []), installs);
    }

    /** The loop of run() and run_for() around next(), for any number of turns: it runs tasks in the order
        they were posted, and before those that were queued when it began no more timers fire than the
        bound, however often they are due again. It ends for a quit or its deadline; and, with timers, when
        one comes due between two reads of the clock. */
    method RunUntil(deadline: int, outermost: bool, turns: nat)
      returns (ran: seq<Queued>, fired: seq<Slot>, ghost first: Pass, ghost moves: seq<Move>, ghost why: End)
      requires Valid() && InTime(timers.slots) && 0 <= clock.time <= LIMIT
      modifies this`pending, this`nextSequence, this`quitting, timers, clock
      ensures Valid() && clock.time <= LIMIT
      ensures first.handled == [] && old(clock.time) <= first.boundary && IsRun(old(State(first)), moves)
      ensures |ran| == TasksRun(moves) && |fired| == TimerFires(moves)
      ensures NoneCleared(moves) ==> ran + pending == old(pending) + NewTasks(moves)
      ensures NoneCleared(moves) && |ran| < |old(pending)| ==>
                |fired| <= (|old(timers.slots)| + |NewTimers(moves)|) * (|ran| + 1)
      ensures why.QuitSeen? ==> (old(quitting) || Asked(moves)) && quitting == !outermost
      ensures why.DeadlinePassed? ==> deadline <= clock.time
      ensures why.BetweenReads? ==>
                && !quitting && pending == [] && why.times.current <= clock.time && why.times.current < deadline
                && (forall s :: s in timers.slots ==> s.deadline > why.times.renewed)
                && exists s :: s in timers.slots && s.deadline <= why.times.current
      ensures old(timers.slots) == [] && NewTimers(moves) == [] ==> !why.BetweenReads?
    {
      hide InTime, Takes, IsRun, AfterMoves, SoFar, Outside, TasksRun, TimerFires, NewTasks, NewTimers, NoneCleared,
           Unhandled, InOrder, Asked, Look;
      ran, fired, moves, why := [], [], [], LeftOff;
      var boundary := clock.Now();
      var pass := Pass(boundary, []);
      first := pass;
      ghost var start := State(first);
      NothingSoFar(start);
      NoMoves();
      var left, waited := turns, false;
      while left > 0
        invariant Valid() && InTime(timers.slots) && old(clock.time) <= clock.time <= LIMIT && pass.boundary <= clock.time
        invariant SoFar(start, moves, State(pass), ran, fired) && why == LeftOff
        invariant quitting ==> old(quitting) || Asked(moves)
        decreases left
      {
        left := left - 1;
        if deadline != MAX_TIME && !waited {
          var now := clock.Now();
          if now >= deadline {
            why := DeadlinePassed;
            break;
          }
        }
        ghost var before, told := State(pass), quitting;
        var work, passNow, wait, taken, times := Next(deadline, outermost, pass);
        ghost var between := State(passNow);
        AskedAdd(moves, taken);
        match work {
          case None =>
            NothingTaken(before, taken, between);
            OutsideSoFar(start, moves, before, ran, fired, taken, between);
          case Some(Run(entry)) =>
            WorkSoFar(start, moves, before, ran, fired, taken, between, work.value);
            ran := ran + [entry];
          case Some(Fire(slot)) =>
            WorkSoFar(start, moves, before, ran, fired, taken, between, work.value);
            fired := fired + [slot];
        }
        moves, pass, waited := moves + taken, passNow, work.None?;
        if work.None? && wait.None? {
          why := WhyEnded(told, deadline, times);
          EndsExactly(before, told, deadline, times);
          break;
        }
        var installs: nat := *;
        ghost var others;
        installs, others := RunReleased(pass, installs);
        AskedAdd(moves, others);
        OutsideSoFar(start, moves, between, ran, fired, others, State(pass));
        moves := moves + others;
      }
      FiredSoFar(start, moves, State(pass), ran, fired);
      StateSoFar(start, moves, State(pass), ran, fired);
    }
  }
}
