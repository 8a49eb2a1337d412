# A verified model of the hard parts of dross

dross is a C++ library. This project models four of its components in Dafny and proves what
they promise, for every input and over every run:

- **The operation queue** (`src/thread/operation_queue.cpp`, `src/thread/operation.cpp`): a
  priority scheduler whose tasks may run after the results of others, with cancels that spread,
  a stop that drains, and several workers. Each section the code runs under the queue's lock is
  one step of a state machine (`QueueState`, `QueueSteps`). `QueueInvariant` is what every step
  keeps (`QueueMoves`, `QueueProofs`); `QueueRuns` and `QueueDrain` prove what follows over whole
  runs, under any interleaving of calls and workers. `Backlog` is the class itself, updated in
  place, each method proved to do just the step; `CancelLoop` holds the proof of its worklist.
- **Numbers** (`src/type/number.cpp`): decimal text of any length. `Decimal` says what a text
  stands for; the digit loops of the code are methods over strings and an array, each proved to
  give the canonical text of the exact result (`NumberText`, `NumberOrder`, `NumberSum`,
  `NumberProduct`, `NumberQuotient`, `Number`). `NumberDivisor` and `NumberPrecision` prove when a
  quotient is exact and what is cut off when it is not.
- **TOML** (`src/format/toml.cpp`): what the writer writes and the reader reads, as functions
  (`Utf8`, `TomlText`, `TomlValues`, `TomlTree`, `TomlDocument`), with the classes of the code
  proved to compute them (`TomlParser`, `TomlWriter`, `TomlIntegers`). On these functions:
  the round trip (`TomlNumbers`, `TomlReadsBack`, `TomlTables`, `TomlRoundTrip`), when writing
  succeeds (`TomlValidText`), and what an accepted document holds (`TomlLeaves`,
  `TomlConservation`).
- **Run loop, timers and time** (`src/thread/runloop.cpp`, `src/thread/timer_schedule.h`,
  `src/thread/deadline.cpp`, `src/type/timestamp.cpp`, `src/type/timezone.cpp`): `RunLoop`,
  `Timers`, `Deadline`, and for timestamps `Timestamps` (text), `Calendar` (dates and days),
  `ClockTime` (ticks of a 64-bit clock) and `Instants` (arithmetic and order).

Check it with `dafny verify dfyconfig.toml`.

Two things the code does are not what its documentation says. The model does what the code does,
and proves when that is what the documentation says.

- `include/dross/type/number.h:383` promises an exact quotient whenever it terminates within 4096
  digits. The code counts the twos and fives of the divisor as it was scaled, not reduced
  (`src/type/number.cpp:656-669`), so 2^5000 / 2^5100, which terminates in 100 digits, is cut to 34.
  `NumberPrecision.ExactExactly` gives the exact condition, and `Number.QuotientIsCut` a family of
  operands that fail the documented one.
- `include/dross/thread/runloop.h:118-133` promises that run() waits for the next timer and returns
  once quit() is seen. The code reads the clock for a new pass, and again before it waits
  (`src/thread/runloop.cpp:236-250`); when a timer comes due between the two, nothing is found and
  run() returns. `RunLoopClass.EndsExactly` says exactly when, `RunLoopClass.EndsBetweenReads` gives
  the input, and without timers run() is as documented (`RunLoopClass.WithoutTimersOnlyQuitEnds`). A
  thread calls run() once (`src/thread/thread.cpp:212`), so a worker of a queue with a timer on its
  loop can end without a stop: the queue never gets stuck unless all of its workers ended that way
  (`QueueRuns.NeverStuck`), which a worker whose loop never got a timer rules out
  (`QueueRuns.NeverStuckWithoutTimers`), and otherwise can (`QueueRuns.StuckRun`).

## Model

| member | source | states |
|---|---|---|
| QueueProofs.StepKeeps | src/thread/operation_queue.cpp:70-416 | Whatever a caller, another loop, a timer or a worker does next, the whole invariant holds after it: each list, table, counter, flag, result and worker loop agrees with where every accepted task is. |
| QueueRuns.RunGoesOn | src/thread/operation_queue.cpp:70-416 | In any state a run has reached, every step that is enabled can happen and the longer run is a run: no call or worker ever finds the state unfit for it. |
| QueueRuns.EarliestNotWaiting | src/thread/operation_queue.cpp:349-367 | The earliest unfinished task is ready or running, never waiting for another. |
| QueueRuns.NeverStuck | src/thread/operation_queue.cpp:151-343 | In every reachable state, stopped or not, with a task unfinished some worker has a step to take if and only if not all of their loops have ended early for a timer. |
| QueueRuns.NoTimerNoLapse | src/thread/runloop.cpp:236-250 | A worker on whose loop no timer was ever installed has not ended early, whatever else happened in the run. |
| QueueRuns.NeverStuckWithoutTimers | src/thread/operation_queue.cpp:151-343 | With such a worker, in every reachable state a task unfinished means some worker has a step to take. |
| QueueRuns.LapsedForGood | src/thread/thread.cpp:211-222 | Once all workers have ended early it stays so, and no task ever starts again. |
| QueueRuns.StuckRun | src/thread/runloop.cpp:247-250 | For any number of workers there is a run that leaves an open queue with an accepted task and no worker that can take a step. |
| QueueRuns.QuietRunIsComplete | src/thread/operation_queue.cpp:283-343 | When no worker has a step left, and not all ended early for a timer, every accepted task was run to its end or cancelled; after a stop, all workers have ended. |
| QueueDrain.WorkersFinish | src/thread/operation_queue.cpp:305-367 | However workers take turns, or end early for a timer, with no call from outside, they take only so many steps as a measure of the state allows, so each run gets to where none has a step. |
| QueueRuns.RemainingIsExact | src/thread/operation_queue.cpp:256-272 | A waiting task's `remaining` is positive and counts the results it names that are not done, with repeats; its order is listed under each as often as it names it, and the results no longer listed have returned. |
| QueueRuns.StartsAfterAllReturned | src/thread/operation_queue.cpp:332-367 | The step that starts a task finds every result it runs after returned. |
| QueueRuns.CancelledNeverFollowed | src/thread/operation_queue.cpp:232-237 | A task that names a cancelled result has never started and is not unfinished. |
| QueueRuns.CancelIsForGood | src/thread/operation_queue.cpp:122-144 | Once a result is cancelled, no task naming it, accepted before or after, starts in any later state. |
| QueueRuns.ClosureIsLeast | src/thread/operation_queue.cpp:132-140 | The tasks a cancel takes are the least set with the named task in it and closed under "waits to run after". |
| QueueRuns.EveryTaskIsSomewhere | src/thread/operation_queue.cpp:432-442 | The unfinished tasks are the disjoint union of ready, waiting and running ones; every other accepted task was run once or cancelled, never both; none starts twice. |
| QueueRuns.PendingWhenReturned | src/thread/operation.cpp:146-157 | When a task returns, its result is still pending: no cancel got there first. |
| QueueRuns.PendingWhenCancelled | src/thread/operation.cpp:159-169 | Every result a cancel marks is still pending: no task filled it in first. |
| QueueRuns.RunGrows | src/thread/operation.cpp:146-169 | Over any run the log of accepted tasks and the list of started ones only grow, and a result that has left pending never changes. |
| QueueRuns.SettledStays | src/thread/operation_queue.cpp:172-188 | Once what a wait_for() waits for is settled it is settled in every later state. |
| QueueRuns.HighestPriorityStarts | src/thread/operation_queue.cpp:332-341 | A worker that asks while some task is ready starts one, and none that is ready has a higher priority. |
| QueueRuns.FirstAcceptedStartsFirst | src/thread/operation_queue.cpp:283-287 | Of two tasks of one priority that waited for nothing when accepted, the one accepted first starts first unless cancelled, under any interleaving. |
| CancelLoop.WorklistIsClosure | src/thread/operation_queue.cpp:131-140 | With every entry of the worklist processed, the orders on it are exactly the closure of the named task. |
| CancelLoop.WorklistStep | src/thread/operation_queue.cpp:132-140 | Each turn keeps the worklist: distinct entries, all reached from the named task, with every one reached from a processed entry on it. |
| CancelLoop.TookOutMarks | src/thread/operation_queue.cpp:371-392 | The search finds an entry exactly when the id names a task that has not started, and then that very task. |
| BacklogClass.Backlog.constructor | src/thread/operation_queue.cpp:57-63 | The new queue satisfies the invariant and is the initial state of runs. |
| BacklogClass.Backlog.Submit | src/thread/operation_queue.cpp:70-87 | Keeps the invariant and does the step, refusing an unnamed priority, a foreign result and a stopped queue, in that order, and dropping a task that names a cancelled result. |
| BacklogClass.Backlog.Enqueue | src/thread/operation_queue.cpp:92-112 | As submit, with a result: pending, or cancelled at once; a refused task takes no id. |
| BacklogClass.Backlog.CancelTask | src/thread/operation_queue.cpp:122-144 | The worklist ends and leaves the queue without exactly the closure of the named task, its results cancelled, and all else as it was; it answers whether the task had not started. |
| BacklogClass.Backlog.Stop | src/thread/operation_queue.cpp:151-167 | Every worker gets a finish behind what it has, once, and the queue accepts no more. |
| BacklogClass.Backlog.IsSettled | src/thread/operation_queue.cpp:176-178 | The look at the first unfinished order tells whether every task accepted before the target has finished or been cancelled. |
| BacklogClass.Backlog.Accept | src/thread/operation_queue.cpp:244-273 | The loop over `after` registers and counts each name of an unfinished result, and the task waits or becomes ready accordingly. |
| BacklogClass.Backlog.MakeReady | src/thread/operation_queue.cpp:283-296 | The task is last on its priority's list and every worker not sweeping has been handed one sweep. |
| BacklogClass.Backlog.Take | src/thread/operation_queue.cpp:332-344 | Gives the first task of the highest priority, or none and clears the worker's mark. |
| BacklogClass.Backlog.Done | src/thread/operation_queue.cpp:349-367 | Counts the result off each task listed, as often as it is listed, and makes ready those it was the last for. |
| BacklogClass.Backlog.TakeDependents | src/thread/operation_queue.cpp:397-416 | Takes exactly the tasks still waiting among those listed, each once, and skips stale orders. |
| BacklogClass.Backlog.TakeOut | src/thread/operation_queue.cpp:371-392 | Takes one entry with the id off a list or out of those waiting, or finds none anywhere. |
| OperationResultClass.DecidedStays | src/thread/operation.cpp:146-169 | A result undecided is one nobody finished or cancelled; once decided, later attempts change nothing. |
| OperationResultClass.OperationResult.Finish | src/thread/operation.cpp:146-157 | Adds an attempt; a result that had left pending keeps its state and value. |
| OperationResultClass.OperationResult.Cancel | src/thread/operation.cpp:159-169 | Adds an attempt; a result that had left pending keeps its state and value. |
| OperationResultClass.OperationResult.GetHeld | src/thread/operation.cpp:134-144 | Holds what the first of all attempts decided, or says there was none. |
| NumberText.IsValidNumber | src/type/number.cpp:134-222 | The scan accepts exactly the texts of the grammar: a sign, digits with a point, an exponent. |
| NumberText.ExpandExponent | src/type/number.cpp:229-296 | Gives NaN exactly when the expanded text would be too long; otherwise a valid text without exponent of the same value, of at most max(4096, written) digits. |
| NumberText.LongExponentIsTooLong | src/type/number.cpp:229-296 | For any text of up to 500 million digits, giving up early on an exponent of more than nine digits gives up on just what the limit rejects. |
| NumberText.ShortcutIsRightExactly | src/type/number.cpp:258-267 | It does so for all numbers of at most L written digits if and only if L is at most 500 million. |
| NumberText.LongExponentGivesUp | src/type/number.cpp:258-267 | From one digit more on it need not: a 1 with n zeros before it behind the point, times 10^e, for n + 1 <= e <= 2n + 2 and e of ten digits, needs no more digits than were written and becomes NaN. |
| NumberText.MakeCanonical | src/type/number.cpp:299-328 | Computes the canonical text of any string, valid or not. |
| NumberText.CanonicalOnce | src/type/number.cpp:299-328 | Any string becomes NaN or a canonical text, and again becomes the same. |
| NumberText.EqualTextsEqualValues | src/type/number.cpp:299-328 | Two valid texts have equal canonical texts if and only if they have equal values. |
| NumberText.NanExactly | src/type/number.cpp:299-328 | NaN comes of exactly the invalid texts and those too long. |
| NumberOrder.CompareNumbers | src/type/number.cpp:331-384 | The comparison by signs, lengths and digits gives the sign of the difference of the values. |
| NumberOrder.Compare | src/type/number.cpp:918-941 | Orders stored numbers by value, with NaN lowest. |
| NumberOrder.OrderIsTotal | src/type/number.cpp:918-941 | The order is antisymmetric, equivalent only on equal texts, and NaN is below all. |
| NumberOrder.OrderIsTransitive | src/type/number.cpp:918-941 | The order is transitive, NaN included. |
| NumberSum.AddPositive | src/type/number.cpp:387-437 | Column addition with carries over the point gives the canonical text of the exact sum. |
| NumberSum.SubtractPositive | src/type/number.cpp:440-499 | Column subtraction with borrows gives the canonical text of the exact difference. |
| NumberProduct.AddRow | src/type/number.cpp:519-528 | One row added in place: cells exceed 9 on the way, no carry is lost, and after the row all are digits and stand for the product so far. |
| NumberProduct.MultiplyRows | src/type/number.cpp:517-528 | All rows give cells that are digits and stand for the product. |
| NumberProduct.MultiplyPositive | src/type/number.cpp:502-553 | The canonical text of the exact product. |
| NumberQuotient.DivideExactly | src/type/number.cpp:556-567 | The integer quotient by a one-digit divisor. |
| NumberQuotient.IsMultipleOf | src/type/number.cpp:570-586 | Tells by repeated subtraction whether one number divides another. |
| NumberQuotient.LongDivide | src/type/number.cpp:620-648 | Repeated subtraction digit by digit gives the integer quotient and remainder. |
| NumberQuotient.DivideDigits | src/type/number.cpp:619-713 | The text of the quotient: exact, or truncated toward zero where the significant digits wanted, or those of the integer part, are reached; every loop ends. |
| NumberDivisor.FiniteExactly | src/type/number.cpp:650-669 | What the divisor leaves without its twos and fives divides the dividend if and only if the quotient terminates. |
| NumberDivisor.ExactWithPlaces | src/type/number.cpp:668-669 | The larger of the two exponents is places enough. |
| NumberPrecision.ExactExactly | src/type/number.cpp:650-699 | The text of the quotient stands for exactly the quotient if and only if the guard of the code holds, or the divisor without its twos and fives divides the dividend and the digits of the quotient, without zeros at the end, are no more than a cut one keeps. |
| NumberPrecision.ExactIsLonger | src/type/number.cpp:650-699 | These digits are the fewest any exact form of the quotient has. |
| NumberPrecision.TerminatesButIsCut | include/dross/type/number.h:383-387 | For all such powers of two the quotient terminates well within 4096 digits and what long division leaves is yet not zero. |
| Number.QuotientIsCut | include/dross/type/number.h:383-387 | The same through '/': any result for the texts of these powers differs from their quotient. |
| NumberPrecision.CutIsTruncation | src/type/number.cpp:675-699 | What is cut off is less than one unit in the last place kept, and nothing exactly when the remainder is zero. |
| NumberPrecision.QuotientIsOne | src/type/number.cpp:590-714 | Operands determine the text of their quotient: the specification admits one. |
| Number.DividePositive | src/type/number.cpp:590-714 | The quotient of two unsigned texts as specified, NaN exactly for a zero divisor. |
| Number.ModuloPositive | src/type/number.cpp:717-739 | The canonical text of the remainder of integers, NaN exactly for a zero divisor. |
| Number.PerformArithmetic | src/type/number.cpp:742-830 | For every pair of stored texts and every operator, the text made canonical is the specified result, through every case of signs and magnitudes. |
| Number.Calculate | src/type/number.cpp:1017-1022 | The result is stored form and exact: sum, difference, product, specified quotient or remainder, or NaN. |
| Number.QuotientIsTruncated | src/type/number.cpp:804-813 | The quotient of integers has the truncated one before its point, whether it is exact or cut. |
| Number.RemainderLaw | src/type/number.cpp:804-825 | For the texts q of a / b and r of a % b, integers: a = whole(q) * b + r, with r smaller than b, and zero or of a's sign. |
| Number.Commutes | src/type/number.cpp:742-803 | Sums and products do not depend on the order of operands. |
| Number.SubtractingUndoesAdding | src/type/number.cpp:1017-1022 | Subtracting what was added gives back the very text. |
| Deadline.AfterFits | src/thread/deadline.cpp:5-15 | No term computed leaves 64 bits. |
| Deadline.AfterGrows | src/thread/deadline.cpp:5-15 | A later base gives no earlier deadline. |
| Deadline.After | src/thread/deadline.cpp:5-15 | The deadline is base plus timeout, or the limit when that is within a millisecond of it or beyond; never before the base or past the limit. |
| Timers.TimerSchedule.Remove | src/thread/timer_schedule.h:67-80 | Takes out the timer with an id and leaves the others in their order. |
| Timers.TimerSchedule.Earliest | src/thread/timer_schedule.h:94-102 | The least deadline, or the latest time when none is installed. |
| Timers.TimerSchedule.TakeDue | src/thread/timer_schedule.h:104-153 | Claims the earliest due timer not handled, the first of equals, reschedules or removes it, and records it. |
| Timers.DrainIsStableSort | src/thread/timer_schedule.h:104-153 | Draining a pass claims exactly the due timers not handled, each once, in the order of a stable sort by deadline, whenever the claims are made and however soon a timer is due again. |
| Timers.DrainEnds | src/thread/timer_schedule.h:104-153 | With any clock the drain ends. |
| Timers.NoCatchUp | src/thread/timer_schedule.h:134-147 | Two claims of a repeating timer are at least its interval apart, whatever was installed, removed or claimed in between. |
| RunLoopClass.BoundedBypass | src/thread/runloop.cpp:193-295 | While a task is queued, timer fires before it are bounded by the timers installed, once for each task up to it; one installed meanwhile counts as often. |
| RunLoopClass.FrontTaskWaits | src/thread/runloop.cpp:213-231 | The first task waits for at most as many fires as there are timers, those installed while it waits among them. |
| RunLoopClass.RunLoop.Enqueue | src/thread/runloop.cpp:109-129 | Appends the task with the next number, unless the loop has finished; queued numbers stay increasing and below the next. |
| RunLoopClass.RunLoop.TakeDueTimer | src/thread/runloop.cpp:168-171 | Claims by the pass at the time now. |
| RunLoopClass.EndsExactly | src/thread/runloop.cpp:206-250 | A look finds nothing, and run() ends, exactly for a quit, or when nothing is queued and no timer is due at the first read of the clock but at the second the deadline has passed or some timer is due. |
| RunLoopClass.WithoutTimersOnlyQuitEnds | include/dross/thread/runloop.h:118-133 | Without timers run() ends if and only if it is told to quit, as documented. |
| RunLoopClass.EndsBetweenReads | src/thread/runloop.cpp:236-250 | With a timer it ends for no quit when the clock reaches the timer's deadline between the reads, whatever the deadline; both reads before it wait for the timer, and both at it fire it. |
| RunLoopClass.RunLoop.Next | src/thread/runloop.cpp:193-257 | Takes a due timer of the pass before a task and a task before a new pass, and otherwise gives the time to wait until, or nothing; which of these is determined by the state and two ordered reads of the clock. |
| RunLoopClass.RunLoop.RunUntil | src/thread/runloop.cpp:193-295 | The loop of run() and run_for() with its waits, for any number of turns: it runs tasks in the order they were posted, and before one that was queued when it began no more timers fire than the bound, whatever tasks and other threads post, install, remove or quit meanwhile, short of clearing the queue. It ends for a quit that somebody asked for, which the outermost call consumes, for its deadline passed, or, with a timer only, for one that came due between two reads of the clock. |
| RunLoopClass.RunLoop.FireDue | src/thread/runloop.cpp:336-343 | Fires timers that are due by the start, each once, until none is left, even one due again at once and those installed meanwhile. |
| RunLoopClass.RunLoop.RunPending | src/thread/runloop.cpp:322-358 | Runs only tasks queued before the call, in order, all of them unless something clears the queue, whatever tasks and timers post; fires only timers that were due when it read the clock at its start, each once, and leaves none of those unfired; any number of timers may be installed meanwhile. |
| Calendar.DayReadsBack | src/type/timestamp.cpp:371-376 | The date of any day of the years 0 to 9999 is a date, of that day. |
| Calendar.DateReadsBack | src/type/timestamp.cpp:356-359 | The day of any date is in those years, and its date is that one. |
| Calendar.DatesInOrder | src/type/timestamp.cpp:155-160 | Days are in the order of their dates. |
| ClockTime.InClockIsExact | src/type/timestamp.cpp:60-73 | A sum of terms of one sign is given exactly when 64 bits hold it, and what is computed on the way fits them, whether the sum is given or refused. |
| ClockTime.TimePointIsFloor | src/type/timestamp.cpp:378-387 | The floor in ticks, exactly when it fits, for any tick. |
| ClockTime.DurationIsTruncated | src/type/timestamp.cpp:413-419 | The difference in ticks toward zero, exactly when it fits. |
| ClockTime.TicksReadBack | src/type/timestamp.cpp:312-322 | The seconds and fraction taken from ticks are at those ticks, and the truncated seconds in ticks fit in 64 bits for any ticks that do. |
| Instants.AddMoves | src/type/timestamp.cpp:463-474 | Adding moves the instant by exactly the duration, keeps the offset, and is refused exactly when the local time would leave the years 0 to 9999; no term needs more than 64 bits. |
| Instants.AddTwice | src/type/timestamp.cpp:463-474 | Adding in two steps is adding the sum. |
| Instants.SubtractUndoesAdd | src/type/timestamp.cpp:476-483 | Taking away what was added gives the same date, time and offset. |
| Instants.OrderIsOfInstants | src/type/timestamp.cpp:403-411 | Timestamps are ordered and equal as the instants they stand for. |
| Instants.TimePointExactly | src/type/timestamp.cpp:378-387 | A timestamp is at the tick its instant falls in, given exactly when it fits; no term on the way overflows. |
| Instants.SinceExactly | src/type/timestamp.cpp:413-419 | The time between timestamps is that between their instants, toward zero, given exactly when it fits; no term on the way overflows. |
| Instants.SinceIsWhatWasAdded | src/type/timestamp.cpp:413-474 | The duration since a timestamp of the one it was moved to is what was added. |
| Instants.TimePointReadsBack | src/type/timestamp.cpp:312-334 | A time point becomes a timestamp exactly in the years 0 to 9999, and that one is at the time point again. |
| Timestamps.IsoReadsBack | src/type/timestamp.cpp:269-310 | Reading the ISO 8601 text of any timestamp gives back its date, nanoseconds and offset. |
| Timestamps.OffsetReadsBack | src/type/timezone.cpp:49-123 | Every offset reads back from its text, with the colon or without. |
| Utf8.IsValidUtf8 | src/format/toml.cpp:23-70 | The scan accepts exactly what splits into sequences of Unicode Table 3-7. |
| Utf8.EncodedIsUtf8 | src/format/toml.cpp:121-138 | Any encoded scalar values are accepted. |
| Utf8.Utf8IsEncoded | src/format/toml.cpp:23-70 | Any accepted text is encoded scalar values. |
| Utf8.EncodingIsUnique | src/format/toml.cpp:121-138 | The text determines the scalar values. |
| TomlText.QuotedReadsBack | src/format/toml.cpp:1257-1298 | Any byte string escaped and quoted reads back as itself, before any text, up to the closing quote. |
| TomlText.KeyReadsBack | src/format/toml.cpp:1239-1255 | Any key, bare or quoted, reads back as itself. |
| TomlText.EscapeKeepsUtf8 | src/format/toml.cpp:1257-1298 | The escaped text is valid UTF-8 if and only if the text is. |
| TomlIntegers.ChunkValue | src/format/toml.cpp:988-999 | The value of one chunk of binary, octal or hexadecimal digits stays below 2^63. |
| TomlIntegers.ChunkedValue | src/format/toml.cpp:976-1005 | Accumulating chunks with numbers gives the decimal text of the plain positional value, for any number of digits. |
| TomlNumbers.NumberReadsBack | src/format/toml.cpp:1027-1092 | Every number reads back with its digits, as it is written. |
| TomlNumbers.MomentReadsBack | src/format/toml.cpp:901-968 | Every timestamp reads back, before anything that can follow a value. |
| TomlReadsBack.ValueReadsBack | src/format/toml.cpp:738-862 | Every value, nested to any depth, reads back from what is written for it. |
| TomlReadsBack.NormalIsEqual | src/format/toml.cpp:1182-1210 | What is read back differs at most in whether a number counts as floating point. |
| TomlReadsBack.NormalWrites | src/format/toml.cpp:1182-1237 | And is written with the same bytes. |
| TomlTree.AddPairSound | src/format/toml.cpp:402-439 | An accepted pair keeps pairs and tables apart, arrays non-empty and no table both named and dotted, everywhere in the tree. |
| TomlTree.OpenSound | src/format/toml.cpp:443-475 | So does an accepted header, and it leads to the table it opened. |
| TomlLeaves.PairAddsOneLeaf | src/format/toml.cpp:421-439 | An accepted pair puts its value at one place that had none and changes no other. |
| TomlLeaves.HeaderAddsNoLeaf | src/format/toml.cpp:443-475 | An accepted header adds and changes no value. |
| TomlLeaves.MergedGet | src/format/toml.cpp:340-355 | Merging overwrites nothing: each key names the pair it did or the table under it. |
| TomlLeaves.LeafIsFound | src/format/toml.cpp:340-355 | Every value put in the tree is in the dictionary at its place. |
| TomlLeaves.FoundIsLeaf | src/format/toml.cpp:340-355 | And every string, number, boolean and timestamp in the dictionary was put there, or is inside a value that was. |
| TomlConservation.LinesConserve | src/format/toml.cpp:288-337 | After any accepted lines each place holds what a line put there, or what it held. |
| TomlConservation.DocumentConserves | src/format/toml.cpp:288-355 | The dictionary of any accepted document holds exactly the values of its lines, at the places their headers and keys name. |
| TomlTables.DictionaryApplies | src/format/toml.cpp:1146-1173 | The lines written for a dictionary, all accepted, build its tree at its path and leave the rest of the document's tree. |
| TomlTables.BuildMerges | src/format/toml.cpp:340-355 | That tree merges to the dictionary. |
| TomlRoundTrip.RoundTrip | src/format/toml.cpp:1325-1346 | What serialize() writes for any dictionary, deserialize() reads back with equal values, and that is written with the same bytes. |
| TomlValidText.SerializesExactly | src/format/toml.cpp:1100-1119 | Serializing succeeds if and only if there is no NaN and every string and key is valid UTF-8. |
| TomlParser.Parser.BasicText | src/format/toml.cpp:588-620 | The string loop with its escapes reads what the grammar function says, and stops there or fails. |
| TomlParser.Parser.MultiLineText | src/format/toml.cpp:662-727 | So does the loop over multi-line strings, with up to two quotes before the closing ones. |
| TomlParser.Parser.PrefixedInteger | src/format/toml.cpp:976-1005 | Reads a prefixed integer to the decimal text of its positional value. |
| TomlParser.Parser.AnyValue | src/format/toml.cpp:738-862 | Reads a value as the grammar functions say and stops after it. |
| TomlParser.Parser.HeaderLine | src/format/toml.cpp:357-400 | Reads a header's key path. |
| TomlParser.ReadDocument | src/format/toml.cpp:1325-1340 | The parser accepts exactly the documents the specification does, with the same dictionary. |
| TomlWriter.EscapeString | src/format/toml.cpp:1257-1298 | The loop writes the escape of each character in turn. |
| TomlWriter.Serializer.Dictionary | src/format/toml.cpp:1146-1173 | Appends exactly the text of the dictionary under its path, or fails for exactly a NaN. |
| TomlWriter.WriteDocument | src/format/toml.cpp:1342-1346 | The serializer writes exactly what the specification does and refuses what it refuses. |

## Left out

What the theorems assume:

- Queue runs: a task that is started returns, without throwing; only the queue quits, clears or runs its workers' loops; tasks and other threads may post to these loops and install and remove timers there. When a timer is due is left open, so a loop with a timer on it may end early whenever it has nothing queued. Lock-held sections are atomic.
- The order counters, ids and sequence numbers are unbounded; the code's 64-bit ones do not wrap in practice.
- Numbers have fewer than about 10^9 digits, where the code's int indices stop applying.
- Timers are told apart by their ids, which the library gives out once each.

Stated weaker, or modelled in another form than the code's:

- QueueDrain.WorkersFinish: counts worker steps with no call from outside; a task that keeps submitting others may of course run for ever.
- NumberPrecision.ExactExactly: in terms of the scaled operands, as the code decides it; the documented wording is false, as said above.
- NumberText.LongExponentIsTooLong: for texts of at most 500 million digits, beyond which it is false, as NumberText.ShortcutIsRightExactly says.
- RunLoopClass.BoundedBypass: as long as nothing clears the queue, which takes the task too.
- RunLoopClass.RunLoop.Next: is one look under the lock; where the code waits and looks again, it returns the time to wait until, and RunLoopClass.RunLoop.RunUntil waits and looks again. That run() ends only for a quit is false of the code, as said above.
- RunLoopClass.RunLoop.RunUntil: stops after a given number of turns, any number, since a run may go on for ever, and says then that it was left off; others may do anything meanwhile but run the same loop again.
- RunLoopClass.RunLoop.RunPending: while a task runs others may do anything but run the same loop again; how many timers they install at most is given, any number.
- TomlParser.ReadDocument: gives a dictionary or a failure, not the text, line and column of the error.
- The table tree is a value, and the table the last header opened a path to it; the code keeps a pointer into a tree it changes in place. Dictionaries are sequences sorted by key.
- append_utf8 adds disjoint bits where the code combines them with `|`.
- Timestamps and offsets are values; the parts of the regular expressions are read as fixed fields.
- Calendar: std::chrono's civil calendar is given by its rules (leap years, lengths of months) and proved to be one date for each day.

Not modelled:

- Waiting on condition variables, wait_for()'s clock loop, run_one() (one look, which can find nothing in the same way), nested runs, shutdown and the handles around the backlog.
- What tasks compute, exceptions they throw, when captures are destroyed, allocation failure.
- Threads, thread-local run loops and teardown.
- Whether a number counts as floating point in arithmetic, and conversions from and to double and int.
- Clamping constructors and throwing operators of timestamps, custom formats, date and time accessors.
- Types that only wrap a standard container, the filesystem, and error messages.
