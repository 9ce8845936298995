# CPU scheduling simulator: the scheduling engine

This project models the six scheduling strategies of `SchedulerApp` in
`CPUSchedulingGUI/cpuScheduler.py`: first come first served (`fcfs`),
shortest job first (`sjf`), non-preemptive priority (`npp`), shortest
remaining time first (`srtf`), preemptive priority (`pp`) and round robin
(`round_robin`). Each strategy takes the process names and their burst
times, plus priorities or a time quantum where it needs them. It returns the
execution trace as `(process, start, end)` intervals.

The model separates what a strategy decides from how the trace is laid out:

- `Trace` (trace.dfy) holds the trace entries (`Interval`) and the
  decisions (`Slice`: a process index and a length). `Lay` places the
  decisions back to back from a start time, as every strategy does with its
  `current_time` accumulator. It also defines conservation of work (every
  process runs for exactly its burst) and proves that a conserving schedule
  covers `[0, sum of bursts]` without gap or overlap.
- `Selection` (selection.dfy) holds the two selection rules the strategies
  use. `MinAvailable` is Python's `min` over the processes with work left,
  which keeps the first of equal keys. `StableOrder` is Python's `sorted`
  by key, a stable insertion sort of indices. It is proved to be a
  permutation, sorted, stable and the unique such order.
- `RunToCompletion` (run_to_completion.dfy) holds `fcfs`, `sjf` and `npp`.
  They are methods over one shared loop, `RunInOrder`, proved against the
  specification function `InOrder`.
- `Preemptive` (preemptive.dfy) holds `srtf` and `pp`. They are methods
  over one shared loop, `RunUnitSteps`, which mutates a copy of the
  remaining times. That loop is proved against the specification function
  `UnitSlices`. With every process ready at time 0, the model proves that
  `srtf` is `sjf` cut into unit steps and that `pp` is `npp` cut into unit
  steps.
- `TimeSlicing` (round_robin.dfy) holds `round_robin`. It is a method with
  the source's queue and remaining-time list, proved against the
  specification function `RoundRobinSlices` over a queue of
  (index, time left) entries.

Each source method builds two identical lists, `timeline` and
`gantt_chart`. Every `append` to one is repeated with the same tuple on the
other, so the model returns a single trace that stands for both.

## Model

| member | source | states |
|---|---|---|
| Trace.Lay | CPUSchedulingGUI/cpuScheduler.py:79-84 | The `current_time` accumulator: decisions laid out back to back from `from`, one interval per decision, named after its process. The same appends occur at lines 95-97, 108-110, 124-127 and 161-169. `LayContiguous` and `LayAt` state where each interval starts and ends. |
| Trace.LayContiguous | CPUSchedulingGUI/cpuScheduler.py:82-84 | Intervals laid out from `from` have no gap. Each starts where the previous one ended, and the first starts at `from`. The trace ends at `from` plus the decisions' total time, and interval k carries the process and length of decision k. |
| Trace.LayAt | CPUSchedulingGUI/cpuScheduler.py:82-84 | Interval k runs from `from` plus the time of the decisions before k to `from` plus the time of the decisions up to and including k. |
| Trace.Coverage | CPUSchedulingGUI/cpuScheduler.py:79-84 | A schedule that gives every process exactly its burst is laid out contiguously from 0 and ends at the sum of the bursts. |
| Trace.TotalIsWork | CPUSchedulingGUI/cpuScheduler.py:84 | When every decision names a process below n, their total time is the sum of the work each of those processes gets. |
| Trace.SumUpdate | CPUSchedulingGUI/cpuScheduler.py:126 | Changing one remaining time changes the sum of the remaining times by exactly the difference. |
| Trace.SumNonNegative | CPUSchedulingGUI/cpuScheduler.py:120 | Non-negative remaining times have a non-negative sum, which is 0 exactly when every entry is 0. |
| Selection.Range | CPUSchedulingGUI/cpuScheduler.py:153 | The indices 0 to n - 1 in increasing order, as `range(n)` lists them. `RangeDistinct` and `RangeIndices` show that each occurs exactly once. |
| Selection.MinAvailable | CPUSchedulingGUI/cpuScheduler.py:121-123 | No result exactly when no process has remaining time above 0. Otherwise the result has work left, no available process has a smaller key, and every available process before it has a strictly larger key (ties go to the lowest index). |
| Selection.FirstMinUnique | CPUSchedulingGUI/cpuScheduler.py:123 | At most one index meets the choice rule of `min`, so the choice is determined. |
| Selection.MinAvailableAgrees | CPUSchedulingGUI/cpuScheduler.py:138-140 | The choice depends only on the keys of available processes. A key that `zip` never pairs with a process that has time left cannot change the choice. |
| Selection.SortBelowPermutation | CPUSchedulingGUI/cpuScheduler.py:93 | The stable sort of the first n indices lists each of them exactly once. |
| Selection.SortBelowIndices | CPUSchedulingGUI/cpuScheduler.py:93 | The multiset of the sorted indices is exactly the indices below n, each once. |
| Selection.InsertOrdered | CPUSchedulingGUI/cpuScheduler.py:93 | Inserting a larger index behind every element whose key is at most its own keeps the order sorted by key, with equal keys in input order. |
| Selection.SortBelowOrdered | CPUSchedulingGUI/cpuScheduler.py:93 | The sort of the first n indices is ordered by key, with equal keys in input order. |
| Selection.StableOrder | CPUSchedulingGUI/cpuScheduler.py:93 | The order in which `sorted(..., key=...)` lists the indices (also at line 106). `StableOrderCorrect` shows it is a permutation in non-decreasing key order that keeps input order on ties. `StableOrderUnique` shows it is the only such order. |
| Selection.StableOrderCorrect | CPUSchedulingGUI/cpuScheduler.py:93 | `sorted` by key lists every index once, keys never decrease, and equal keys keep their input order. |
| Selection.StableOrderUnique | CPUSchedulingGUI/cpuScheduler.py:93 | Any permutation of the indices that is sorted by key with equal keys in input order is `StableOrder`. Every stable sort agrees with the model. |
| Selection.PermutationHasAll | CPUSchedulingGUI/cpuScheduler.py:93 | A permutation of the first n indices contains each of them. |
| Selection.PermutationDistinct | CPUSchedulingGUI/cpuScheduler.py:93 | In a permutation of the first n indices each of them occurs once and no other index occurs. |
| RunToCompletion.Paired | CPUSchedulingGUI/cpuScheduler.py:81 | How many tuples `zip` yields: no more than either list's length, and equal to one of them, so the shorter length. The same truncation applies at line 93, and at line 106 with the priorities as a third list. |
| RunToCompletion.InOrder | CPUSchedulingGUI/cpuScheduler.py:94-97 | One decision per listed process, in list order, each running that process for its full burst. |
| RunToCompletion.InOrderWork | CPUSchedulingGUI/cpuScheduler.py:94-97 | A process listed once gets exactly its burst; one not listed gets nothing. |
| RunToCompletion.RunToCompletionCovers | CPUSchedulingGUI/cpuScheduler.py:93-97 | Running a permutation of the paired processes to completion gives every process its burst. The trace is contiguous from 0 and ends at the sum of the paired bursts. |
| RunToCompletion.RunInOrder | CPUSchedulingGUI/cpuScheduler.py:94-97 | The append loop with its `current_time` accumulator returns exactly the listed processes laid out back to back from 0. |
| RunToCompletion.InputOrderStarts | CPUSchedulingGUI/cpuScheduler.py:81-84 | In input order, the decisions before k take as long as the bursts before k. |
| RunToCompletion.Fcfs | CPUSchedulingGUI/cpuScheduler.py:76-86 | One interval per pair `zip` yields. Interval k is process k from the sum of the bursts before k, for burst k. The trace is contiguous from 0 and ends at the sum of the paired bursts. |
| RunToCompletion.ShortestFirst | CPUSchedulingGUI/cpuScheduler.py:93-97 | Laid out in stable order by burst, no interval is longer than a later one. |
| RunToCompletion.Sjf | CPUSchedulingGUI/cpuScheduler.py:88-99 | The paired processes in stable order by burst, laid out from 0. Interval lengths never decrease, and the trace is contiguous and ends at the sum of the paired bursts. |
| RunToCompletion.Npp | CPUSchedulingGUI/cpuScheduler.py:101-112 | The processes `zip` pairs with a burst and a priority, in stable order by priority value, each run for its burst from 0. The trace is contiguous and ends at the sum of those bursts. |
| RunToCompletion.StableOrderExample | CPUSchedulingGUI/cpuScheduler.py:93 | Keys [5, 2, 5, 1] sort as indices 3, 1, 0, 2: equal keys keep input order. |
| RunToCompletion.SjfExample | CPUSchedulingGUI/cpuScheduler.py:88-99 | A, B, C, D with bursts [5, 2, 5, 1] run as D(0-1), B(1-3), A(3-8), C(8-13). |
| Preemptive.Any | CPUSchedulingGUI/cpuScheduler.py:120 | Python's `any`: some remaining time is non-zero (also at line 137). `AnyIsAvailable` ties it to `available` being non-empty, and `NothingLeft` to the empty schedule. |
| Preemptive.UnitSlices | CPUSchedulingGUI/cpuScheduler.py:120-127 | The unit-time strategy makes as many decisions as the remaining times add up to. Each decision runs a valid process for one time unit. |
| Preemptive.UnitSlicesConserve | CPUSchedulingGUI/cpuScheduler.py:117-127 | Every process runs for exactly its remaining time, counted in unit steps, and no other process appears. |
| Preemptive.UnitSlicesRun | CPUSchedulingGUI/cpuScheduler.py:121-124 | Only a process that had remaining time above 0 is ever chosen, so `processes[i]` is only read for such a process. |
| Preemptive.NamedSlices | CPUSchedulingGUI/cpuScheduler.py:121-124 | When every process past the end of `processes` has burst 0, every chosen index has a name. |
| Preemptive.ConservesStep | CPUSchedulingGUI/cpuScheduler.py:126 | One unit of process i followed by a schedule that conserves the times with i's decreased by 1 conserves the original times. |
| Preemptive.UnitSlicesStep | CPUSchedulingGUI/cpuScheduler.py:123-127 | One loop iteration: the `min` choice has work left and runs one unit. The rest of the schedule is the schedule from the same remaining times with only that entry decreased by 1. |
| Preemptive.AnyIsAvailable | CPUSchedulingGUI/cpuScheduler.py:120-122 | With non-negative remaining times the loop guard `any(remaining_times)` holds exactly when `available` is non-empty. |
| Preemptive.NothingLeft | CPUSchedulingGUI/cpuScheduler.py:120 | When no remaining time is non-zero the schedule is empty. |
| Preemptive.LayStep | CPUSchedulingGUI/cpuScheduler.py:123-127 | One iteration at time t appends the chosen process, which has a name, from t to t + 1. The remaining times stay non-negative, their sum strictly decreases, and the rest of the schedule still names only named processes. |
| Preemptive.UnitTimes | CPUSchedulingGUI/cpuScheduler.py:124-127 | Unit decisions laid out from `from` put interval k at [from + k, from + k + 1]. |
| Preemptive.RunUnitSteps | CPUSchedulingGUI/cpuScheduler.py:117-127 | The `while any(remaining_times)` loop over a copy of the bursts only ever names a process that has a name. It returns exactly the unit-time schedule laid out from 0. |
| Preemptive.Srtf | CPUSchedulingGUI/cpuScheduler.py:114-129 | Whenever only named processes have time to run, every interval names a process. The trace is the shortest-remaining-time schedule from 0. It has one interval per unit of total burst, and interval k runs from k to k + 1. |
| Preemptive.Pp | CPUSchedulingGUI/cpuScheduler.py:131-146 | Whenever only named processes with a priority have time to run, every interval names a process. The trace is the lowest-priority-value schedule from 0, keyed by the priorities `zip` pairs with the remaining times. It has one interval per unit of total burst, and interval k runs from k to k + 1. |
| Preemptive.ZippedKeys | CPUSchedulingGUI/cpuScheduler.py:138 | The priority `zip(remaining_times, priorities)` pairs with each of the first n processes: one key per process, equal to its priority wherever it has one. A process without a priority gets a stand-in that `MinAvailableAgrees` shows is never consulted. |
| Preemptive.InOrderFrame | CPUSchedulingGUI/cpuScheduler.py:126 | Changing the remaining time of a process the order does not list leaves its run-to-completion decisions unchanged. |
| Preemptive.HeadRuns | CPUSchedulingGUI/cpuScheduler.py:126 | Running the head of the sorted order one unit keeps the key of every other process in the order, and does not raise the head's key above its rank. |
| Preemptive.HeadIsFirstMin | CPUSchedulingGUI/cpuScheduler.py:121-123 | While the processes before the head are done, `min` chooses the head of the sorted order. |
| Preemptive.SplitHead | CPUSchedulingGUI/cpuScheduler.py:94-97 | A run-to-completion schedule cut into unit steps starts with the head's burst as unit steps. |
| Preemptive.SplitAfterHeadRuns | CPUSchedulingGUI/cpuScheduler.py:126 | Running the head one unit removes exactly one unit step from the front of the cut schedule. |
| Preemptive.UnitIsSplit | CPUSchedulingGUI/cpuScheduler.py:120-127 | When every ready process is in an order sorted by rank, the unit-time schedule is that order run to completion and cut into unit steps. |
| Preemptive.HeadStepKeeps | CPUSchedulingGUI/cpuScheduler.py:126 | After the head runs one unit, the premises of `UnitIsSplit` still hold and the total remaining time is smaller. |
| Preemptive.SrtfIsSjfInUnits | CPUSchedulingGUI/cpuScheduler.py:114-129 | With non-negative bursts, shortest remaining time first is shortest job first (stable order by burst) cut into unit steps. |
| Preemptive.PpIsNppInUnits | CPUSchedulingGUI/cpuScheduler.py:131-146 | With non-negative bursts and one priority per burst, preemptive priority is non-preemptive priority cut into unit steps. `Pp` keys by `ZippedKeys`, which always has one entry per burst, so the lemma applies to what `Pp` computes. |
| Preemptive.SrtfExample | CPUSchedulingGUI/cpuScheduler.py:114-129 | A (burst 3) and B (burst 1) run as B(0-1), A(1-2), A(2-3), A(3-4). |
| Preemptive.SrtfTieExample | CPUSchedulingGUI/cpuScheduler.py:120-127 | Equal bursts [4, 4]: process 0 runs four unit steps, then process 1 runs four. Ties go to the lower index. |
| Preemptive.PpExampleSlices | CPUSchedulingGUI/cpuScheduler.py:137-144 | Bursts [2, 1, 1] and priorities [2, 1, 2] run process 1, then process 0 twice, then process 2. The tie keeps 0 ahead of 2. |
| TimeSlicing.Rounds | CPUSchedulingGUI/cpuScheduler.py:160-169 | A process takes at least one turn. |
| TimeSlicing.RoundsCoverBurst | CPUSchedulingGUI/cpuScheduler.py:160-169 | A process with work left takes the fewest turns of the quantum that cover its time: (turns - 1) * quantum < time <= turns * quantum. |
| TimeSlicing.Turn | CPUSchedulingGUI/cpuScheduler.py:160-169 | How long the front process runs: the quantum or its time left, whichever is smaller. The length is no more than either, and equal to one of them. |
| TimeSlicing.RoundRobinSlices | CPUSchedulingGUI/cpuScheduler.py:155-169 | One decision per turn the queue still has to take, none longer than the quantum. |
| TimeSlicing.RoundRobinHead | CPUSchedulingGUI/cpuScheduler.py:156-169 | The front entry runs for min(time left, quantum). It goes to the back with the quantum subtracted exactly when its time exceeds the quantum; otherwise it leaves the queue. |
| TimeSlicing.RoundRobinWork | CPUSchedulingGUI/cpuScheduler.py:155-169 | Every process runs for exactly the time its queue entries hold. |
| TimeSlicing.RoundRobinTurns | CPUSchedulingGUI/cpuScheduler.py:160-165 | Each process gets exactly the number of turns its time calls for. |
| TimeSlicing.FirstRound | CPUSchedulingGUI/cpuScheduler.py:153-158 | The first round serves the initial queue in order: decision k is the turn of entry k. |
| TimeSlicing.RoundRobinIndexes | CPUSchedulingGUI/cpuScheduler.py:156-157 | Every decision names a process of the queue. |
| TimeSlicing.AmountOfQueue | CPUSchedulingGUI/cpuScheduler.py:158 | In a queue without repeats, a process's queued time is its remaining time if it is queued and 0 if not. |
| TimeSlicing.RangeDistinct | CPUSchedulingGUI/cpuScheduler.py:153 | `list(range(n))` holds each index below n exactly once. |
| TimeSlicing.RoundRobinCovers | CPUSchedulingGUI/cpuScheduler.py:152-169 | Every process gets exactly its burst. The trace is contiguous from 0 and ends at the sum of the bursts. |
| TimeSlicing.PopAndRequeue | CPUSchedulingGUI/cpuScheduler.py:156-165 | Popping the front index and appending it with its time reduced by the quantum gives the entry queue's tail plus that reduced entry. |
| TimeSlicing.RequeueDistinct | CPUSchedulingGUI/cpuScheduler.py:156-165 | Popping and re-appending the front keeps the queue free of repeats. |
| TimeSlicing.RequeueFewer | CPUSchedulingGUI/cpuScheduler.py:160-165 | A turn that sends the front back strictly decreases the turns left, so the loop terminates. |
| TimeSlicing.LastTurnFewer | CPUSchedulingGUI/cpuScheduler.py:166-169 | A last turn strictly decreases the turns left. |
| TimeSlicing.RequeueUnfolds | CPUSchedulingGUI/cpuScheduler.py:160-165 | The loop from a state whose front needs more than the quantum appends a quantum-long interval for it, then continues from the state with the front re-queued. |
| TimeSlicing.LastTurnUnfolds | CPUSchedulingGUI/cpuScheduler.py:166-169 | The loop from a state whose front fits in the quantum appends an interval for its remaining time, then continues without it. |
| TimeSlicing.RequeueStep | CPUSchedulingGUI/cpuScheduler.py:160-165 | The specified schedule of a queue whose front is re-queued is the quantum-long interval followed by the schedule of the new queue. |
| TimeSlicing.LastTurnStep | CPUSchedulingGUI/cpuScheduler.py:166-169 | The specified schedule of a queue whose front finishes is its last interval followed by the schedule of the rest. |
| TimeSlicing.Run | CPUSchedulingGUI/cpuScheduler.py:155-169 | The `while queue:` loop as a function of its state. It pops the front, appends its interval at the clock, and re-queues the front when its time left exceeds the quantum. `RunIsSchedule` shows it equals the round robin schedule laid out from the clock. |
| TimeSlicing.RunIsSchedule | CPUSchedulingGUI/cpuScheduler.py:155-169 | From any state (remaining times, a queue without repeats, a time), the loop's output is the round robin schedule of that queue laid out from that time. |
| TimeSlicing.Finished | CPUSchedulingGUI/cpuScheduler.py:153-171 | The loop's output from `list(range(n))` is the round robin schedule, with every property `RoundRobin` promises. |
| TimeSlicing.RoundRobinTrace | CPUSchedulingGUI/cpuScheduler.py:153-169 | The schedule is contiguous from 0 and ends at the sum of the bursts. No interval is longer than the quantum, and the first n intervals are processes 0..n-1 in order, each for min(burst, quantum). |
| TimeSlicing.RoundRobin | CPUSchedulingGUI/cpuScheduler.py:148-171 | The queue loop returns the round robin schedule from 0. It is contiguous, ends at the sum of the bursts, has no interval longer than the quantum, and opens with one turn per process in input order. |
| TimeSlicing.RoundRobinExample | CPUSchedulingGUI/cpuScheduler.py:148-171 | A (burst 5) and B (burst 3) with quantum 2 run as A(0-2), B(2-4), A(4-6), B(6-7), A(7-8). |

## Left out

- The Tkinter window, its widgets and the main loop are user interface only.
- `simulate` is not modelled. It parses the entry widgets with `split` and `int` and dispatches on the chosen algorithm name; that is input handling, not scheduling.
- `display_timeline` and `display_gantt_chart` draw on a canvas with floating-point scaling; they compute nothing the trace depends on.
- The second output list `gantt_chart` is not modelled separately: it receives the same tuples as `timeline` in the same order, so one trace stands for both.
- The caller's `burst_times` list is not changed by any strategy: `srtf`, `pp` and `round_robin` work on a copy. In the model sequences are values, so this holds by construction and is not stated as a contract.
- `fcfs`, `sjf` and `npp` have no precondition. `zip` truncates to the shortest list, which the model follows through `Paired` and `Min`. Negative bursts give intervals of negative length, as in the code.
- Preemptive.Srtf, Preemptive.Pp: require non-negative bursts, and burst 0 for every process past the end of `processes` (and, for `pp`, past the end of `priorities`). A process with time left but no name makes `processes[i]` fail once `min` chooses it. A process with time left but no priority is never in `available` while `any` still counts it, so the loop never ends. A negative burst keeps `any(remaining_times)` true with nothing available, so the loop never ends. A process past either end with burst 0 never runs, as in the code.
- TimeSlicing.RoundRobin: requires at least as many bursts as processes (otherwise `remaining_times[process_idx]` fails) and a positive quantum. With a quantum of 0 or less, a process with time left above the quantum is re-queued forever. The requirement also excludes inputs on which the code does end: those where every burst of the first `len(processes)` is at most a quantum that is not positive. For example, `round_robin(["A"], [0], 0)` returns `[("A", 0, 0)]` and `round_robin([], [], 0)` returns `[]`. The turn count that bounds the loop needs a positive quantum.
- Input validation (rejecting empty lists, zero bursts or an invalid quantum with an error) is not present in the scheduling code, so the model has none.
- Integer width is not an issue: Python integers are unbounded, like Dafny's `int`.
