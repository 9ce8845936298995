/** The unit-time preemptive strategies: shortest remaining time first (`srtf`)
    and preemptive priority (`pp`). Every time unit, among the processes with
    remaining time, the one with the smallest key runs for one unit (the first
    such process on ties); the key is the remaining time for `srtf` and the
    priority value for `pp`. The loop stops when no remaining time is left. */
module Preemptive {
  import opened Trace
  import opened Selection
  import opened RunToCompletion

  /** What a unit-time strategy ranks the available processes by. */
  datatype Policy =
    | ShortestRemaining                       // srtf: the remaining time
    | HighestPriority(priorities: seq<int>)   // pp: the priority value, lower first

  predicate Fits(policy: Policy, n: nat)
  {
    policy.HighestPriority? ==> |policy.priorities| == n
  }

  /** The key of each process given the remaining times. */
  function Keys(policy: Policy, remaining: seq<int>): seq<int>
    requires Fits(policy, |remaining|)
  {
    match policy
    case ShortestRemaining => remaining
    case HighestPriority(priorities) => priorities
  }

  /** Every entry from index `n` on is 0: a process that `srtf` or `pp` has
      no name (or, for `pp`, no priority) for never has time to run. */
  predicate IdleFrom(bursts: seq<int>, n: nat)
  {
    forall i :: n <= i < |bursts| ==> bursts[i] == 0
  }

  /** The priorities `zip(remaining_times, priorities)` pairs with the first
      `n` processes. A process past the end of `priorities` gets 0 as a
      stand-in; `MinAvailableAgrees` shows the stand-in is never consulted
      while that process has no time left. */
  function ZippedKeys(priorities: seq<int>, n: nat): (r: seq<int>)
    ensures |r| == n
    ensures forall i :: 0 <= i < n && i < |priorities| ==> r[i] == priorities[i]
  {
    seq(n, i => if 0 <= i < |priorities| then priorities[i] else 0)
  }

  /** Python's `any`: some entry is non-zero. */
  predicate Any(s: seq<int>)
  {
    exists k :: 0 <= k < |s| && s[k] != 0
  }

  /** The decisions of a unit-time strategy from the given remaining times:
      one unit slice per iteration of the scheduling loop. */
  function UnitSlices(policy: Policy, remaining: seq<int>): (s: seq<Slice>)
    requires Fits(policy, |remaining|) && NonNegative(remaining)
    ensures |s| == Sum(remaining)
    ensures forall k :: 0 <= k < |s| ==> s[k].pid < |remaining| && s[k].length == 1
    decreases Sum(remaining)
  {
    SumNonNegative(remaining);
    match MinAvailable(remaining, Keys(policy, remaining), |remaining|)
    case None => []
    case Some(i) =>
      SumUpdate(remaining, i, remaining[i] - 1);
      [Slice(i, 1)] + UnitSlices(policy, remaining[i := remaining[i] - 1])
  }

  /** Every process runs exactly as many units as it had remaining, and no
      other index ever runs. */
  lemma {:induction false} UnitSlicesConserve(policy: Policy, remaining: seq<int>)
    requires Fits(policy, |remaining|) && NonNegative(remaining)
    ensures Conserves(UnitSlices(policy, remaining), remaining)
    decreases Sum(remaining)
  {
    SumNonNegative(remaining);
    var chosen := MinAvailable(remaining, Keys(policy, remaining), |remaining|);
    if chosen.Some? {
      var i := chosen.value;
      var next := remaining[i := remaining[i] - 1];
      UnitSlicesStep(policy, remaining, i);
      SumUpdate(remaining, i, remaining[i] - 1);
      UnitSlicesConserve(policy, next);
      ConservesStep(UnitSlices(policy, next), remaining, i);
    }
  }

  /** Only a process that had time left ever runs. */
  lemma {:induction false} UnitSlicesRun(policy: Policy, remaining: seq<int>)
    requires Fits(policy, |remaining|) && NonNegative(remaining)
    ensures forall k :: 0 <= k < |UnitSlices(policy, remaining)| ==>
      remaining[UnitSlices(policy, remaining)[k].pid] > 0
    decreases Sum(remaining)
  {
    SumNonNegative(remaining);
    var chosen := MinAvailable(remaining, Keys(policy, remaining), |remaining|);
    if chosen.Some? {
      var i := chosen.value;
      var next := remaining[i := remaining[i] - 1];
      UnitSlicesStep(policy, remaining, i);
      SumUpdate(remaining, i, remaining[i] - 1);
      UnitSlicesRun(policy, next);
      var s := UnitSlices(policy, remaining);
      forall k | 0 <= k < |s|
        ensures remaining[s[k].pid] > 0
      {
        if k > 0 {
          assert s[k] == UnitSlices(policy, next)[k - 1];
        }
      }
    }
  }

  /** When every process with time left has a name, every slice names one. */
  lemma NamedSlices(processes: seq<string>, policy: Policy, bursts: seq<int>)
    requires Fits(policy, |bursts|) && NonNegative(bursts) && IdleFrom(bursts, |processes|)
    ensures Indexes(UnitSlices(policy, bursts), |processes|)
  {
    UnitSlicesRun(policy, bursts);
  }

  /** A unit of process `i` ahead of slices that conserve what is left once
      that unit is taken off conserves the whole. */
  lemma ConservesStep(rest: seq<Slice>, remaining: seq<int>, i: nat)
    requires i < |remaining| && Conserves(rest, remaining[i := remaining[i] - 1])
    ensures Conserves([Slice(i, 1)] + rest, remaining)
  {
    var s := [Slice(i, 1)] + rest;
    assert s[1..] == rest;
    forall j | 0 <= j < |remaining|
      ensures Work(s, j) == remaining[j]
    {
      assert Work(s, j) == (if i == j then 1 else 0) + Work(rest, j);
    }
  }

  /** Unit slices laid out from `from` occupy one time unit each, the k-th
      from `from + k` to `from + k + 1`. */
  lemma {:induction false} UnitTimes(processes: seq<string>, slices: seq<Slice>, from: int)
    requires Indexes(slices, |processes|)
    requires forall k :: 0 <= k < |slices| ==> slices[k].length == 1
    ensures forall k :: 0 <= k < |slices| ==>
      Lay(processes, slices, from)[k].start == from + k && Lay(processes, slices, from)[k].end == from + k + 1
  {
    if slices != [] {
      UnitTimes(processes, slices[1..], from + 1);
      var t := Lay(processes, slices, from);
      forall k | 0 < k < |slices|
        ensures t[k].start == from + k && t[k].end == from + k + 1
      {
        assert t[k] == Lay(processes, slices[1..], from + 1)[k - 1];
      }
    }
  }

  /** One iteration of the scheduling loop: the chosen process runs first,
      then the schedule of the remaining times with its entry one lower. */
  lemma UnitSlicesStep(policy: Policy, remaining: seq<int>, i: nat)
    requires Fits(policy, |remaining|) && NonNegative(remaining)
    requires MinAvailable(remaining, Keys(policy, remaining), |remaining|) == Some(i)
    ensures i < |remaining| && remaining[i] > 0
    ensures UnitSlices(policy, remaining) == [Slice(i, 1)] + UnitSlices(policy, remaining[i := remaining[i] - 1])
  {
  }

  /** The loop guard `any(remaining_times)` and `if available:` of `srtf`
      and `pp` agree: with no negative entry, some entry is non-zero exactly
      when some process is available. */
  lemma AnyIsAvailable(policy: Policy, remaining: seq<int>)
    requires Fits(policy, |remaining|) && NonNegative(remaining)
    ensures Any(remaining) <==> MinAvailable(remaining, Keys(policy, remaining), |remaining|).Some?
  {
  }

  /** Once no remaining time is non-zero the schedule is over. */
  lemma NothingLeft(policy: Policy, remaining: seq<int>)
    requires Fits(policy, |remaining|) && NonNegative(remaining) && !Any(remaining)
    ensures UnitSlices(policy, remaining) == []
  {
    AnyIsAvailable(policy, remaining);
  }

  /** One iteration of the scheduling loop, laid out from `from`: the chosen
      process occupies [from, from + 1] and the rest of the schedule follows
      from the lowered remaining times, which stay non-negative and sum lower. */
  lemma LayStep(processes: seq<string>, policy: Policy, remaining: seq<int>, i: nat, from: int)
    requires Fits(policy, |remaining|) && NonNegative(remaining)
    requires Indexes(UnitSlices(policy, remaining), |processes|)
    requires MinAvailable(remaining, Keys(policy, remaining), |remaining|) == Some(i)
    ensures i < |remaining| && i < |processes| && remaining[i] > 0
    ensures NonNegative(remaining[i := remaining[i] - 1])
    ensures Indexes(UnitSlices(policy, remaining[i := remaining[i] - 1]), |processes|)
    ensures Sum(remaining[i := remaining[i] - 1]) < Sum(remaining)
    ensures Lay(processes, UnitSlices(policy, remaining), from)
         == [Interval(processes[i], from, from + 1)]
            + Lay(processes, UnitSlices(policy, remaining[i := remaining[i] - 1]), from + 1)
  {
    UnitSlicesStep(policy, remaining, i);
    SumUpdate(remaining, i, remaining[i] - 1);
    IndexesTail(UnitSlices(policy, remaining), Slice(i, 1), UnitSlices(policy, remaining[i := remaining[i] - 1]), |processes|);
  }

  lemma IndexesTail(s: seq<Slice>, x: Slice, t: seq<Slice>, n: nat)
    requires s == [x] + t && Indexes(s, n)
    ensures x.pid < n && Indexes(t, n)
  {
    assert s[0] == x;
    forall k | 0 <= k < |t|
      ensures t[k].pid < n
    {
      assert t[k] == s[k + 1];
    }
  }

  /** The scheduling loop `srtf` and `pp` share: while any remaining time is
      non-zero, pick the first available process with the smallest key, append
      `(process, current_time, current_time + 1)`, take one unit off its
      remaining time and advance the clock by one. Only a copy of the bursts
      is changed. */
  method RunUnitSteps(processes: seq<string>, bursts: seq<int>, policy: Policy) returns (trace: seq<Interval>)
    requires Fits(policy, |bursts|) && NonNegative(bursts) && IdleFrom(bursts, |processes|)
    ensures Indexes(UnitSlices(policy, bursts), |processes|)
    ensures trace == Lay(processes, UnitSlices(policy, bursts), 0)
  {
    NamedSlices(processes, policy, bursts);
    trace := [];
    var remaining := bursts;
    var currentTime := 0;
    while Any(remaining)
      invariant |remaining| == |bursts| && NonNegative(remaining)
      invariant Indexes(UnitSlices(policy, remaining), |processes|)
      invariant trace + Lay(processes, UnitSlices(policy, remaining), currentTime)
             == Lay(processes, UnitSlices(policy, bursts), 0)
      decreases Sum(remaining)
    {
      // With no negative entry, a non-zero entry is a positive one, so
      // `available` in `srtf` and `pp` is never empty here.
      AnyIsAvailable(policy, remaining);
      var i := MinAvailable(remaining, Keys(policy, remaining), |remaining|).value;
      LayStep(processes, policy, remaining, i, currentTime);
      var next := remaining[i := remaining[i] - 1];
      var step := Interval(processes[i], currentTime, currentTime + 1);
      AppendAssociative(trace, [step], Lay(processes, UnitSlices(policy, next), currentTime + 1));
      trace := trace + [step];
      remaining := next;
      currentTime := currentTime + 1;
    }
    NothingLeft(policy, remaining);
  }

  /** Shortest remaining time first (`srtf`): one unit-length interval per time
      unit, from 0 up to the sum of the bursts. */
  method Srtf(processes: seq<string>, bursts: seq<int>) returns (trace: seq<Interval>)
    requires NonNegative(bursts) && IdleFrom(bursts, |processes|)
    ensures Indexes(UnitSlices(ShortestRemaining, bursts), |processes|)
    ensures trace == Lay(processes, UnitSlices(ShortestRemaining, bursts), 0)
    ensures |trace| == Sum(bursts)
    ensures forall k :: 0 <= k < |trace| ==> trace[k].start == k && trace[k].end == k + 1
  {
    trace := RunUnitSteps(processes, bursts, ShortestRemaining);
    UnitTimes(processes, UnitSlices(ShortestRemaining, bursts), 0);
  }

  /** Preemptive priority (`pp`): one unit-length interval per time unit, from
      0 up to the sum of the bursts, keyed by the priorities `zip` pairs with
      the remaining times. */
  method Pp(processes: seq<string>, bursts: seq<int>, priorities: seq<int>) returns (trace: seq<Interval>)
    requires NonNegative(bursts) && IdleFrom(bursts, |processes|) && IdleFrom(bursts, |priorities|)
    ensures Indexes(UnitSlices(HighestPriority(ZippedKeys(priorities, |bursts|)), bursts), |processes|)
    ensures trace == Lay(processes, UnitSlices(HighestPriority(ZippedKeys(priorities, |bursts|)), bursts), 0)
    ensures |trace| == Sum(bursts)
    ensures forall k :: 0 <= k < |trace| ==> trace[k].start == k && trace[k].end == k + 1
  {
    var policy := HighestPriority(ZippedKeys(priorities, |bursts|));
    trace := RunUnitSteps(processes, bursts, policy);
    UnitTimes(processes, UnitSlices(policy, bursts), 0);
  }

  /** `n` unit slices of process `i` (none when `n` is not positive). */
  function Copies(i: nat, n: int): seq<Slice>
    decreases n
  {
    if n <= 0 then [] else [Slice(i, 1)] + Copies(i, n - 1)
  }

  /** The slices cut into unit steps: a slice of length `n` becomes `n` unit
      slices of the same process. */
  function Split(slices: seq<Slice>): seq<Slice>
  {
    if slices == [] then [] else Copies(slices[0].pid, slices[0].length) + Split(slices[1..])
  }

  /** Changing the burst of a process the order does not list changes nothing. */
  lemma InOrderFrame(bursts: seq<int>, order: seq<nat>, i: nat, v: int)
    requires forall k :: 0 <= k < |order| ==> order[k] < |bursts|
    requires i < |bursts| && i !in order
    ensures InOrder(bursts[i := v], order) == InOrder(bursts, order)
  {
    assert forall k :: 0 <= k < |order| ==> order[k] != i;
  }

  /** The invariant behind `UnitIsSplit` is kept when the head of `order` runs
      for one unit. */
  lemma HeadRuns(policy: Policy, rank: seq<int>, remaining: seq<int>, order: seq<nat>)
    requires Fits(policy, |remaining|) && NonNegative(remaining) && |rank| == |remaining|
    requires Ordered(rank, order) && order != [] && remaining[order[0]] > 0
    requires forall k :: 1 <= k < |order| ==> Keys(policy, remaining)[order[k]] == rank[order[k]]
    requires Keys(policy, remaining)[order[0]] <= rank[order[0]]
    ensures order[0] !in order[1..]
    ensures forall k :: 1 <= k < |order| ==>
      Keys(policy, remaining[order[0] := remaining[order[0]] - 1])[order[k]] == rank[order[k]]
    ensures Keys(policy, remaining[order[0] := remaining[order[0]] - 1])[order[0]] <= rank[order[0]]
  {
    forall k | 1 <= k < |order|
      ensures order[k] != order[0]
    {
      assert Before(rank, order[0], order[k]);
    }
  }

  /** While the processes before `order[0]` are done and those after it are
      untouched, the process that runs is `order[0]`. */
  lemma HeadIsFirstMin(policy: Policy, rank: seq<int>, remaining: seq<int>, order: seq<nat>)
    requires Fits(policy, |remaining|) && |rank| == |remaining|
    requires Ordered(rank, order) && order != [] && remaining[order[0]] > 0
    requires forall i :: 0 <= i < |remaining| && remaining[i] > 0 ==> i in order
    requires forall k :: 1 <= k < |order| ==> Keys(policy, remaining)[order[k]] == rank[order[k]]
    requires Keys(policy, remaining)[order[0]] <= rank[order[0]]
    ensures MinAvailable(remaining, Keys(policy, remaining), |remaining|) == Some(order[0])
  {
    var key := Keys(policy, remaining);
    var i := order[0];
    forall j | 0 <= j < |remaining| && remaining[j] > 0 && j != i
      ensures key[i] <= key[j] && (j < i ==> key[i] < key[j])
    {
      var k :| 0 <= k < |order| && order[k] == j;
      assert Before(rank, order[0], order[k]);
    }
    var r := MinAvailable(remaining, key, |remaining|);
    FirstMinUnique(remaining, key, |remaining|, r.value, i);
  }

  /** Cutting a run-to-completion schedule into unit steps starts with the
      unit steps of its first process. */
  lemma SplitHead(bursts: seq<int>, order: seq<nat>)
    requires forall k :: 0 <= k < |order| ==> order[k] < |bursts|
    requires order != []
    ensures Split(InOrder(bursts, order)) == Copies(order[0], bursts[order[0]]) + Split(InOrder(bursts, order[1..]))
  {
    var s := InOrder(bursts, order);
    assert s[0] == Slice(order[0], bursts[order[0]]) && s[1..] == InOrder(bursts, order[1..]);
  }

  /** Running the head of the order for one unit leaves the rest of the
      order's unit steps as they were. */
  lemma SplitAfterHeadRuns(remaining: seq<int>, order: seq<nat>)
    requires forall k :: 0 <= k < |order| ==> order[k] < |remaining|
    requires order != [] && remaining[order[0]] > 0 && order[0] !in order[1..]
    ensures Split(InOrder(remaining, order))
         == [Slice(order[0], 1)] + Split(InOrder(remaining[order[0] := remaining[order[0]] - 1], order))
  {
    var i := order[0];
    var next := remaining[i := remaining[i] - 1];
    SplitHead(remaining, order);
    SplitHead(next, order);
    InOrderFrame(remaining, order[1..], i, remaining[i] - 1);
    assert Copies(i, remaining[i]) == [Slice(i, 1)] + Copies(i, remaining[i] - 1);
  }

  /** With every process ready at time 0 a unit-time strategy never preempts:
      if `order` lists the processes with work by the key they had when
      untouched (`rank`, ties by index), only its head may have run so far, and
      that run has not raised its key, then the schedule runs the processes of
      `order` one after the other to completion, cut into unit steps. */
  lemma {:induction false} UnitIsSplit(policy: Policy, rank: seq<int>, remaining: seq<int>, order: seq<nat>)
    requires Fits(policy, |remaining|) && NonNegative(remaining) && |rank| == |remaining|
    requires Ordered(rank, order)
    requires forall i :: 0 <= i < |remaining| && remaining[i] > 0 ==> i in order
    requires forall k :: 1 <= k < |order| ==> Keys(policy, remaining)[order[k]] == rank[order[k]]
    requires order != [] ==> Keys(policy, remaining)[order[0]] <= rank[order[0]]
    ensures UnitSlices(policy, remaining) == Split(InOrder(remaining, order))
    decreases Sum(remaining), |order|, 1
  {
    if order == [] {
      assert MinAvailable(remaining, Keys(policy, remaining), |remaining|).None?;
    } else if remaining[order[0]] == 0 {
      HeadDone(policy, rank, remaining, order);
    } else {
      HeadStep(policy, rank, remaining, order);
    }
  }

  /** `UnitIsSplit` when the head of `order` has finished: it is skipped. */
  lemma {:induction false} HeadDone(policy: Policy, rank: seq<int>, remaining: seq<int>, order: seq<nat>)
    requires Fits(policy, |remaining|) && NonNegative(remaining) && |rank| == |remaining|
    requires Ordered(rank, order)
    requires forall i :: 0 <= i < |remaining| && remaining[i] > 0 ==> i in order
    requires forall k :: 1 <= k < |order| ==> Keys(policy, remaining)[order[k]] == rank[order[k]]
    requires order != [] ==> Keys(policy, remaining)[order[0]] <= rank[order[0]]
    requires order != [] && remaining[order[0]] == 0
    ensures UnitSlices(policy, remaining) == Split(InOrder(remaining, order))
    decreases Sum(remaining), |order|, 0
  {
    OrderedTail(rank, order);
    UnitIsSplit(policy, rank, remaining, order[1..]);
    SplitHead(remaining, order);
  }

  /** `UnitIsSplit` when the head of `order` has work left: it runs one unit. */
  lemma {:induction false} HeadStep(policy: Policy, rank: seq<int>, remaining: seq<int>, order: seq<nat>)
    requires Fits(policy, |remaining|) && NonNegative(remaining) && |rank| == |remaining|
    requires Ordered(rank, order)
    requires forall i :: 0 <= i < |remaining| && remaining[i] > 0 ==> i in order
    requires forall k :: 1 <= k < |order| ==> Keys(policy, remaining)[order[k]] == rank[order[k]]
    requires order != [] ==> Keys(policy, remaining)[order[0]] <= rank[order[0]]
    requires order != [] && remaining[order[0]] > 0
    ensures UnitSlices(policy, remaining) == Split(InOrder(remaining, order))
    decreases Sum(remaining), |order|, 0
  {
    var i := order[0];
    var next := remaining[i := remaining[i] - 1];
    HeadIsFirstMin(policy, rank, remaining, order);
    UnitSlicesStep(policy, remaining, i);
    HeadStepKeeps(policy, rank, remaining, order);
    UnitIsSplit(policy, rank, next, order);
    SplitAfterHeadRuns(remaining, order);
  }

  /** After the head of `order` runs one unit, `UnitIsSplit`'s premises hold
      again, with less time left in total. */
  lemma HeadStepKeeps(policy: Policy, rank: seq<int>, remaining: seq<int>, order: seq<nat>)
    requires Fits(policy, |remaining|) && NonNegative(remaining) && |rank| == |remaining|
    requires Ordered(rank, order)
    requires forall i :: 0 <= i < |remaining| && remaining[i] > 0 ==> i in order
    requires forall k :: 1 <= k < |order| ==> Keys(policy, remaining)[order[k]] == rank[order[k]]
    requires order != [] && Keys(policy, remaining)[order[0]] <= rank[order[0]]
    requires remaining[order[0]] > 0
    ensures var next := remaining[order[0] := remaining[order[0]] - 1];
      && NonNegative(next) && Sum(next) < Sum(remaining)
      && (forall i :: 0 <= i < |next| && next[i] > 0 ==> i in order)
      && (forall k :: 1 <= k < |order| ==> Keys(policy, next)[order[k]] == rank[order[k]])
      && Keys(policy, next)[order[0]] <= rank[order[0]]
      && order[0] !in order[1..]
  {
    HeadRuns(policy, rank, remaining, order);
    SumUpdate(remaining, order[0], remaining[order[0]] - 1);
  }

  /** Shortest remaining time first, with all processes ready at time 0, is
      shortest job first (same stable tie-break) cut into unit steps: once a
      process starts it keeps the smallest remaining time until it finishes. */
  lemma SrtfIsSjfInUnits(bursts: seq<int>)
    requires NonNegative(bursts)
    ensures UnitSlices(ShortestRemaining, bursts) == Split(InOrder(bursts, StableOrder(bursts)))
  {
    var order := StableOrder(bursts);
    SortBelowOrdered(bursts, |bursts|);
    SortBelowPermutation(bursts, |bursts|);
    forall i | 0 <= i < |bursts| && bursts[i] > 0
      ensures i in order
    {
      PermutationHasAll(order, |bursts|, i);
    }
    UnitIsSplit(ShortestRemaining, bursts, bursts, order);
  }

  /** Preemptive priority, with all processes ready at time 0 and fixed
      priorities, is non-preemptive priority cut into unit steps. */
  lemma PpIsNppInUnits(bursts: seq<int>, priorities: seq<int>)
    requires NonNegative(bursts) && |priorities| == |bursts|
    ensures UnitSlices(HighestPriority(priorities), bursts) == Split(InOrder(bursts, StableOrder(priorities)))
  {
    var order := StableOrder(priorities);
    SortBelowOrdered(priorities, |priorities|);
    SortBelowPermutation(priorities, |priorities|);
    forall i | 0 <= i < |bursts| && bursts[i] > 0
      ensures i in order
    {
      PermutationHasAll(order, |priorities|, i);
    }
    UnitIsSplit(HighestPriority(priorities), priorities, bursts, order);
  }

  /** Shortest job first cuts bursts [3, 1] into process 1's unit step
      followed by process 0's three. */
  lemma SjfExampleUnits()
    ensures Split(InOrder([3, 1], StableOrder([3, 1])))
         == [Slice(1, 1), Slice(0, 1), Slice(0, 1), Slice(0, 1)]
  {
    assert SortBelow([3, 1], 1) == [0];
    assert StableOrder([3, 1]) == [1, 0];
    assert InOrder([3, 1], [1, 0]) == [Slice(1, 1), Slice(0, 3)];
    assert Copies(0, 3) == [Slice(0, 1), Slice(0, 1), Slice(0, 1)];
    assert Split([Slice(0, 3)]) == Copies(0, 3);
  }

  /** Shortest remaining time first for A (burst 3) and B (burst 1): B runs
      first, then A for three unit steps. */
  lemma SrtfExample(bursts: seq<int>)
    requires bursts == [3, 1]
    ensures Lay(["A", "B"], UnitSlices(ShortestRemaining, bursts), 0)
         == [Interval("B", 0, 1), Interval("A", 1, 2), Interval("A", 2, 3), Interval("A", 3, 4)]
  {
    SrtfIsSjfInUnits(bursts);
    SjfExampleUnits();
    UnitExampleTrace(["A", "B"], UnitSlices(ShortestRemaining, bursts));
  }

  /** Four unit slices laid out from 0. */
  lemma UnitExampleTrace(processes: seq<string>, s: seq<Slice>)
    requires processes == ["A", "B"] && s == [Slice(1, 1), Slice(0, 1), Slice(0, 1), Slice(0, 1)]
    ensures Lay(processes, s, 0)
         == [Interval("B", 0, 1), Interval("A", 1, 2), Interval("A", 2, 3), Interval("A", 3, 4)]
  {
    assert Lay(processes, s[3..], 3) == [Interval("A", 3, 4)];
    assert Lay(processes, s[2..], 2) == [Interval("A", 2, 3), Interval("A", 3, 4)];
    assert Lay(processes, s[1..], 1) == [Interval("A", 1, 2), Interval("A", 2, 3), Interval("A", 3, 4)];
  }

  /** Priorities [2, 1, 2] sort as indices 1, 0, 2: the tie keeps 0 ahead of 2. */
  lemma PriorityOrderExample()
    ensures StableOrder([2, 1, 2]) == [1, 0, 2]
  {
    assert SortBelow([2, 1, 2], 1) == [0];
    assert SortBelow([2, 1, 2], 2) == [1, 0];
  }

  /** Bursts [2, 1, 1] run in the order 1, 0, 2, cut into unit steps. */
  lemma NppExampleUnits(bursts: seq<int>, order: seq<nat>)
    requires bursts == [2, 1, 1] && order == [1, 0, 2]
    ensures Split(InOrder(bursts, order)) == [Slice(1, 1), Slice(0, 1), Slice(0, 1), Slice(2, 1)]
  {
    assert InOrder(bursts, order) == [Slice(1, 1), Slice(0, 2), Slice(2, 1)];
    assert Copies(0, 2) == [Slice(0, 1), Slice(0, 1)];
    assert Split([Slice(2, 1)]) == Copies(2, 1);
    assert Split([Slice(0, 2), Slice(2, 1)]) == Copies(0, 2) + Copies(2, 1);
  }

  /** Preemptive priority with bursts [2, 1, 1] and priorities [2, 1, 2]:
      process 1 (lowest value) first, then process 0 to completion ahead of
      process 2, which ties with it. */
  lemma PpExampleSlices(bursts: seq<int>, priorities: seq<int>)
    requires bursts == [2, 1, 1] && priorities == [2, 1, 2]
    ensures UnitSlices(HighestPriority(priorities), bursts)
         == [Slice(1, 1), Slice(0, 1), Slice(0, 1), Slice(2, 1)]
  {
    PpIsNppInUnits(bursts, priorities);
    PriorityOrderExample();
    NppExampleUnits(bursts, StableOrder(priorities));
  }

  /** Equal keys [4, 4] sort as indices 0, 1: the stable sort keeps input order. */
  lemma TieOrderExample(key: seq<int>)
    requires key == [4, 4]
    ensures StableOrder(key) == [0, 1]
  {
    assert SortBelow(key, 1) == [0];
    assert Insert(key, 1, [0]) == [0, 1];
  }

  /** Bursts [4, 4] run process 0 to completion, then process 1. */
  lemma TieExampleUnits(bursts: seq<int>, order: seq<nat>)
    requires bursts == [4, 4] && order == [0, 1]
    ensures Split(InOrder(bursts, order))
         == [Slice(0, 1), Slice(0, 1), Slice(0, 1), Slice(0, 1),
             Slice(1, 1), Slice(1, 1), Slice(1, 1), Slice(1, 1)]
  {
    assert InOrder(bursts, order) == [Slice(0, 4), Slice(1, 4)];
    assert Copies(1, 4) == [Slice(1, 1), Slice(1, 1), Slice(1, 1), Slice(1, 1)];
    assert Copies(0, 4) == [Slice(0, 1), Slice(0, 1), Slice(0, 1), Slice(0, 1)];
    assert Split([Slice(1, 4)]) == Copies(1, 4);
  }

  /** Shortest remaining time first breaks ties by index: with bursts [4, 4]
      process 0 runs its four unit steps before process 1 runs any. */
  lemma SrtfTieExample(bursts: seq<int>)
    requires bursts == [4, 4]
    ensures UnitSlices(ShortestRemaining, bursts)
         == [Slice(0, 1), Slice(0, 1), Slice(0, 1), Slice(0, 1),
             Slice(1, 1), Slice(1, 1), Slice(1, 1), Slice(1, 1)]
  {
    SrtfIsSjfInUnits(bursts);
    TieOrderExample(bursts);
    TieExampleUnits(bursts, StableOrder(bursts));
  }
}
