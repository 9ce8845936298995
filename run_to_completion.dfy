/** The run-to-completion strategies: first come first served, shortest job
    first and non-preemptive priority. Each picks an order of the processes
    (input order, or a stable sort by burst or by priority) and runs every
    process for its whole burst, back to back from time 0. The source pairs
    names with bursts (and priorities) through `zip`, which stops at the
    shortest list; `Paired` is that length. */
module RunToCompletion {
  import opened Trace
  import opened Selection

  function Min(a: int, b: int): int
  {
    if a <= b then a else b
  }

  /** How many tuples `zip(processes, burst_times)` yields. */
  function Paired(processes: seq<string>, bursts: seq<int>): (n: nat)
    ensures n <= |processes| && n <= |bursts|
    ensures n == |processes| || n == |bursts|
  {
    Min(|processes|, |bursts|)
  }

  /** The decisions of a run-to-completion strategy: the processes at
      `order` run one after the other, each for its whole burst. */
  function InOrder(bursts: seq<int>, order: seq<nat>): (s: seq<Slice>)
    requires forall k :: 0 <= k < |order| ==> order[k] < |bursts|
    ensures |s| == |order|
    ensures forall k :: 0 <= k < |s| ==> s[k] == Slice(order[k], bursts[order[k]])
  {
    if order == [] then []
    else [Slice(order[0], bursts[order[0]])] + InOrder(bursts, order[1..])
  }

  /** A process the order lists once gets its burst; one it does not list gets nothing. */
  lemma {:induction false} InOrderWork(bursts: seq<int>, order: seq<nat>, i: nat)
    requires forall k :: 0 <= k < |order| ==> order[k] < |bursts|
    requires i < |bursts| && multiset(order)[i] <= 1
    ensures Work(InOrder(bursts, order), i) == if multiset(order)[i] == 1 then bursts[i] else 0
  {
    if order != [] {
      assert order == [order[0]] + order[1..];
      assert multiset(order) == multiset{order[0]} + multiset(order[1..]);
      InOrderWork(bursts, order[1..], i);
      assert InOrder(bursts, order)[1..] == InOrder(bursts, order[1..]);
    }
  }

  /** Running a permutation of the first `n` processes to completion conserves
      their bursts, so the trace covers [0, sum of those bursts] without gaps. */
  lemma RunToCompletionCovers(processes: seq<string>, bursts: seq<int>, order: seq<nat>, n: nat)
    requires n <= |processes| && n <= |bursts|
    requires IsPermutation(order, n) && forall k :: 0 <= k < |order| ==> order[k] < n
    ensures Conserves(InOrder(bursts, order), bursts[..n])
    ensures Contiguous(Lay(processes, InOrder(bursts, order), 0), 0)
    ensures Finish(Lay(processes, InOrder(bursts, order), 0), 0) == Sum(bursts[..n])
  {
    var slices := InOrder(bursts, order);
    PermutationDistinct(order, n);
    forall i | 0 <= i < n
      ensures Work(slices, i) == bursts[..n][i]
    {
      assert multiset(order)[i] == 1;
      InOrderWork(bursts, order, i);
    }
    assert Indexes(slices, n);
    Coverage(processes, slices, bursts[..n]);
  }

  /** The loop the three strategies share: for each process of `order`, append
      `(process, current_time, current_time + burst)` and advance the clock by
      the burst. */
  method RunInOrder(processes: seq<string>, bursts: seq<int>, order: seq<nat>) returns (trace: seq<Interval>)
    requires forall k :: 0 <= k < |order| ==> order[k] < |processes| && order[k] < |bursts|
    ensures trace == Lay(processes, InOrder(bursts, order), 0)
  {
    trace := [];
    var currentTime := 0;
    var k := 0;
    while k < |order|
      invariant k <= |order|
      invariant trace + Lay(processes, InOrder(bursts, order[k..]), currentTime)
             == Lay(processes, InOrder(bursts, order), 0)
    {
      var process, burst := processes[order[k]], bursts[order[k]];
      assert order[k..][1..] == order[k + 1..];
      trace := trace + [Interval(process, currentTime, currentTime + burst)];
      currentTime := currentTime + burst;
      k := k + 1;
    }
  }

  /** Interval `k` of the input-order schedule starts once the bursts before
      `k` have run. */
  lemma {:induction false} InputOrderStarts(bursts: seq<int>, n: nat, k: nat)
    requires k <= n <= |bursts|
    ensures Total(InOrder(bursts, Range(n))[..k]) == Sum(bursts[..k])
  {
    if k > 0 {
      InputOrderStarts(bursts, n, k - 1);
      var s := InOrder(bursts, Range(n));
      TotalAppend(s[..k - 1], [s[k - 1]]);
      assert s[..k] == s[..k - 1] + [s[k - 1]];
      assert bursts[..k] == bursts[..k - 1] + [bursts[k - 1]];
      SumAppend(bursts[..k - 1], [bursts[k - 1]]);
    }
  }

  lemma {:induction false} TotalAppend(a: seq<Slice>, b: seq<Slice>)
    ensures Total(a + b) == Total(a) + Total(b)
  {
    if a == [] {
      assert a + b == b;
    } else {
      assert (a + b)[1..] == a[1..] + b;
      TotalAppend(a[1..], b);
    }
  }

  /** First come, first served (`fcfs`): the paired processes in input order;
      interval `k` runs process `k` from the sum of the bursts before it for
      exactly `burst_times[k]`. */
  method Fcfs(processes: seq<string>, bursts: seq<int>) returns (trace: seq<Interval>)
    ensures |trace| == Paired(processes, bursts)
    ensures forall k :: 0 <= k < |trace| ==>
      trace[k] == Interval(processes[k], Sum(bursts[..k]), Sum(bursts[..k]) + bursts[k])
    ensures Contiguous(trace, 0)
    ensures Finish(trace, 0) == Sum(bursts[..|trace|])
  {
    var n := Paired(processes, bursts);
    var order := Range(n);
    trace := RunInOrder(processes, bursts, order);
    var slices := InOrder(bursts, order);
    forall k | 0 <= k < n
      ensures trace[k] == Interval(processes[k], Sum(bursts[..k]), Sum(bursts[..k]) + bursts[k])
    {
      LayAt(processes, slices, 0, k);
      InputOrderStarts(bursts, n, k);
      InputOrderStarts(bursts, n, k + 1);
      assert bursts[..k + 1] == bursts[..k] + [bursts[k]];
      SumAppend(bursts[..k], [bursts[k]]);
    }
    forall k | 0 <= k < n ensures order[k] < n { }
    RunToCompletionCovers(processes, bursts, order, n);
  }

  /** Laying out the stable sort by burst of the first `n` processes puts no
      job after a shorter one. */
  lemma ShortestFirst(processes: seq<string>, bursts: seq<int>, n: nat)
    requires n <= |processes| && n <= |bursts|
    ensures Indexes(InOrder(bursts, StableOrder(bursts[..n])), |processes|)
    ensures var t := Lay(processes, InOrder(bursts, StableOrder(bursts[..n])), 0);
      forall a, b :: 0 <= a < b < |t| ==> t[a].Length() <= t[b].Length()
  {
    var order := StableOrder(bursts[..n]);
    StableOrderCorrect(bursts[..n]);
    var slices := InOrder(bursts, order);
    LayContiguous(processes, slices, 0);
    var t := Lay(processes, slices, 0);
    forall a, b | 0 <= a < b < |t|
      ensures t[a].Length() <= t[b].Length()
    {
      assert t[a].Length() == slices[a].length == bursts[..n][order[a]];
      assert t[b].Length() == slices[b].length == bursts[..n][order[b]];
    }
  }

  /** Shortest job first (`sjf`): the paired processes stably sorted by burst,
      each run to completion; no job runs after a longer one. */
  method Sjf(processes: seq<string>, bursts: seq<int>) returns (trace: seq<Interval>)
    ensures trace == Lay(processes, InOrder(bursts, StableOrder(bursts[..Paired(processes, bursts)])), 0)
    ensures |trace| == Paired(processes, bursts)
    ensures Contiguous(trace, 0)
    ensures Finish(trace, 0) == Sum(bursts[..Paired(processes, bursts)])
    ensures forall a, b :: 0 <= a < b < |trace| ==> trace[a].Length() <= trace[b].Length()
  {
    var n := Paired(processes, bursts);
    var order := StableOrder(bursts[..n]);
    trace := RunInOrder(processes, bursts, order);
    StableOrderCorrect(bursts[..n]);
    RunToCompletionCovers(processes, bursts, order, n);
    ShortestFirst(processes, bursts, n);
  }

  /** Non-preemptive priority (`npp`): the processes `zip` pairs with a burst
      and a priority, stably sorted by ascending priority value, each run to
      completion. */
  method Npp(processes: seq<string>, bursts: seq<int>, priorities: seq<int>) returns (trace: seq<Interval>)
    ensures trace == Lay(processes, InOrder(bursts,
      StableOrder(priorities[..Min(Paired(processes, bursts), |priorities|)])), 0)
    ensures |trace| == Min(Paired(processes, bursts), |priorities|)
    ensures Contiguous(trace, 0)
    ensures Finish(trace, 0) == Sum(bursts[..|trace|])
  {
    var n := Min(Paired(processes, bursts), |priorities|);
    var order := StableOrder(priorities[..n]);
    trace := RunInOrder(processes, bursts, order);
    StableOrderCorrect(priorities[..n]);
    RunToCompletionCovers(processes, bursts, order, n);
  }

  /** The first three steps of sorting [5, 2, 5, 1] by key. */
  lemma StableOrderExampleSteps()
    ensures SortBelow([5, 2, 5, 1], 3) == [1, 0, 2]
  {
    assert SortBelow([5, 2, 5, 1], 1) == [0];
    assert SortBelow([5, 2, 5, 1], 2) == [1, 0];
  }

  /** `sorted` keeps equal keys in input order: keys [5, 2, 5, 1] sort as
      indices 3, 1, 0, 2, index 0 ahead of index 2. */
  lemma StableOrderExample()
    ensures StableOrder([5, 2, 5, 1]) == [3, 1, 0, 2]
  {
    StableOrderExampleSteps();
  }

  /** The order D, B, A, C laid out with bursts [5, 2, 5, 1]. */
  lemma SjfExampleTrace(processes: seq<string>, order: seq<nat>)
    requires processes == ["A", "B", "C", "D"] && order == [3, 1, 0, 2]
    ensures Lay(processes, InOrder([5, 2, 5, 1], order), 0)
         == [Interval("D", 0, 1), Interval("B", 1, 3), Interval("A", 3, 8), Interval("C", 8, 13)]
  {
    var slices := [Slice(3, 1), Slice(1, 2), Slice(0, 5), Slice(2, 5)];
    assert InOrder([5, 2, 5, 1], order) == slices;
    assert Lay(processes, slices[3..], 8) == [Interval("C", 8, 13)];
    assert Lay(processes, slices[2..], 3) == [Interval("A", 3, 8), Interval("C", 8, 13)];
    assert Lay(processes, slices[1..], 1) == [Interval("B", 1, 3), Interval("A", 3, 8), Interval("C", 8, 13)];
  }

  /** Shortest job first keeps equal bursts in input order: bursts [5, 2, 5, 1]
      for A, B, C, D run as D(0-1), B(1-3), A(3-8), C(8-13), A ahead of C. */
  lemma SjfExample()
    ensures Lay(["A", "B", "C", "D"], InOrder([5, 2, 5, 1], StableOrder([5, 2, 5, 1])), 0)
         == [Interval("D", 0, 1), Interval("B", 1, 3), Interval("A", 3, 8), Interval("C", 8, 13)]
  {
    StableOrderExample();
    SjfExampleTrace(["A", "B", "C", "D"], StableOrder([5, 2, 5, 1]));
  }
}
