/** The execution trace every scheduling strategy produces, and the scheduling
    decisions it is laid out from.

    A strategy decides which process runs for how long, one slice after the
    other; `Lay` turns those decisions into `(process, start, end)` intervals
    placed end to end from time 0, as every scheduler of the simulator does
    with its `current_time` accumulator. */
module Trace {

  /** One entry of the trace: `process` runs from `start` to `end`. */
  datatype Interval = Interval(process: string, start: int, end: int)
  {
    function Length(): int { end - start }
  }

  /** One scheduling decision: the process at index `pid` of the input runs for
      `length` time units. */
  datatype Slice = Slice(pid: nat, length: int)

  function Sum(s: seq<int>): int
  {
    if s == [] then 0 else s[0] + Sum(s[1..])
  }

  predicate NonNegative(s: seq<int>)
  {
    forall k :: 0 <= k < |s| ==> s[k] >= 0
  }

  lemma {:induction false} SumAppend(a: seq<int>, b: seq<int>)
    ensures Sum(a + b) == Sum(a) + Sum(b)
  {
    if a == [] {
      assert a + b == b;
    } else {
      assert (a + b)[1..] == a[1..] + b;
      SumAppend(a[1..], b);
    }
  }

  /** Changing one entry changes the sum by the difference. */
  lemma {:induction false} SumUpdate(s: seq<int>, i: nat, v: int)
    requires i < |s|
    ensures Sum(s[i := v]) == Sum(s) - s[i] + v
  {
    if i == 0 {
      assert s[i := v][1..] == s[1..];
    } else {
      assert s[i := v][1..] == s[1..][i - 1 := v];
      SumUpdate(s[1..], i - 1, v);
    }
  }

  lemma {:induction false} SumNonNegative(s: seq<int>)
    requires NonNegative(s)
    ensures Sum(s) >= 0
    ensures Sum(s) == 0 <==> forall k :: 0 <= k < |s| ==> s[k] == 0
  {
    if s != [] {
      SumNonNegative(s[1..]);
      assert forall k :: 1 <= k < |s| ==> s[k] == s[1..][k - 1];
    }
  }

  /** The total time the slices take. */
  function Total(slices: seq<Slice>): int
  {
    if slices == [] then 0 else slices[0].length + Total(slices[1..])
  }

  /** Every slice names a process below `n`. */
  predicate Indexes(slices: seq<Slice>, n: nat)
  {
    forall k :: 0 <= k < |slices| ==> slices[k].pid < n
  }

  /** The trace of `slices` run back to back from time `from`, each interval
      named after its process. */
  function Lay(processes: seq<string>, slices: seq<Slice>, from: int): (t: seq<Interval>)
    requires Indexes(slices, |processes|)
    ensures |t| == |slices|
  {
    if slices == [] then []
    else
      [Interval(processes[slices[0].pid], from, from + slices[0].length)]
      + Lay(processes, slices[1..], from + slices[0].length)
  }

  /** Laying out a slice ahead of others: its interval, then the others from
      where it ends. */
  lemma LayCons(processes: seq<string>, x: Slice, rest: seq<Slice>, from: int)
    requires x.pid < |processes| && Indexes(rest, |processes|)
    ensures Indexes([x] + rest, |processes|)
    ensures Lay(processes, [x] + rest, from)
         == [Interval(processes[x.pid], from, from + x.length)] + Lay(processes, rest, from + x.length)
  {
    assert ([x] + rest)[1..] == rest;
  }

  /** Regrouping a concatenation. The solver knows this fact, but finding the
      right instance inside the loop proofs is expensive without the hint. */
  lemma AppendAssociative<T>(a: seq<T>, b: seq<T>, c: seq<T>)
    ensures (a + b) + c == a + (b + c)
  {
  }

  /** Each interval starts where the previous one ended; the first starts at `from`. */
  predicate Contiguous(t: seq<Interval>, from: int)
  {
    (|t| > 0 ==> t[0].start == from) && forall k :: 0 < k < |t| ==> t[k - 1].end == t[k].start
  }

  /** The time at which the trace ends (`from` for the empty trace). */
  function Finish(t: seq<Interval>, from: int): int
  {
    if t == [] then from else t[|t| - 1].end
  }

  /** A laid-out trace has no gap and no overlap, keeps each slice's process
      and length, and ends when the slices' total time has passed. */
  lemma {:induction false} LayContiguous(processes: seq<string>, slices: seq<Slice>, from: int)
    requires Indexes(slices, |processes|)
    ensures Contiguous(Lay(processes, slices, from), from)
    ensures Finish(Lay(processes, slices, from), from) == from + Total(slices)
    ensures forall k :: 0 <= k < |slices| ==>
      Lay(processes, slices, from)[k].process == processes[slices[k].pid] &&
      Lay(processes, slices, from)[k].Length() == slices[k].length
  {
    if slices != [] {
      var next := from + slices[0].length;
      LayContiguous(processes, slices[1..], next);
      var t := Lay(processes, slices, from);
      var rest := Lay(processes, slices[1..], next);
      assert t == [t[0]] + rest;
      forall k | 0 < k < |t|
        ensures t[k - 1].end == t[k].start
      {
        if k > 1 {
          assert t[k - 1] == rest[k - 2] && t[k] == rest[k - 1];
        }
      }
      forall k | 0 < k < |slices|
        ensures t[k].process == processes[slices[k].pid] && t[k].Length() == slices[k].length
      {
        assert t[k] == rest[k - 1] && slices[k] == slices[1..][k - 1];
      }
    }
  }

  /** Interval `k` starts after the slices before it have run. */
  lemma {:induction false} LayAt(processes: seq<string>, slices: seq<Slice>, from: int, k: nat)
    requires Indexes(slices, |processes|) && k < |slices|
    ensures Lay(processes, slices, from)[k] ==
      Interval(processes[slices[k].pid], from + Total(slices[..k]), from + Total(slices[..k + 1]))
  {
    if k > 0 {
      LayAt(processes, slices[1..], from + slices[0].length, k - 1);
      assert slices[..k][1..] == slices[1..][..k - 1];
      assert slices[..k + 1][1..] == slices[1..][..k];
    }
  }

  /** The time the slices give to process `i`. */
  function Work(slices: seq<Slice>, i: nat): int
  {
    if slices == [] then 0
    else (if slices[0].pid == i then slices[0].length else 0) + Work(slices[1..], i)
  }

  /** No work created or lost: every process below `|bursts|` gets exactly its
      burst, and no other process appears. */
  predicate Conserves(slices: seq<Slice>, bursts: seq<int>)
  {
    Indexes(slices, |bursts|) && forall i :: 0 <= i < |bursts| ==> Work(slices, i) == bursts[i]
  }

  /** The work the slices give to the processes below `n`, added up. */
  function WorkBelow(slices: seq<Slice>, n: nat): int
  {
    if n == 0 then 0 else WorkBelow(slices, n - 1) + Work(slices, n - 1)
  }

  lemma {:induction false} WorkBelowCons(x: Slice, rest: seq<Slice>, n: nat)
    ensures WorkBelow([x] + rest, n) == WorkBelow(rest, n) + (if x.pid < n then x.length else 0)
  {
    assert ([x] + rest)[1..] == rest;
    if n > 0 {
      WorkBelowCons(x, rest, n - 1);
    }
  }

  /** When every slice names a process below `n`, the total time is the sum of
      the work of those processes. */
  lemma {:induction false} TotalIsWork(slices: seq<Slice>, n: nat)
    requires Indexes(slices, n)
    ensures Total(slices) == WorkBelow(slices, n)
  {
    if slices == [] {
      assert forall m: nat :: WorkBelow([], m) == 0 by {
        forall m: nat ensures WorkBelow([], m) == 0 {
          WorkBelowZero(m);
        }
      }
    } else {
      TotalIsWork(slices[1..], n);
      WorkBelowCons(slices[0], slices[1..], n);
      assert [slices[0]] + slices[1..] == slices;
    }
  }

  lemma {:induction false} WorkBelowZero(n: nat)
    ensures WorkBelow([], n) == 0
  {
    if n > 0 {
      WorkBelowZero(n - 1);
    }
  }

  lemma {:induction false} WorkBelowIsSum(slices: seq<Slice>, bursts: seq<int>, n: nat)
    requires n <= |bursts|
    requires forall i :: 0 <= i < n ==> Work(slices, i) == bursts[i]
    ensures WorkBelow(slices, n) == Sum(bursts[..n])
  {
    if n > 0 {
      WorkBelowIsSum(slices, bursts, n - 1);
      assert bursts[..n] == bursts[..n - 1] + [bursts[n - 1]];
      SumAppend(bursts[..n - 1], [bursts[n - 1]]);
    }
  }

  /** Coverage: a schedule that conserves every burst is laid out without gaps
      over exactly [0, sum of the bursts]. */
  lemma Coverage(processes: seq<string>, slices: seq<Slice>, bursts: seq<int>)
    requires Conserves(slices, bursts) && |bursts| <= |processes|
    ensures Contiguous(Lay(processes, slices, 0), 0)
    ensures Finish(Lay(processes, slices, 0), 0) == Sum(bursts)
  {
    LayContiguous(processes, slices, 0);
    TotalIsWork(slices, |bursts|);
    WorkBelowIsSum(slices, bursts, |bursts|);
    assert bursts[..|bursts|] == bursts;
  }
}
