/** Round robin (`round_robin`): the processes wait in a FIFO queue, first in
    input order; the front process runs for the time quantum and goes to the
    back of the queue if it needs more than the quantum, and otherwise runs
    for what it has left and leaves the queue. */
module TimeSlicing {
  import opened Trace
  import opened Selection
  import opened RunToCompletion

  /** A queue entry: process `pid` with `left` time units still to run. */
  datatype Waiting = Waiting(pid: nat, left: int)

  /** How many turns a process with `left` units takes: one more for every
      full quantum it is sent back with. */
  function Rounds(left: int, quantum: int): (r: nat)
    requires quantum > 0
    ensures r >= 1
    decreases left
  {
    if left > quantum then 1 + Rounds(left - quantum, quantum) else 1
  }

  /** The turns every entry of the queue still has to take. */
  function Turns(queue: seq<Waiting>, quantum: int): nat
    requires quantum > 0
  {
    if queue == [] then 0 else Rounds(queue[0].left, quantum) + Turns(queue[1..], quantum)
  }

  lemma {:induction false} TurnsAppend(a: seq<Waiting>, b: seq<Waiting>, quantum: int)
    requires quantum > 0
    ensures Turns(a + b, quantum) == Turns(a, quantum) + Turns(b, quantum)
  {
    if a == [] {
      assert a + b == b;
    } else {
      assert (a + b)[1..] == a[1..] + b;
      TurnsAppend(a[1..], b, quantum);
    }
  }

  /** The slice the front of the queue runs for: the quantum, or what it has
      left if that is no more. */
  function Turn(w: Waiting, quantum: int): (s: Slice)
    ensures s.pid == w.pid && s.length <= quantum && s.length <= w.left
    ensures s.length == quantum || s.length == w.left
  {
    Slice(w.pid, if w.left > quantum then quantum else w.left)
  }

  /** The decisions of round robin from the given queue: one slice per turn,
      none longer than the quantum. */
  function RoundRobinSlices(queue: seq<Waiting>, quantum: int): (s: seq<Slice>)
    requires quantum > 0
    ensures |s| == Turns(queue, quantum)
    ensures forall k :: 0 <= k < |s| ==> s[k].length <= quantum
    decreases Turns(queue, quantum)
  {
    if queue == [] then []
    else
      var w := queue[0];
      if w.left > quantum then
        var back := Waiting(w.pid, w.left - quantum);
        TurnsAppend(queue[1..], [back], quantum);
        [Turn(w, quantum)] + RoundRobinSlices(queue[1..] + [back], quantum)
      else
        [Turn(w, quantum)] + RoundRobinSlices(queue[1..], quantum)
  }

  /** The queue the method holds, as entries: each index with its remaining time. */
  function Queue(remaining: seq<int>, queue: seq<nat>): (q: seq<Waiting>)
    requires forall k :: 0 <= k < |queue| ==> queue[k] < |remaining|
    ensures |q| == |queue|
  {
    seq(|queue|, k requires 0 <= k < |queue| => Waiting(queue[k], remaining[queue[k]]))
  }

  /** No index waits twice. */
  predicate Distinct(queue: seq<nat>)
  {
    forall a, b :: 0 <= a < b < |queue| ==> queue[a] != queue[b]
  }

  /** The queue `list(range(n))` starts from, with the bursts as remaining times. */
  function Initial(bursts: seq<int>, n: nat): seq<Waiting>
    requires n <= |bursts|
  {
    Queue(bursts, Range(n))
  }

  /** The time the entries of `queue` for process `i` still have to run. */
  function Amount(queue: seq<Waiting>, i: nat): int
  {
    if queue == [] then 0
    else (if queue[0].pid == i then queue[0].left else 0) + Amount(queue[1..], i)
  }

  lemma {:induction false} AmountAppend(a: seq<Waiting>, b: seq<Waiting>, i: nat)
    ensures Amount(a + b, i) == Amount(a, i) + Amount(b, i)
  {
    if a == [] {
      assert a + b == b;
    } else {
      assert (a + b)[1..] == a[1..] + b;
      AmountAppend(a[1..], b, i);
    }
  }

  /** The first turn of a schedule, unfolded. */
  lemma RoundRobinHead(queue: seq<Waiting>, quantum: int)
    requires quantum > 0 && queue != []
    ensures RoundRobinSlices(queue, quantum) == [Turn(queue[0], quantum)] + RoundRobinSlices(
      if queue[0].left > quantum then queue[1..] + [Waiting(queue[0].pid, queue[0].left - quantum)]
      else queue[1..], quantum)
  {
  }

  /** Round robin conserves work: every process runs for exactly the time its
      entries had left, whatever order the queue is in. */
  lemma {:induction false} RoundRobinWork(queue: seq<Waiting>, quantum: int, i: nat)
    requires quantum > 0
    ensures Work(RoundRobinSlices(queue, quantum), i) == Amount(queue, i)
    decreases Turns(queue, quantum)
  {
    if queue != [] {
      var w := queue[0];
      var s := RoundRobinSlices(queue, quantum);
      RoundRobinHead(queue, quantum);
      if w.left > quantum {
        var back := Waiting(w.pid, w.left - quantum);
        TurnsAppend(queue[1..], [back], quantum);
        RoundRobinWork(queue[1..] + [back], quantum, i);
        AmountAppend(queue[1..], [back], i);
        assert s[1..] == RoundRobinSlices(queue[1..] + [back], quantum);
      } else {
        RoundRobinWork(queue[1..], quantum, i);
        assert s[1..] == RoundRobinSlices(queue[1..], quantum);
      }
    }
  }

  /** How many slices give time to process `i`. */
  function Count(slices: seq<Slice>, i: nat): nat
  {
    if slices == [] then 0 else (if slices[0].pid == i then 1 else 0) + Count(slices[1..], i)
  }

  /** The turns the entries of `queue` for process `i` still have to take. */
  function TurnsOf(queue: seq<Waiting>, quantum: int, i: nat): nat
    requires quantum > 0
  {
    if queue == [] then 0
    else (if queue[0].pid == i then Rounds(queue[0].left, quantum) else 0) + TurnsOf(queue[1..], quantum, i)
  }

  lemma {:induction false} TurnsOfAppend(a: seq<Waiting>, b: seq<Waiting>, quantum: int, i: nat)
    requires quantum > 0
    ensures TurnsOf(a + b, quantum, i) == TurnsOf(a, quantum, i) + TurnsOf(b, quantum, i)
  {
    if a == [] {
      assert a + b == b;
    } else {
      assert (a + b)[1..] == a[1..] + b;
      TurnsOfAppend(a[1..], b, quantum, i);
    }
  }

  /** Each process gets exactly the number of turns its remaining time calls for. */
  lemma {:induction false} RoundRobinTurns(queue: seq<Waiting>, quantum: int, i: nat)
    requires quantum > 0
    ensures Count(RoundRobinSlices(queue, quantum), i) == TurnsOf(queue, quantum, i)
    decreases Turns(queue, quantum)
  {
    if queue != [] {
      var w := queue[0];
      var s := RoundRobinSlices(queue, quantum);
      RoundRobinHead(queue, quantum);
      if w.left > quantum {
        var back := Waiting(w.pid, w.left - quantum);
        TurnsAppend(queue[1..], [back], quantum);
        RoundRobinTurns(queue[1..] + [back], quantum, i);
        TurnsOfAppend(queue[1..], [back], quantum, i);
        assert s[1..] == RoundRobinSlices(queue[1..] + [back], quantum);
      } else {
        RoundRobinTurns(queue[1..], quantum, i);
        assert s[1..] == RoundRobinSlices(queue[1..], quantum);
      }
    }
  }

  /** A process with work left takes as many turns as there are quanta in its
      burst, rounded up: its turns hold less than one quantum too few and at
      most the quanta it needs. */
  lemma {:induction false} RoundsCoverBurst(left: int, quantum: int)
    requires quantum > 0 && left > 0
    ensures (Rounds(left, quantum) - 1) * quantum < left <= Rounds(left, quantum) * quantum
    decreases left
  {
    var r := Rounds(left, quantum);
    if left > quantum {
      RoundsCoverBurst(left - quantum, quantum);
      assert r == 1 + Rounds(left - quantum, quantum);
      assert (r - 1) * quantum == r * quantum - quantum;
      assert (r - 2) * quantum == (r - 1) * quantum - quantum;
    } else {
      assert r == 1;
    }
  }

  /** The first round serves the queue in order: the k-th slice belongs to the
      k-th entry and runs for the quantum or what that entry has left. */
  lemma {:induction false} FirstRound(queue: seq<Waiting>, quantum: int, k: nat)
    requires quantum > 0 && k < |queue|
    ensures k < |RoundRobinSlices(queue, quantum)|
    ensures RoundRobinSlices(queue, quantum)[k] == Turn(queue[k], quantum)
    decreases k
  {
    var w := queue[0];
    RoundRobinHead(queue, quantum);
    if k > 0 {
      var rest := if w.left > quantum then queue[1..] + [Waiting(w.pid, w.left - quantum)] else queue[1..];
      assert rest[k - 1] == queue[k];
      FirstRound(rest, quantum, k - 1);
    }
  }

  /** Every slice names a process of the queue. */
  lemma {:induction false} RoundRobinIndexes(queue: seq<Waiting>, quantum: int, n: nat)
    requires quantum > 0
    requires forall k :: 0 <= k < |queue| ==> queue[k].pid < n
    ensures Indexes(RoundRobinSlices(queue, quantum), n)
    decreases Turns(queue, quantum)
  {
    if queue != [] {
      var w := queue[0];
      RoundRobinHead(queue, quantum);
      if w.left > quantum {
        var back := Waiting(w.pid, w.left - quantum);
        TurnsAppend(queue[1..], [back], quantum);
        RoundRobinIndexes(queue[1..] + [back], quantum, n);
      } else {
        RoundRobinIndexes(queue[1..], quantum, n);
      }
    }
  }

  /** In a queue of distinct indices, an index's time is its remaining time
      if it waits and nothing otherwise. */
  lemma {:induction false} AmountOfQueue(remaining: seq<int>, queue: seq<nat>, i: nat)
    requires forall k :: 0 <= k < |queue| ==> queue[k] < |remaining|
    requires Distinct(queue) && i < |remaining|
    ensures Amount(Queue(remaining, queue), i) == if i in queue then remaining[i] else 0
  {
    if queue != [] {
      var q := Queue(remaining, queue);
      assert q[1..] == Queue(remaining, queue[1..]);
      AmountOfQueue(remaining, queue[1..], i);
      assert queue == [queue[0]] + queue[1..];
      if queue[0] == i {
        assert i !in queue[1..] by {
          forall k | 0 <= k < |queue[1..]| ensures queue[1..][k] != i {
            assert queue[1..][k] == queue[k + 1];
          }
        }
      }
    }
  }

  lemma RangeDistinct(n: nat)
    ensures Distinct(Range(n))
    ensures forall i :: i in Range(n) <==> 0 <= i < n
  {
    forall i | 0 <= i < n ensures i in Range(n) {
      assert Range(n)[i] == i;
    }
  }

  /** Round robin conserves every burst of the first `n` processes, so its
      trace covers [0, sum of those bursts] without gaps. */
  lemma RoundRobinCovers(processes: seq<string>, bursts: seq<int>, quantum: int)
    requires quantum > 0 && |processes| <= |bursts|
    ensures Conserves(RoundRobinSlices(Initial(bursts, |processes|), quantum), bursts[..|processes|])
    ensures Contiguous(Lay(processes, RoundRobinSlices(Initial(bursts, |processes|), quantum), 0), 0)
    ensures Finish(Lay(processes, RoundRobinSlices(Initial(bursts, |processes|), quantum), 0), 0)
         == Sum(bursts[..|processes|])
  {
    var n := |processes|;
    var initial := Initial(bursts, n);
    var slices := RoundRobinSlices(initial, quantum);
    RangeDistinct(n);
    RoundRobinIndexes(initial, quantum, n);
    forall i | 0 <= i < n
      ensures Work(slices, i) == bursts[..n][i]
    {
      RoundRobinWork(initial, quantum, i);
      AmountOfQueue(bursts, Range(n), i);
    }
    Coverage(processes, slices, bursts[..n]);
  }

  /** One turn of the loop: popping the front index and, if it needs more than
      the quantum, appending it with a quantum less, gives the entries of the
      schedule's next queue. */
  lemma PopAndRequeue(remaining: seq<int>, queue: seq<nat>, quantum: int)
    requires forall k :: 0 <= k < |queue| ==> queue[k] < |remaining|
    requires Distinct(queue) && queue != []
    ensures queue[0] !in queue[1..]
    ensures Queue(remaining, queue[1..]) == Queue(remaining, queue)[1..]
    ensures Queue(remaining[queue[0] := remaining[queue[0]] - quantum], queue[1..] + [queue[0]])
         == Queue(remaining, queue)[1..] + [Waiting(queue[0], remaining[queue[0]] - quantum)]
  {
    var i := queue[0];
    forall k | 0 <= k < |queue[1..]| ensures queue[1..][k] != i {
      assert queue[1..][k] == queue[k + 1];
    }
  }

  /** The distinct indices of `queue` minus its front, plus that front at the
      back, are still distinct. */
  lemma RequeueDistinct(queue: seq<nat>)
    requires Distinct(queue) && queue != []
    ensures Distinct(queue[1..]) && Distinct(queue[1..] + [queue[0]])
  {
    var r := queue[1..] + [queue[0]];
    forall a, b | 0 <= a < b < |r| ensures r[a] != r[b] {
      if b == |r| - 1 {
        assert r[a] == queue[a + 1] && r[b] == queue[0];
      } else {
        assert r[a] == queue[a + 1] && r[b] == queue[b + 1];
      }
    }
  }

  /** Every entry takes at least one turn. */
  lemma {:induction false} TurnsAtLeast(queue: seq<Waiting>, quantum: int)
    requires quantum > 0
    ensures Turns(queue, quantum) >= |queue|
  {
    if queue != [] {
      TurnsAtLeast(queue[1..], quantum);
    }
  }

  /** What the round robin trace promises: no gap, the paired bursts in
      total, no interval longer than the quantum, and a first round that
      serves every process once, in input order, for the quantum or its whole
      burst if that is no more. */
  lemma RoundRobinTrace(processes: seq<string>, bursts: seq<int>, quantum: int)
    requires |processes| <= |bursts| && quantum > 0
    ensures Indexes(RoundRobinSlices(Initial(bursts, |processes|), quantum), |processes|)
    ensures var t := Lay(processes, RoundRobinSlices(Initial(bursts, |processes|), quantum), 0);
      && Contiguous(t, 0) && Finish(t, 0) == Sum(bursts[..|processes|])
      && (forall k :: 0 <= k < |t| ==> t[k].Length() <= quantum)
      && |processes| <= |t|
      && forall k :: 0 <= k < |processes| ==>
           t[k].process == processes[k] && t[k].Length() == Min(bursts[k], quantum)
  {
    var n := |processes|;
    var initial := Initial(bursts, n);
    var slices := RoundRobinSlices(initial, quantum);
    RoundRobinIndexes(initial, quantum, n);
    RoundRobinCovers(processes, bursts, quantum);
    LayContiguous(processes, slices, 0);
    TurnsAtLeast(initial, quantum);
    forall k | 0 <= k < n
      ensures slices[k] == Turn(initial[k], quantum)
    {
      FirstRound(initial, quantum, k);
    }
  }

  /** A turn that sends the front index back takes one of the queue's turns:
      the index comes back with a quantum less, which takes one turn fewer. */
  lemma RequeueFewer(remaining: seq<int>, queue: seq<nat>, quantum: int)
    requires quantum > 0 && forall k :: 0 <= k < |queue| ==> queue[k] < |remaining|
    requires Distinct(queue) && queue != [] && remaining[queue[0]] > quantum
    ensures Turns(Queue(remaining[queue[0] := remaining[queue[0]] - quantum], queue[1..] + [queue[0]]), quantum)
          < Turns(Queue(remaining, queue), quantum)
  {
    var w := Queue(remaining, queue);
    PopAndRequeue(remaining, queue, quantum);
    TurnsAppend(w[1..], [Waiting(queue[0], remaining[queue[0]] - quantum)], quantum);
  }

  /** A turn that ends the front index takes one of the queue's turns. */
  lemma LastTurnFewer(remaining: seq<int>, queue: seq<nat>, quantum: int)
    requires quantum > 0 && forall k :: 0 <= k < |queue| ==> queue[k] < |remaining|
    requires Distinct(queue) && queue != [] && remaining[queue[0]] <= quantum
    ensures Turns(Queue(remaining, queue[1..]), quantum) < Turns(Queue(remaining, queue), quantum)
  {
    PopAndRequeue(remaining, queue, quantum);
  }

  /** The `round_robin` loop as a function of its state: the intervals it
      appends from clock `from` on, given the remaining times and the queue of
      indices. */
  function Run(processes: seq<string>, remaining: seq<int>, queue: seq<nat>, quantum: int, from: int): seq<Interval>
    requires quantum > 0 && |processes| <= |remaining|
    requires forall k :: 0 <= k < |queue| ==> queue[k] < |processes|
    requires Distinct(queue)
    decreases Turns(Queue(remaining, queue), quantum)
  {
    if queue == [] then []
    else
      var i := queue[0];
      RequeueDistinct(queue);
      if remaining[i] > quantum then
        RequeueFewer(remaining, queue, quantum);
        [Interval(processes[i], from, from + quantum)]
          + Run(processes, remaining[i := remaining[i] - quantum], queue[1..] + [i], quantum, from + quantum)
      else
        LastTurnFewer(remaining, queue, quantum);
        [Interval(processes[i], from, from + remaining[i])]
          + Run(processes, remaining, queue[1..], quantum, from + remaining[i])
  }

  /** One turn of the loop that sends the front index `i` back, unfolded. */
  lemma RequeueUnfolds(processes: seq<string>, remaining: seq<int>, queue: seq<nat>, i: nat, quantum: int, from: int)
    requires quantum > 0 && |processes| <= |remaining|
    requires forall k :: 0 <= k < |queue| ==> queue[k] < |processes|
    requires Distinct(queue) && queue != [] && i == queue[0] && remaining[i] > quantum
    ensures Distinct(queue[1..] + [i])
    ensures Turns(Queue(remaining[i := remaining[i] - quantum], queue[1..] + [i]), quantum)
          < Turns(Queue(remaining, queue), quantum)
    ensures Run(processes, remaining, queue, quantum, from)
         == [Interval(processes[i], from, from + quantum)]
            + Run(processes, remaining[i := remaining[i] - quantum], queue[1..] + [i], quantum, from + quantum)
  {
    RequeueDistinct(queue);
    RequeueFewer(remaining, queue, quantum);
  }

  /** One turn of the loop that ends the front index `i`, unfolded. */
  lemma LastTurnUnfolds(processes: seq<string>, remaining: seq<int>, queue: seq<nat>, i: nat, quantum: int, from: int)
    requires quantum > 0 && |processes| <= |remaining|
    requires forall k :: 0 <= k < |queue| ==> queue[k] < |processes|
    requires Distinct(queue) && queue != [] && i == queue[0] && remaining[i] <= quantum
    ensures Distinct(queue[1..])
    ensures Turns(Queue(remaining, queue[1..]), quantum) < Turns(Queue(remaining, queue), quantum)
    ensures Run(processes, remaining, queue, quantum, from)
         == [Interval(processes[i], from, from + remaining[i])]
            + Run(processes, remaining, queue[1..], quantum, from + remaining[i])
  {
    RequeueDistinct(queue);
    LastTurnFewer(remaining, queue, quantum);
  }

  /** A turn that sends the front process back: it runs for the quantum,
      and the rest of the schedule starts a quantum later from the new queue. */
  lemma RequeueStep(processes: seq<string>, remaining: seq<int>, queue: seq<nat>, i: nat, quantum: int, from: int)
    requires quantum > 0 && |processes| <= |remaining|
    requires forall k :: 0 <= k < |queue| ==> queue[k] < |processes|
    requires Distinct(queue) && queue != [] && i == queue[0] && remaining[i] > quantum
    ensures Indexes(RoundRobinSlices(Queue(remaining, queue), quantum), |processes|)
    ensures Indexes(RoundRobinSlices(Queue(remaining[i := remaining[i] - quantum], queue[1..] + [i]), quantum), |processes|)
      && Lay(processes, RoundRobinSlices(Queue(remaining, queue), quantum), from)
         == [Interval(processes[i], from, from + quantum)]
            + Lay(processes, RoundRobinSlices(Queue(remaining[i := remaining[i] - quantum], queue[1..] + [i]), quantum),
                from + quantum)
  {
    var w := Queue(remaining, queue);
    PopAndRequeue(remaining, queue, quantum);
    RoundRobinHead(w, quantum);
    var next := Queue(remaining[i := remaining[i] - quantum], queue[1..] + [i]);
    RoundRobinIndexes(w, quantum, |processes|);
    RoundRobinIndexes(next, quantum, |processes|);
  }


  /** A turn that ends the front process: it runs for what it has left and
      the rest of the schedule follows from the rest of the queue. */
  lemma LastTurnStep(processes: seq<string>, remaining: seq<int>, queue: seq<nat>, i: nat, quantum: int, from: int)
    requires quantum > 0 && |processes| <= |remaining|
    requires forall k :: 0 <= k < |queue| ==> queue[k] < |processes|
    requires Distinct(queue) && queue != [] && i == queue[0] && remaining[i] <= quantum
    ensures Indexes(RoundRobinSlices(Queue(remaining, queue), quantum), |processes|)
    ensures Indexes(RoundRobinSlices(Queue(remaining, queue[1..]), quantum), |processes|)
      && Lay(processes, RoundRobinSlices(Queue(remaining, queue), quantum), from)
         == [Interval(processes[i], from, from + remaining[i])]
            + Lay(processes, RoundRobinSlices(Queue(remaining, queue[1..]), quantum), from + remaining[i])
  {
    var w := Queue(remaining, queue);
    var rest := Queue(remaining, queue[1..]);
    PopAndRequeue(remaining, queue, quantum);
    RoundRobinHead(w, quantum);
    RoundRobinIndexes(w, quantum, |processes|);
    RoundRobinIndexes(rest, quantum, |processes|);
    assert w[0] == Waiting(i, remaining[i]);
    LayCons(processes, Turn(w[0], quantum), RoundRobinSlices(rest, quantum), from);
  }


  /** The loop computes the round robin schedule: from any state, the
      intervals it appends are the schedule of its queue laid out from the
      clock. */
  lemma {:induction false} RunIsSchedule(processes: seq<string>, remaining: seq<int>, queue: seq<nat>,
                                         quantum: int, from: int)
    requires quantum > 0 && |processes| <= |remaining|
    requires forall k :: 0 <= k < |queue| ==> queue[k] < |processes|
    requires Distinct(queue)
    ensures Indexes(RoundRobinSlices(Queue(remaining, queue), quantum), |processes|)
      && Run(processes, remaining, queue, quantum, from)
         == Lay(processes, RoundRobinSlices(Queue(remaining, queue), quantum), from)
    decreases Turns(Queue(remaining, queue), quantum), 1
  {
    if queue == [] {
      assert Queue(remaining, queue) == [];
    } else if remaining[queue[0]] > quantum {
      RequeueIsSchedule(processes, remaining, queue, quantum, from);
    } else {
      LastTurnIsSchedule(processes, remaining, queue, quantum, from);
    }
  }

  /** `RunIsSchedule` for a state whose front index goes back to the queue. */
  lemma {:induction false} RequeueIsSchedule(processes: seq<string>, remaining: seq<int>, queue: seq<nat>,
                                             quantum: int, from: int)
    requires quantum > 0 && |processes| <= |remaining|
    requires forall k :: 0 <= k < |queue| ==> queue[k] < |processes|
    requires Distinct(queue) && queue != [] && remaining[queue[0]] > quantum
    ensures Indexes(RoundRobinSlices(Queue(remaining, queue), quantum), |processes|)
      && Run(processes, remaining, queue, quantum, from)
         == Lay(processes, RoundRobinSlices(Queue(remaining, queue), quantum), from)
    decreases Turns(Queue(remaining, queue), quantum), 0
  {
    var i := queue[0];
    var next, rest := remaining[i := remaining[i] - quantum], queue[1..] + [i];
    RequeueUnfolds(processes, remaining, queue, i, quantum, from);
    RequeueStep(processes, remaining, queue, i, quantum, from);
    RunIsSchedule(processes, next, rest, quantum, from + quantum);
  }

  /** `RunIsSchedule` for a state whose front index takes its last turn. */
  lemma {:induction false} LastTurnIsSchedule(processes: seq<string>, remaining: seq<int>, queue: seq<nat>,
                                              quantum: int, from: int)
    requires quantum > 0 && |processes| <= |remaining|
    requires forall k :: 0 <= k < |queue| ==> queue[k] < |processes|
    requires Distinct(queue) && queue != [] && remaining[queue[0]] <= quantum
    ensures Indexes(RoundRobinSlices(Queue(remaining, queue), quantum), |processes|)
      && Run(processes, remaining, queue, quantum, from)
         == Lay(processes, RoundRobinSlices(Queue(remaining, queue), quantum), from)
    decreases Turns(Queue(remaining, queue), quantum), 0
  {
    var i := queue[0];
    RequeueDistinct(queue);
    LastTurnFewer(remaining, queue, quantum);
    LastTurnStep(processes, remaining, queue, i, quantum, from);
    RunIsSchedule(processes, remaining, queue[1..], quantum, from + remaining[i]);
  }

  /** When the queue runs empty the trace is the whole loop's output, that is
      the round robin schedule, with the properties `RoundRobinTrace` proves. */
  lemma Finished(processes: seq<string>, bursts: seq<int>, quantum: int, trace: seq<Interval>)
    requires |processes| <= |bursts| && quantum > 0
    requires Distinct(Range(|processes|))
    requires trace == Run(processes, bursts, Range(|processes|), quantum, 0)
    ensures Indexes(RoundRobinSlices(Initial(bursts, |processes|), quantum), |processes|)
    ensures trace == Lay(processes, RoundRobinSlices(Initial(bursts, |processes|), quantum), 0)
    ensures Contiguous(trace, 0) && Finish(trace, 0) == Sum(bursts[..|processes|])
    ensures forall k :: 0 <= k < |trace| ==> trace[k].Length() <= quantum
    ensures |processes| <= |trace|
    ensures forall k :: 0 <= k < |processes| ==>
      trace[k].process == processes[k] && trace[k].Length() == Min(bursts[k], quantum)
  {
    RunIsSchedule(processes, bursts, Range(|processes|), quantum, 0);
    RoundRobinTrace(processes, bursts, quantum);
  }

  /** The `round_robin` loop: pop the front index; if its remaining time
      exceeds the quantum, append `(process, t, t + quantum)`, advance the clock,
      take the quantum off and append the index to the queue again; otherwise
      append `(process, t, t + burst)` and advance the clock by that burst. */
  method RoundRobin(processes: seq<string>, bursts: seq<int>, quantum: int) returns (trace: seq<Interval>)
    requires |processes| <= |bursts| && quantum > 0
    ensures Indexes(RoundRobinSlices(Initial(bursts, |processes|), quantum), |processes|)
    ensures trace == Lay(processes, RoundRobinSlices(Initial(bursts, |processes|), quantum), 0)
    ensures Contiguous(trace, 0) && Finish(trace, 0) == Sum(bursts[..|processes|])
    ensures forall k :: 0 <= k < |trace| ==> trace[k].Length() <= quantum
    ensures |processes| <= |trace|
    ensures forall k :: 0 <= k < |processes| ==>
      trace[k].process == processes[k] && trace[k].Length() == Min(bursts[k], quantum)
  {
    var n := |processes|;
    RangeDistinct(n);
    ghost var target := Run(processes, bursts, Range(n), quantum, 0);
    trace := [];
    var currentTime := 0;
    var remaining := bursts;
    var queue: seq<nat> := Range(n);
    while queue != []
      invariant |remaining| == |bursts|
      invariant forall k :: 0 <= k < |queue| ==> queue[k] < n
      invariant Distinct(queue)
      invariant trace + Run(processes, remaining, queue, quantum, currentTime) == target
      decreases Turns(Queue(remaining, queue), quantum)
    {
      ghost var before := queue;
      var i := queue[0];
      queue := queue[1..];
      var process := processes[i];
      var burst := remaining[i];
      if burst > quantum {
        RequeueUnfolds(processes, remaining, before, i, quantum, currentTime);
        AppendAssociative(trace, [Interval(process, currentTime, currentTime + quantum)],
          Run(processes, remaining[i := remaining[i] - quantum], queue + [i], quantum, currentTime + quantum));
        trace := trace + [Interval(process, currentTime, currentTime + quantum)];
        currentTime := currentTime + quantum;
        remaining := remaining[i := remaining[i] - quantum];
        queue := queue + [i];
      } else {
        LastTurnUnfolds(processes, remaining, before, i, quantum, currentTime);
        AppendAssociative(trace, [Interval(process, currentTime, currentTime + burst)],
          Run(processes, remaining, queue, quantum, currentTime + burst));
        trace := trace + [Interval(process, currentTime, currentTime + burst)];
        currentTime := currentTime + burst;
      }
    }
    assert trace + [] == trace;
    Finished(processes, bursts, quantum, trace);
  }

  /** The queue of the example below after each of its turns. */
  lemma RoundRobinExampleSlices(bursts: seq<int>, quantum: int)
    requires bursts == [5, 3] && quantum == 2
    ensures RoundRobinSlices(Initial(bursts, 2), quantum)
         == [Slice(0, 2), Slice(1, 2), Slice(0, 2), Slice(1, 1), Slice(0, 1)]
  {
    var q0 := Initial(bursts, 2);
    assert q0 == [Waiting(0, 5), Waiting(1, 3)];
    var q1 := [Waiting(1, 3), Waiting(0, 3)];
    var q2 := [Waiting(0, 3), Waiting(1, 1)];
    var q3 := [Waiting(1, 1), Waiting(0, 1)];
    var q4 := [Waiting(0, 1)];
    RoundRobinHead(q4, quantum);
    assert q4[1..] == [];
    RoundRobinHead(q3, quantum);
    assert q3[1..] == q4;
    RoundRobinHead(q2, quantum);
    assert q2[1..] + [Waiting(0, 1)] == q3;
    RoundRobinHead(q1, quantum);
    assert q1[1..] + [Waiting(1, 1)] == q2;
    RoundRobinHead(q0, quantum);
    assert q0[1..] + [Waiting(0, 3)] == q1;
  }

  /** The slices of the example below laid out from time 0. */
  lemma RoundRobinExampleTrace(processes: seq<string>, slices: seq<Slice>)
    requires processes == ["A", "B"]
    requires slices == [Slice(0, 2), Slice(1, 2), Slice(0, 2), Slice(1, 1), Slice(0, 1)]
    ensures Lay(processes, slices, 0) == [Interval("A", 0, 2), Interval("B", 2, 4), Interval("A", 4, 6),
                                          Interval("B", 6, 7), Interval("A", 7, 8)]
  {
    assert Lay(processes, slices[4..], 7) == [Interval("A", 7, 8)];
    assert Lay(processes, slices[3..], 6) == [Interval("B", 6, 7), Interval("A", 7, 8)];
    assert Lay(processes, slices[2..], 4) == [Interval("A", 4, 6), Interval("B", 6, 7), Interval("A", 7, 8)];
    assert Lay(processes, slices[1..], 2)
        == [Interval("B", 2, 4), Interval("A", 4, 6), Interval("B", 6, 7), Interval("A", 7, 8)];
  }

  /** Bursts 5 and 3 for A and B with a quantum of 2: A and B take turns of
      2, B ends with its last unit at 6-7 and A with its last at 7-8. */
  lemma RoundRobinExample(processes: seq<string>, bursts: seq<int>, quantum: int)
    requires processes == ["A", "B"] && bursts == [5, 3] && quantum == 2
    ensures Indexes(RoundRobinSlices(Initial(bursts, |processes|), quantum), |processes|)
    ensures Lay(processes, RoundRobinSlices(Initial(bursts, |processes|), quantum), 0)
         == [Interval("A", 0, 2), Interval("B", 2, 4), Interval("A", 4, 6), Interval("B", 6, 7), Interval("A", 7, 8)]
  {
    RoundRobinExampleSlices(bursts, quantum);
    RoundRobinExampleTrace(processes, RoundRobinSlices(Initial(bursts, |processes|), quantum));
  }
}
