/** The two selection rules the schedulers are built on: Python's `min` over
    the processes that still have work (it keeps the first of equal keys), and
    Python's `sorted` (a stable sort), both over process indices. */
module Selection {

  datatype Option<T> = None | Some(value: T)

  /** The indices 0, 1, ..., n - 1, as `range(n)` enumerates them. */
  function Range(n: nat): seq<nat>
  {
    seq(n, i => i)
  }

  /** `i` is what `min(available, key=...)` returns when `available` lists,
      in index order, the indices below `n` with positive remaining time: it
      has work left, no available index has a smaller key, and every available
      index before it has a strictly larger key. */
  predicate IsFirstMin(remaining: seq<int>, key: seq<int>, n: nat, i: nat)
    requires n <= |remaining| == |key|
  {
    i < n && remaining[i] > 0 &&
    (forall j :: 0 <= j < n && remaining[j] > 0 ==> key[i] <= key[j]) &&
    (forall j :: 0 <= j < i && remaining[j] > 0 ==> key[i] < key[j])
  }

  /** The scan `min` does over the available indices below `n`: left to right,
      replacing the current best only by a strictly smaller key. `None` when
      nothing is available (`if available:` in `srtf` and `pp`). */
  function MinAvailable(remaining: seq<int>, key: seq<int>, n: nat): (r: Option<nat>)
    requires n <= |remaining| == |key|
    ensures r.None? <==> forall j :: 0 <= j < n ==> remaining[j] <= 0
    ensures r.Some? ==> IsFirstMin(remaining, key, n, r.value)
  {
    if n == 0 then None
    else
      var best := MinAvailable(remaining, key, n - 1);
      if remaining[n - 1] > 0 && (best.None? || key[n - 1] < key[best.value]) then Some(n - 1)
      else best
  }

  /** The choice reads the key of available indices only: keys that agree on
      them give the same choice. */
  lemma {:induction false} MinAvailableAgrees(remaining: seq<int>, key: seq<int>, other: seq<int>, n: nat)
    requires n <= |remaining| == |key| == |other|
    requires forall j :: 0 <= j < n && remaining[j] > 0 ==> key[j] == other[j]
    ensures MinAvailable(remaining, key, n) == MinAvailable(remaining, other, n)
  {
    if n > 0 {
      MinAvailableAgrees(remaining, key, other, n - 1);
    }
  }

  /** At most one index is the first minimum. */
  lemma FirstMinUnique(remaining: seq<int>, key: seq<int>, n: nat, i: nat, j: nat)
    requires n <= |remaining| == |key|
    requires IsFirstMin(remaining, key, n, i) && IsFirstMin(remaining, key, n, j)
    ensures i == j
  {
  }

  /** Index `i` comes before index `j` in a stable ascending sort by `key`:
      a smaller key first, and input order among equal keys. */
  predicate Before(key: seq<int>, i: nat, j: nat)
    requires i < |key| && j < |key|
  {
    key[i] < key[j] || (key[i] == key[j] && i < j)
  }

  /** `order` lists indices of `key` sorted by key, equal keys in input order. */
  predicate Ordered(key: seq<int>, order: seq<nat>)
  {
    (forall k :: 0 <= k < |order| ==> order[k] < |key|) &&
    forall a, b :: 0 <= a < b < |order| ==> Before(key, order[a], order[b])
  }

  /** `order` lists each of the indices below `n` exactly once. */
  predicate IsPermutation(order: seq<nat>, n: nat)
  {
    multiset(order) == multiset(Range(n))
  }

  /** Inserts index `x` behind every element of the sorted `s` whose key is at
      most `x`'s, so that, `x` being the largest index so far, equal keys stay
      in input order. */
  function Insert(key: seq<int>, x: nat, s: seq<nat>): (r: seq<nat>)
    requires x < |key| && forall k :: 0 <= k < |s| ==> s[k] < |key|
    ensures multiset(r) == multiset(s) + multiset{x}
  {
    if s == [] then [x]
    else if key[s[0]] <= key[x] then
      assert s == [s[0]] + s[1..];
      [s[0]] + Insert(key, x, s[1..])
    else [x] + s
  }

  /** Sorting the indices below `n`: sort those below `n - 1`, then insert
      `n - 1`. */
  function SortBelow(key: seq<int>, n: nat): (order: seq<nat>)
    requires n <= |key|
    ensures forall k :: 0 <= k < |order| ==> order[k] < n
  {
    if n == 0 then []
    else
      var s := SortBelow(key, n - 1);
      InsertBelow(key, s, n - 1);
      Insert(key, n - 1, s)
  }

  /** Inserting `x` among indices below `x` gives indices up to `x`. */
  lemma InsertBelow(key: seq<int>, s: seq<nat>, x: nat)
    requires x < |key| && forall k :: 0 <= k < |s| ==> s[k] < x
    ensures forall k :: 0 <= k < |Insert(key, x, s)| ==> Insert(key, x, s)[k] <= x
  {
    var r := Insert(key, x, s);
    forall k | 0 <= k < |r| ensures r[k] <= x {
      assert r[k] in multiset(r);
      if r[k] != x {
        assert r[k] in multiset(s);
      }
    }
  }

  /** The indices below `n`, as a multiset built one index at a time. */
  function Indices(n: nat): multiset<nat>
  {
    if n == 0 then multiset{} else Indices(n - 1) + multiset{(n - 1) as nat}
  }

  lemma {:induction false} RangeIndices(n: nat)
    ensures multiset(Range(n)) == Indices(n)
  {
    if n > 0 {
      RangeIndices(n - 1);
      assert Range(n) == Range(n - 1) + [n - 1];
    }
  }

  lemma {:induction false} SortBelowIndices(key: seq<int>, n: nat)
    requires n <= |key|
    ensures multiset(SortBelow(key, n)) == Indices(n)
  {
    if n > 0 {
      var s := SortBelow(key, n - 1);
      SortBelowIndices(key, n - 1);
      assert SortBelow(key, n) == Insert(key, n - 1, s);
    }
  }

  /** The sort lists each index below `n` exactly once. */
  lemma SortBelowPermutation(key: seq<int>, n: nat)
    requires n <= |key|
    ensures IsPermutation(SortBelow(key, n), n)
  {
    SortBelowIndices(key, n);
    RangeIndices(n);
  }

  /** The order in which `sorted` lists the indices of `key` when sorting by key. */
  function StableOrder(key: seq<int>): (order: seq<nat>)
  {
    SortBelow(key, |key|)
  }

  /** An index that goes before every element of a sorted sequence can head it. */
  lemma ConsOrdered(key: seq<int>, y: nat, r: seq<nat>)
    requires y < |key| && Ordered(key, r)
    requires forall b :: 0 <= b < |r| ==> Before(key, y, r[b])
    ensures Ordered(key, [y] + r)
  {
    var t := [y] + r;
    forall a, b | 0 <= a < b < |t|
      ensures Before(key, t[a], t[b])
    {
      if a > 0 {
        assert t[a] == r[a - 1] && t[b] == r[b - 1];
      } else {
        assert t[b] == r[b - 1];
      }
    }
  }

  lemma {:induction false} InsertOrdered(key: seq<int>, x: nat, s: seq<nat>)
    requires x < |key| && Ordered(key, s)
    requires forall k :: 0 <= k < |s| ==> s[k] < x
    ensures Ordered(key, Insert(key, x, s))
  {
    if s == [] {
    } else if key[s[0]] <= key[x] {
      InsertOrdered(key, x, s[1..]);
      var r := Insert(key, x, s[1..]);
      forall b | 0 <= b < |r|
        ensures Before(key, s[0], r[b])
      {
        assert r[b] in multiset(r);
        if r[b] != x {
          assert r[b] in multiset(s[1..]);
          var j :| 0 <= j < |s[1..]| && s[1..][j] == r[b];
          assert s[j + 1] == r[b];
        }
      }
      ConsOrdered(key, s[0], r);
    } else {
      forall b | 0 <= b < |s|
        ensures Before(key, x, s[b])
      {
        if b > 0 {
          assert Before(key, s[0], s[b]);
        }
      }
      ConsOrdered(key, x, s);
    }
  }

  lemma {:induction false} SortBelowOrdered(key: seq<int>, n: nat)
    requires n <= |key|
    ensures Ordered(key, SortBelow(key, n))
  {
    if n > 0 {
      SortBelowOrdered(key, n - 1);
      InsertOrdered(key, n - 1, SortBelow(key, n - 1));
    }
  }

  /** `sorted(..., key=...)` is stable: it lists every index exactly once, in
      non-decreasing key order, and equal keys keep their input order. */
  lemma StableOrderCorrect(key: seq<int>)
    ensures IsPermutation(StableOrder(key), |key|)
    ensures |StableOrder(key)| == |key|
    ensures forall a, b :: 0 <= a < b < |StableOrder(key)| ==>
      key[StableOrder(key)[a]] <= key[StableOrder(key)[b]]
    ensures forall a, b :: 0 <= a < b < |StableOrder(key)| ==>
      (key[StableOrder(key)[a]] == key[StableOrder(key)[b]] ==> StableOrder(key)[a] < StableOrder(key)[b])
  {
    SortBelowOrdered(key, |key|);
    SortBelowPermutation(key, |key|);
    var o := StableOrder(key);
    assert |multiset(o)| == |multiset(Range(|key|))|;
    forall a, b | 0 <= a < b < |o|
      ensures key[o[a]] <= key[o[b]]
    {
      assert Before(key, o[a], o[b]);
    }
  }

  lemma OrderedTail(key: seq<int>, a: seq<nat>)
    requires Ordered(key, a) && a != []
    ensures Ordered(key, a[1..])
  {
    forall x, y | 0 <= x < y < |a[1..]|
      ensures Before(key, a[1..][x], a[1..][y])
    {
      assert a[1..][x] == a[x + 1] && a[1..][y] == a[y + 1];
    }
  }

  lemma MultisetTail(a: seq<nat>, b: seq<nat>)
    requires a != [] && b != [] && a[0] == b[0] && multiset(a) == multiset(b)
    ensures multiset(a[1..]) == multiset(b[1..])
  {
    assert a == [a[0]] + a[1..] && b == [b[0]] + b[1..];
    assert multiset(a) == multiset{a[0]} + multiset(a[1..]);
    assert multiset(b) == multiset{b[0]} + multiset(b[1..]);
    assert multiset(a[1..]) == multiset(a) - multiset{a[0]};
    assert multiset(b[1..]) == multiset(b) - multiset{b[0]};
  }

  /** Two sorted sequences of the same non-empty multiset start alike. */
  lemma OrderedHeads(key: seq<int>, a: seq<nat>, b: seq<nat>)
    requires Ordered(key, a) && Ordered(key, b) && multiset(a) == multiset(b) && a != []
    ensures b != [] && a[0] == b[0]
  {
    assert a[0] in multiset(b);
    assert b != [];
    assert b[0] in multiset(a);
    var i :| 0 <= i < |a| && a[i] == b[0];
    var j :| 0 <= j < |b| && b[j] == a[0];
    assert i > 0 ==> Before(key, a[0], b[0]);
    assert j > 0 ==> Before(key, b[0], a[0]);
  }

  /** Two sequences that hold the same indices, each sorted by key with equal
      keys in index order, are the same sequence. */
  lemma {:induction false} OrderedUnique(key: seq<int>, a: seq<nat>, b: seq<nat>)
    requires Ordered(key, a) && Ordered(key, b) && multiset(a) == multiset(b)
    ensures a == b
  {
    if a == [] {
      assert |multiset(b)| == 0;
    } else {
      OrderedHeads(key, a, b);
      MultisetTail(a, b);
      OrderedTail(key, a);
      OrderedTail(key, b);
      OrderedUnique(key, a[1..], b[1..]);
      assert a == [a[0]] + a[1..] && b == [b[0]] + b[1..];
    }
  }

  /** `StableOrder` is the only order of the indices that is sorted by key with
      equal keys in input order: any implementation of a stable sort agrees with it. */
  lemma StableOrderUnique(key: seq<int>, order: seq<nat>)
    requires Ordered(key, order) && IsPermutation(order, |key|)
    ensures order == StableOrder(key)
  {
    SortBelowOrdered(key, |key|);
    SortBelowPermutation(key, |key|);
    OrderedUnique(key, order, StableOrder(key));
  }

  /** A permutation of the indices below `n` contains each of them. */
  lemma PermutationHasAll(order: seq<nat>, n: nat, i: nat)
    requires IsPermutation(order, n) && i < n
    ensures i in order
  {
    assert Range(n)[i] == i;
    assert i in multiset(Range(n));
  }

  lemma {:induction false} RangeCount(n: nat, i: nat)
    ensures multiset(Range(n))[i] == if i < n then 1 else 0
  {
    if n > 0 {
      assert Range(n) == Range(n - 1) + [n - 1];
      RangeCount(n - 1, i);
    }
  }

  /** In a permutation of the indices below `n` no index repeats. */
  lemma PermutationDistinct(order: seq<nat>, n: nat)
    requires IsPermutation(order, n)
    ensures forall i: nat :: multiset(order)[i] == if i < n then 1 else 0
  {
    forall i: nat ensures multiset(order)[i] == if i < n then 1 else 0 {
      RangeCount(n, i);
    }
  }
}
