/** The bounded latency histogram: bucket counts, quantiles read from them, and the cumulative
    buckets of the Prometheus exposition. */
module Histograms {
  import opened Sums
  import opened Sorting

  /** The first bucket whose upper bound reaches ms; the overflow bucket when none does. */
  ghost function BucketOf(bounds: seq<int>, ms: real): (k: nat)
    ensures k <= |bounds|
    ensures k < |bounds| ==> ms <= bounds[k] as real
    ensures forall i :: 0 <= i < k ==> ms > bounds[i] as real
  {
    if bounds == [] || ms <= bounds[0] as real then 0 else 1 + BucketOf(bounds[1..], ms)
  }

  function AtLeastZero(ms: real): real {
    if ms < 0.0 then 0.0 else ms
  }

  ghost function InBucket(bounds: seq<int>, k: nat): real -> int {
    (ms: real) => if BucketOf(bounds, ms) == k then 1 else 0
  }

  ghost function UpToBucket(bounds: seq<int>, k: int): real -> int {
    (ms: real) => if BucketOf(bounds, ms) <= k then 1 else 0
  }

  /** How many samples fall in bucket k. */
  ghost function Held(bounds: seq<int>, samples: seq<real>, k: nat): int {
    SumBy(samples, InBucket(bounds, k))
  }

  /** How many samples fall in buckets 0..k. */
  ghost function HeldUpTo(bounds: seq<int>, samples: seq<real>, k: int): int {
    SumBy(samples, UpToBucket(bounds, k))
  }

  lemma {:induction false} HeldUpToStep(bounds: seq<int>, samples: seq<real>, k: nat)
    ensures HeldUpTo(bounds, samples, k) == HeldUpTo(bounds, samples, k - 1) + Held(bounds, samples, k)
  {
    if samples != [] {
      HeldUpToStep(bounds, samples[..|samples| - 1], k);
    }
  }

  lemma {:induction false} HeldUpToRange(bounds: seq<int>, samples: seq<real>, k: int)
    ensures 0 <= HeldUpTo(bounds, samples, k) <= |samples|
    ensures k < 0 ==> HeldUpTo(bounds, samples, k) == 0
    ensures k >= |bounds| ==> HeldUpTo(bounds, samples, k) == |samples|
  {
    if samples != [] {
      HeldUpToRange(bounds, samples[..|samples| - 1], k);
    }
  }

  predicate RealLe(a: real, b: real) {
    a <= b
  }

  /** A larger sample never lands in an earlier bucket. */
  lemma BucketMonotone(bounds: seq<int>, a: real, b: real)
    requires a <= b
    ensures BucketOf(bounds, a) <= BucketOf(bounds, b)
  {
    var k := BucketOf(bounds, b);
    assert k < |bounds| ==> a <= bounds[k] as real;
  }

  lemma HeldUpToLast(bounds: seq<int>, s: seq<real>, k: int)
    requires s != []
    ensures HeldUpTo(bounds, s, k) ==
      HeldUpTo(bounds, s[..|s| - 1], k) + if BucketOf(bounds, s[|s| - 1]) <= k then 1 else 0
  {}

  /** In ascending order, the samples of buckets 0..k come first. */
  lemma {:induction false} SortedByBucket(bounds: seq<int>, s: seq<real>, k: int, i: nat)
    requires Sorted(RealLe, s) && i < |s|
    ensures BucketOf(bounds, s[i]) <= k <==> i < HeldUpTo(bounds, s, k)
  {
    var front, x := s[..|s| - 1], s[|s| - 1];
    HeldUpToRange(bounds, front, k);
    HeldUpToLast(bounds, s, k);
    if i < |front| {
      SortedByBucket(bounds, front, k, i);
      assert RealLe(s[i], x) && front[i] == s[i];
      BucketMonotone(bounds, s[i], x);
    } else if BucketOf(bounds, x) <= k {
      AllUpTo(bounds, front, k, x);
    }
  }

  lemma {:induction false} AllUpTo(bounds: seq<int>, s: seq<real>, k: int, x: real)
    requires BucketOf(bounds, x) <= k && forall i :: 0 <= i < |s| ==> s[i] <= x
    ensures HeldUpTo(bounds, s, k) == |s|
  {
    if s != [] {
      BucketMonotone(bounds, s[|s| - 1], x);
      AllUpTo(bounds, s[..|s| - 1], k, x);
    }
  }

  function Ceil(x: real): int {
    -((-x).Floor)
  }

  /** The rank a quantile asks for: ceil(q * n), at least one. */
  function Rank(q: real, n: int): int {
    if Ceil(q * n as real) >= 1 then Ceil(q * n as real) else 1
  }

  /** The bound of the bucket holding the rank-th smallest sample; the last bound on overflow or past the end. */
  ghost function OrderStatistic(bounds: seq<int>, samples: seq<real>, rank: int): int
    requires rank >= 1
  {
    if bounds == [] || samples == [] then 0
    else
      var s := Sort(RealLe, samples);
      if rank <= |s| && BucketOf(bounds, s[rank - 1]) < |bounds| then bounds[BucketOf(bounds, s[rank - 1])]
      else bounds[|bounds| - 1]
  }

  lemma RankUpToBucket(bounds: seq<int>, samples: seq<real>, rank: int, k: int)
    requires 1 <= rank <= |samples|
    ensures |Sort(RealLe, samples)| == |samples|
    ensures BucketOf(bounds, Sort(RealLe, samples)[rank - 1]) <= k <==> rank <= HeldUpTo(bounds, samples, k)
  {
    SortSorts(RealLe, samples);
    HeldSorted(bounds, samples, k);
    SortedByBucket(bounds, Sort(RealLe, samples), k, rank - 1);
  }

  lemma HeldSorted(bounds: seq<int>, samples: seq<real>, k: int)
    ensures HeldUpTo(bounds, Sort(RealLe, samples), k) == HeldUpTo(bounds, samples, k)
  {
    SortSorts(RealLe, samples);
    SumByPermutation(Sort(RealLe, samples), samples, UpToBucket(bounds, k));
  }

  /** The rank-th smallest sample lies in bucket k exactly when the running count reaches the rank there. */
  lemma RankInBucket(bounds: seq<int>, samples: seq<real>, rank: int, k: nat)
    requires 1 <= rank <= |samples| && k <= |bounds|
    ensures |Sort(RealLe, samples)| == |samples|
    ensures BucketOf(bounds, Sort(RealLe, samples)[rank - 1]) == k
       <==> HeldUpTo(bounds, samples, k - 1) < rank <= HeldUpTo(bounds, samples, k)
  {
    RankUpToBucket(bounds, samples, rank, k);
    RankUpToBucket(bounds, samples, rank, k - 1);
  }

  lemma StatisticAt(bounds: seq<int>, samples: seq<real>, rank: int, k: nat)
    requires bounds != [] && 1 <= rank <= |samples| && k <= |bounds|
    requires HeldUpTo(bounds, samples, k - 1) < rank <= HeldUpTo(bounds, samples, k)
    ensures OrderStatistic(bounds, samples, rank) == bounds[if k < |bounds| then k else |bounds| - 1]
  {
    RankInBucket(bounds, samples, rank, k);
  }

  lemma StatisticPastEnd(bounds: seq<int>, samples: seq<real>, rank: int)
    requires bounds != [] && samples != [] && rank > |samples|
    ensures OrderStatistic(bounds, samples, rank) == bounds[|bounds| - 1]
  {
    SortSorts(RealLe, samples);
  }

  class BoundedHistogram {
    const bounds: seq<int>
    const counts: array<int>
    ghost var samples: seq<real>

    ghost predicate Valid()
      reads this, counts
    {
      && counts.Length == |bounds| + 1
      && forall k :: 0 <= k < counts.Length ==> counts[k] == Held(bounds, samples, k)
    }

    constructor (bounds: seq<int>)
      ensures Valid() && fresh(counts) && this.bounds == bounds && samples == []
    {
      this.bounds := bounds;
      counts := new int[|bounds| + 1](_ => 0);
      samples := [];
    }

    method Observe(ms0: real)
      requires Valid()
      modifies this`samples, counts
      ensures Valid() && samples == old(samples) + [AtLeastZero(ms0)]
    {
      var ms := ms0;
      if ms < 0.0 {
        ms := 0.0;
      }
      ghost var was := samples;
      samples := samples + [ms];
      assert samples[..|was|] == was;
      var idx := 0;
      while idx < |bounds|
        invariant idx <= |bounds| && forall i :: 0 <= i < idx ==> ms > bounds[i] as real
        invariant counts[..] == old(counts[..])
      {
        if ms <= bounds[idx] as real {
          break;
        }
        idx := idx + 1;
      }
      assert BucketOf(bounds, ms) == idx;
      forall k: nat ensures Held(bounds, samples, k) == Held(bounds, was, k) + (if k == idx then 1 else 0) {
        assert Held(bounds, samples, k) == Held(bounds, was, k) + InBucket(bounds, k)(ms);
      }
      assert forall k :: 0 <= k < counts.Length ==> counts[k] == old(counts[..])[k];
      counts[idx] := counts[idx] + 1;
    }

    /** The sum of all counts. */
    method CountTotal() returns (total: int)
      requires Valid()
      ensures total == |samples|
    {
      total := 0;
      HeldUpToRange(bounds, samples, -1);
      for idx := 0 to counts.Length
        invariant total == HeldUpTo(bounds, samples, idx - 1)
      {
        HeldUpToStep(bounds, samples, idx);
        total := total + counts[idx];
      }
      HeldUpToRange(bounds, samples, |bounds|);
    }

    method Quantile(q: real) returns (r: int)
      requires Valid()
      ensures r == OrderStatistic(bounds, samples, Rank(q, |samples|))
    {
      if |bounds| == 0 {
        return 0;
      }
      var total := CountTotal();
      if total == 0 {
        return 0;
      }
      r := Scan(Rank(q, total));
    }

    /** Walks the buckets until the running count reaches the target rank. */
    method Scan(target: int) returns (r: int)
      requires Valid() && bounds != [] && samples != [] && target >= 1
      ensures r == OrderStatistic(bounds, samples, target)
    {
      var seen := 0;
      HeldUpToRange(bounds, samples, -1);
      for idx := 0 to counts.Length
        invariant seen == HeldUpTo(bounds, samples, idx - 1) < target
      {
        HeldUpToStep(bounds, samples, idx);
        HeldUpToRange(bounds, samples, idx);
        seen := seen + counts[idx];
        if seen >= target {
          StatisticAt(bounds, samples, target, idx);
          if idx < |bounds| {
            return bounds[idx];
          }
          return bounds[|bounds| - 1];
        }
      }
      HeldUpToRange(bounds, samples, |bounds|);
      StatisticPastEnd(bounds, samples, target);
      r := bounds[|bounds| - 1];
    }

    /** The cumulative buckets, one per bound and a last one for +Inf. */
    method CumulativeBuckets() returns (out: seq<int>)
      requires Valid()
      ensures |out| == |bounds| + 1
      ensures forall k :: 0 <= k < |out| ==> out[k] == HeldUpTo(bounds, samples, k)
    {
      out := [];
      var cumulative := 0;
      HeldUpToRange(bounds, samples, -1);
      for idx := 0 to |bounds|
        invariant |out| == idx && cumulative == HeldUpTo(bounds, samples, idx - 1)
        invariant forall k :: 0 <= k < idx ==> out[k] == HeldUpTo(bounds, samples, k)
      {
        HeldUpToStep(bounds, samples, idx);
        cumulative := cumulative + counts[idx];
        out := out + [cumulative];
      }
      HeldUpToStep(bounds, samples, |bounds|);
      cumulative := cumulative + counts[counts.Length - 1];
      out := out + [cumulative];
    }
  }

  ghost predicate Ascending(bounds: seq<int>) {
    forall i, j :: 0 <= i < j < |bounds| ==> bounds[i] < bounds[j]
  }

  /** With ascending bounds a higher quantile never reads lower. */
  lemma QuantileMonotone(bounds: seq<int>, samples: seq<real>, q1: real, q2: real)
    requires Ascending(bounds) && q1 <= q2
    ensures OrderStatistic(bounds, samples, Rank(q1, |samples|)) <= OrderStatistic(bounds, samples, Rank(q2, |samples|))
  {
    RankMonotone(q1, q2, |samples|);
    StatisticMonotone(bounds, samples, Rank(q1, |samples|), Rank(q2, |samples|));
  }

  lemma RankMonotone(q1: real, q2: real, n: nat)
    requires q1 <= q2
    ensures Rank(q1, n) <= Rank(q2, n)
  {
    assert (q2 - q1) * n as real >= 0.0;
    assert q2 * n as real == q1 * n as real + (q2 - q1) * n as real;
  }

  lemma StatisticMonotone(bounds: seq<int>, samples: seq<real>, r1: int, r2: int)
    requires Ascending(bounds) && 1 <= r1 <= r2
    ensures OrderStatistic(bounds, samples, r1) <= OrderStatistic(bounds, samples, r2)
  {
    var s := Sort(RealLe, samples);
    SortSorts(RealLe, samples);
    if bounds != [] && samples != [] {
      if r2 <= |s| {
        assert r1 == r2 || RealLe(s[r1 - 1], s[r2 - 1]);
        BucketMonotone(bounds, s[r1 - 1], s[r2 - 1]);
        StatisticIs(bounds, samples, r2);
      } else {
        StatisticPastEnd(bounds, samples, r2);
      }
      if r1 <= |s| {
        StatisticIs(bounds, samples, r1);
      }
    }
  }

  lemma StatisticIs(bounds: seq<int>, samples: seq<real>, rank: int)
    requires bounds != [] && 1 <= rank <= |samples|
    ensures |Sort(RealLe, samples)| == |samples|
    ensures var at := BucketOf(bounds, Sort(RealLe, samples)[rank - 1]);
      OrderStatistic(bounds, samples, rank) == bounds[if at < |bounds| then at else |bounds| - 1]
  {
    SortSorts(RealLe, samples);
  }

  /** The emitted cumulative buckets never decrease and the last one is the sample count. */
  lemma CumulativeShape(bounds: seq<int>, samples: seq<real>, j: nat, k: nat)
    requires j <= k <= |bounds|
    ensures HeldUpTo(bounds, samples, j) <= HeldUpTo(bounds, samples, k)
    ensures HeldUpTo(bounds, samples, |bounds|) == |samples|
    decreases k - j
  {
    HeldUpToRange(bounds, samples, |bounds|);
    if j < k {
      CumulativeShape(bounds, samples, j, k - 1);
      HeldUpToStep(bounds, samples, k);
      SumByBounds(samples, InBucket(bounds, k));
    }
  }

  /** How many samples are at most x. */
  ghost function AtMost(x: real): real -> int {
    (s: real) => if s <= x then 1 else 0
  }

  /** With ascending bounds the samples of buckets 0..k are those at most the k-th bound. */
  lemma {:induction false} HeldIsAtMost(bounds: seq<int>, samples: seq<real>, k: nat)
    requires Ascending(bounds) && k < |bounds|
    ensures HeldUpTo(bounds, samples, k) == SumBy(samples, AtMost(bounds[k] as real))
  {
    if samples != [] {
      HeldIsAtMost(bounds, samples[..|samples| - 1], k);
    }
  }

  /** The rank is the least one that reaches q of the samples, and at least one. */
  lemma RankIsLeast(q: real, n: nat)
    ensures Rank(q, n) >= 1 && Rank(q, n) as real >= q * n as real
    ensures Rank(q, n) > 1 ==> (Rank(q, n) - 1) as real < q * n as real
  {}

  /** A quantile reads the least bound that at least q of the samples do not exceed, the last bound when none is. */
  lemma QuantileIsLeast(bounds: seq<int>, samples: seq<real>, q: real, k: nat)
    requires Ascending(bounds) && k < |bounds| && samples != []
    ensures
      var r, rank := OrderStatistic(bounds, samples, Rank(q, |samples|)), Rank(q, |samples|);
      && (SumBy(samples, AtMost(bounds[k] as real)) >= rank ==> r <= bounds[k])
      && (SumBy(samples, AtMost(bounds[k] as real)) < rank ==> r > bounds[k] || r == bounds[|bounds| - 1])
      && r in bounds
  {
    HeldIsAtMost(bounds, samples, k);
    StatisticIsLeast(bounds, samples, Rank(q, |samples|), k);
  }

  lemma StatisticIsLeast(bounds: seq<int>, samples: seq<real>, rank: int, k: nat)
    requires Ascending(bounds) && k < |bounds| && samples != [] && rank >= 1
    ensures
      var r := OrderStatistic(bounds, samples, rank);
      && (HeldUpTo(bounds, samples, k) >= rank ==> r <= bounds[k])
      && (HeldUpTo(bounds, samples, k) < rank ==> r > bounds[k] || r == bounds[|bounds| - 1])
      && r in bounds
  {
    HeldUpToRange(bounds, samples, k);
    if rank <= |samples| {
      RankUpToBucket(bounds, samples, rank, k);
      StatisticIs(bounds, samples, rank);
      var at := BucketOf(bounds, Sort(RealLe, samples)[rank - 1]);
      if at < |bounds| && at != k {
        assert at < k <==> bounds[at] < bounds[k];
      }
    } else {
      StatisticPastEnd(bounds, samples, rank);
    }
  }
}
