/** What the fields of a trend point count: observations of the point's bucket, straight from the history. */
module TrendPoints {
  import opened JobStatuses
  import opened Numbers
  import opened Severities
  import opened Sums
  import opened Text
  import opened Ticks
  import opened TrendRings

  /** What one observation adds to a field. */
  datatype Field = Finished | FailedOnes | Queries4 | Queries6 | Hits | Misses | Messages(level: Level)

  function Share(o: Observation, f: Field): int {
    match f
    case Finished => if o.Outcome? && IsTerminal(o.status) then 1 else 0
    case FailedOnes => if o.Outcome? && o.status == Failed then 1 else 0
    case Queries4 => if o.DNSQueries? then Max(o.ipv4, 0) else 0
    case Queries6 => if o.DNSQueries? then Max(o.ipv6, 0) else 0
    case Hits => if o.CacheMetrics? then Max(o.hits, 0) else 0
    case Misses => if o.CacheMetrics? then Max(o.misses, 0) else 0
    case Messages(level) => if o.SeverityTotals? && o.totals.Some? then AtLevel(o.totals.value, level) else 0
  }

  function InBucket(start: int, d: int, f: Field): Observation -> int
    requires d > 0
  {
    (o: Observation) => if o.at - (o.at + EPOCH) % d == start then Share(o, f) else 0
  }

  /** The field's sum over the observations of one bucket. */
  ghost function InAll(h: seq<Observation>, start: int, d: int, f: Field): int
    requires d > 0
  {
    SumBy(h, InBucket(start, d, f))
  }

  function FieldOf(c: Counters, f: Field): int {
    match f
    case Finished => c.throughput
    case FailedOnes => c.failed
    case Queries4 => c.dns4
    case Queries6 => c.dns6
    case Hits => c.hits
    case Misses => c.misses
    case Messages(level) => AtLevel(c.severity, level)
  }

  lemma PlusField(c: Counters, o: Observation, f: Field)
    ensures FieldOf(Plus(c, o), f) == FieldOf(c, f) + Share(o, f)
    ensures c.dns == c.dns4 + c.dns6 ==> Plus(c, o).dns == Plus(c, o).dns4 + Plus(c, o).dns6
  {}

  lemma {:induction false} SummedField(h: seq<Observation>, start: int, d: int, f: Field)
    requires d > 0
    ensures FieldOf(Summed(h, start, d), f) == InAll(h, start, d, f)
    ensures Summed(h, start, d).dns == Summed(h, start, d).dns4 + Summed(h, start, d).dns6
  {
    if h != [] {
      var front, o := h[..|h| - 1], h[|h| - 1];
      SummedField(front, start, d, f);
      PlusField(Summed(front, start, d), o, f);
    }
  }

  lemma {:induction false} SharesNonNegative(h: seq<Observation>, start: int, d: int)
    requires d > 0
    ensures InAll(h, start, d, Hits) >= 0 && InAll(h, start, d, Misses) >= 0
  {
    if h != [] {
      SharesNonNegative(h[..|h| - 1], start, d);
    }
  }

  /** The counts of a point: terminal outcomes, failed ones among them, and messages per level. */
  lemma PointCounts(h: seq<Observation>, from: int, timestamp: int, d: int, level: Level)
    requires d > 0
    ensures
      var p := SpecPoint(h, from, timestamp, d);
      && p.timestamp == timestamp
      && p.throughput == InAll(h, timestamp, d, Finished)
      && p.failed == InAll(h, timestamp, d, FailedOnes)
      && AtLevel(p.severity, level) == InAll(h, timestamp, d, Messages(level))
  {
    SummedField(h, timestamp, d, Finished);
    SummedField(h, timestamp, d, FailedOnes);
    SummedField(h, timestamp, d, Messages(level));
  }

  /** Each DNS rate times the bucket's seconds is its number of queries, the hit rate times the lookups that of hits. */
  ghost predicate RatesExact(p: Point, d: int, v4: int, v6: int, hits: int, misses: int) {
    var seconds := d as real / SECOND as real;
    && p.dns4PerSecond * seconds == v4 as real && p.dns6PerSecond * seconds == v6 as real
    && p.dnsPerSecond * seconds == (v4 + v6) as real
    && p.cacheHitRate * (hits + misses) as real == hits as real
    && (hits + misses == 0 ==> p.cacheHitRate == 0.0)
  }

  /** The rates of a point are those of its bucket's observations. */
  lemma PointRates(h: seq<Observation>, from: int, timestamp: int, d: int)
    requires d > 0
    ensures RatesExact(SpecPoint(h, from, timestamp, d), d, InAll(h, timestamp, d, Queries4), InAll(h, timestamp, d, Queries6),
                       InAll(h, timestamp, d, Hits), InAll(h, timestamp, d, Misses))
  {
    SummedField(h, timestamp, d, Queries4);
    SummedField(h, timestamp, d, Queries6);
    SummedField(h, timestamp, d, Hits);
    SummedField(h, timestamp, d, Misses);
    SharesNonNegative(h, timestamp, d);
    RatesOf(timestamp, Summed(h, timestamp, d), OrZero(LastDepth(h, from, timestamp, d)), d);
  }

  lemma RatesOf(timestamp: int, c: Counters, depth: int, d: int)
    requires d > 0 && c.hits >= 0 && c.misses >= 0 && c.dns == c.dns4 + c.dns6
    ensures RatesExact(PointOf(timestamp, c, depth, d), d, c.dns4, c.dns6, c.hits, c.misses)
  {
    var seconds, lookups := d as real / SECOND as real, (c.hits + c.misses) as real;
    Undivided(c.dns4 as real, seconds);
    Undivided(c.dns6 as real, seconds);
    Undivided(c.dns as real, seconds);
    if lookups > 0.0 {
      Undivided(c.hits as real, lookups);
    }
  }

  lemma Undivided(x: real, y: real)
    requires y > 0.0
    ensures x / y * y == x
  {}

  /** The i-th observation is a queue depth in one of the buckets from..to. */
  ghost predicate DepthAt(h: seq<Observation>, from: int, to: int, d: int, i: nat)
    requires d > 0 && i < |h|
  {
    h[i].QueueDepth? && from <= h[i].at - (h[i].at + EPOCH) % d <= to
  }

  /** The depth of a point is the last one observed from the window's first bucket to its own, zero before any. */
  lemma {:induction false} PointDepth(h: seq<Observation>, from: int, timestamp: int, d: int)
    requires d > 0
    ensures
      var depth := SpecPoint(h, from, timestamp, d).queueDepth;
      || (exists i :: 0 <= i < |h| && DepthAt(h, from, timestamp, d, i) && depth == h[i].depth
            && forall j :: i < j < |h| ==> !DepthAt(h, from, timestamp, d, j))
      || (depth == 0 && forall i :: 0 <= i < |h| ==> !DepthAt(h, from, timestamp, d, i))
  {
    if h != [] {
      var front, last := h[..|h| - 1], |h| - 1;
      PointDepth(front, from, timestamp, d);
      forall i | 0 <= i < last ensures DepthAt(front, from, timestamp, d, i) == DepthAt(h, from, timestamp, d, i) {
        assert front[i] == h[i];
      }
    }
  }

  /** A window between one bucket and the whole ring is shown by as many points as fit it. */
  lemma PointsFill(window: int, d: int, size: int)
    requires d > 0 && size > 0
    ensures var n := PointsAsked(window, d, size);
      && (d <= window < size * d ==> n * d <= window < n * d + d)
      && (window < d ==> n == 1) && (window >= size * d ==> n == size)
  {
    PointsClamped(window, size, d);
    DivParts(window, d);
    if window < d {
      MulOrder(0, size - 1, d);
    }
  }
}
