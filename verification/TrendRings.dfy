/** The trend ring: a fixed number of time buckets reused modulo the ring size, and why a snapshot of it
    agrees with the whole history of observations. Times are nanoseconds since the Unix epoch. */
module TrendRings {
  import opened JobStatuses
  import opened Severities
  import opened Ticks
  import opened Text

  datatype Counters = Counters(
    throughput: int, failed: int, dns: int, dns4: int, dns6: int,
    hits: int, misses: int, evictions: int, severity: Severity)

  const ZERO: Counters := Counters(0, 0, 0, 0, 0, 0, 0, 0, NO_SEVERITY)

  datatype Bucket = Bucket(start: int, counters: Counters, queueDepth: int, queueDepthSet: bool)

  /** A severity observation without totals is the empty map. */
  datatype Observation =
    | QueueDepth(at: int, depth: int)
    | DNSQueries(at: int, ipv4: int, ipv6: int)
    | CacheMetrics(at: int, hits: int, misses: int, evictions: int)
    | Outcome(at: int, status: JobStatus)
    | SeverityTotals(at: int, totals: Option<Severity>)

  function NonNeg(n: int): int {
    if n < 0 then 0 else n
  }

  /** What one observation adds to its bucket's counters. */
  function Plus(c: Counters, o: Observation): Counters {
    match o
    case QueueDepth(_, _) => c
    case DNSQueries(_, v4, v6) =>
      c.(dns := c.dns + NonNeg(v4) + NonNeg(v6), dns4 := c.dns4 + NonNeg(v4), dns6 := c.dns6 + NonNeg(v6))
    case CacheMetrics(_, h, m, e) =>
      c.(hits := c.hits + NonNeg(h), misses := c.misses + NonNeg(m), evictions := c.evictions + NonNeg(e))
    case Outcome(_, status) =>
      if !IsTerminal(status) then c
      else c.(throughput := c.throughput + 1, failed := c.failed + if status.Failed? then 1 else 0)
    case SeverityTotals(_, totals) =>
      if totals.None? then c else c.(severity := PlusSeverity(c.severity, totals.value))
  }

  // --- The specification: the unbounded history ---

  /** The counters of one bucket: the sum over every observation whose time falls in it. */
  ghost function Summed(h: seq<Observation>, start: int, d: int): Counters
    requires d > 0
  {
    if h == [] then ZERO
    else
      var before, o := Summed(h[..|h| - 1], start, d), h[|h| - 1];
      if Truncate(o.at, d) == start then Plus(before, o) else before
  }

  /** The last queue depth observed in the buckets from..to. */
  ghost function LastDepth(h: seq<Observation>, from: int, to: int, d: int): Option<int>
    requires d > 0
  {
    if h == [] then None
    else
      var o := h[|h| - 1];
      if o.QueueDepth? && from <= Truncate(o.at, d) <= to then Some(o.depth)
      else LastDepth(h[..|h| - 1], from, to, d)
  }

  ghost predicate InTimeOrder(h: seq<Observation>, clock: int) {
    && (forall i, j :: 0 <= i < j < |h| ==> h[i].at <= h[j].at)
    && (forall i :: 0 <= i < |h| ==> h[i].at <= clock)
  }

  /** What the bucket that starts here should hold. */
  ghost predicate Holds(b: Bucket, h: seq<Observation>, d: int)
    requires d > 0
  {
    && b.counters == Summed(h, b.start, d)
    && (if b.queueDepthSet then LastDepth(h, b.start, b.start, d) == Some(b.queueDepth)
        else LastDepth(h, b.start, b.start, d).None?)
  }

  /** Nothing in the history belongs to the bucket. */
  ghost predicate Untouched(h: seq<Observation>, start: int, d: int)
    requires d > 0
  {
    Summed(h, start, d) == ZERO && LastDepth(h, start, start, d).None?
  }

  /** The slot of a bucket either holds it or holds another one, and then nothing was observed in it. */
  ghost predicate SlotAgrees(slots: seq<Bucket>, h: seq<Observation>, start: int, d: int)
    requires d >= SECOND && slots != []
  {
    var b := slots[SlotIndex(start, d, |slots|)];
    if b.start == start then Holds(b, h, d) else Untouched(h, start, d)
  }

  /** Every bucket later than a ring before the last one written agrees with the history, if tick counts tell it apart. */
  ghost predicate RingAgrees(slots: seq<Bucket>, h: seq<Observation>, clock: int, d: int)
    requires d >= SECOND && slots != []
  {
    forall start :: IsStart(start, d) && OnTicks(start, d) && start > Truncate(clock, d) - |slots| * d ==>
      SlotAgrees(slots, h, start, d)
  }

  lemma SummedStep(h: seq<Observation>, o: Observation, start: int, d: int)
    requires d > 0
    ensures Summed(h + [o], start, d) == if Truncate(o.at, d) == start then Plus(Summed(h, start, d), o) else Summed(h, start, d)
    ensures LastDepth(h + [o], start, start, d) ==
      if o.QueueDepth? && Truncate(o.at, d) == start then Some(o.depth) else LastDepth(h, start, start, d)
  {
    assert (h + [o])[..|h|] == h;
  }

  /** Observations the source drops before touching a bucket. */
  predicate Dropped(o: Observation) {
    match o
    case QueueDepth(_, _) => false
    case DNSQueries(_, v4, v6) => NonNeg(v4) + NonNeg(v6) == 0
    case CacheMetrics(_, h, m, e) => NonNeg(h) == 0 && NonNeg(m) == 0 && NonNeg(e) == 0
    case Outcome(_, status) => !IsTerminal(status)
    case SeverityTotals(_, totals) => totals.None?
  }

  lemma DroppedAddsNothing(c: Counters, o: Observation)
    requires Dropped(o)
    ensures Plus(c, o) == c && !o.QueueDepth?
  {
  }

  function Updated(b: Bucket, o: Observation): Bucket {
    var added := b.(counters := Plus(b.counters, o));
    if o.QueueDepth? then added.(queueDepth := o.depth, queueDepthSet := true) else added
  }

  function EmptyBucket(start: int): Bucket {
    Bucket(start, ZERO, 0, false)
  }

  /** The bucket a write goes to: the one in the slot, or a reset one when the slot holds another time. */
  function ForWrite(b: Bucket, start: int): Bucket {
    if b.start == start then b else EmptyBucket(start)
  }

  lemma WrittenSlot(b: Bucket, h: seq<Observation>, o: Observation, d: int)
    requires d > 0
    requires if b.start == Truncate(o.at, d) then Holds(b, h, d) else Untouched(h, Truncate(o.at, d), d)
    ensures Holds(Updated(ForWrite(b, Truncate(o.at, d)), o), h + [o], d)
  {
    SummedStep(h, o, Truncate(o.at, d), d);
  }

  /** A write at a time no earlier than the clock keeps every bucket still within a ring of it. */
  lemma WriteKeeps(slots: seq<Bucket>, now: seq<Bucket>, h: seq<Observation>, clock: int, o: Observation, d: int)
    requires WholeSeconds(d) && d >= SECOND && slots != [] && o.at >= clock
    requires RingAgrees(slots, h, clock, d) && InTimeOrder(h, clock)
    requires
      var s := Truncate(o.at, d);
      var i := SlotIndex(s, d, |slots|);
      now == slots[i := Updated(ForWrite(slots[i], s), o)]
    ensures RingAgrees(now, h + [o], o.at, d)
  {
    var s := Truncate(o.at, d);
    TruncateIsFloor(o.at, d);
    TruncateMonotone(clock, o.at, d);
    forall start | IsStart(start, d) && OnTicks(start, d) && start > s - |slots| * d
      ensures SlotAgrees(now, h + [o], start, d) {
      assert SlotAgrees(slots, h, start, d);
      if start > s {
        FutureUntouched(h, clock, start, d);
      } else if start < s {
        SlotsDiffer(start, s, d, |slots|);
      }
      WriteKeepsOne(slots, now, h, o, d, start);
    }
  }

  /** Nothing has been observed in a bucket the clock has not reached. */
  lemma {:induction false} FutureUntouched(h: seq<Observation>, clock: int, start: int, d: int)
    requires WholeSeconds(d) && InTimeOrder(h, clock) && start > Truncate(clock, d)
    ensures Untouched(h, start, d)
  {
    if h != [] {
      FutureUntouched(h[..|h| - 1], clock, start, d);
      TruncateMonotone(h[|h| - 1].at, clock, d);
    }
  }

  lemma WriteKeepsOne(slots: seq<Bucket>, now: seq<Bucket>, h: seq<Observation>, o: Observation, d: int, start: int)
    requires d >= SECOND && slots != [] && SlotAgrees(slots, h, start, d)
    requires start < Truncate(o.at, d) ==> SlotIndex(start, d, |slots|) != SlotIndex(Truncate(o.at, d), d, |slots|)
    requires start > Truncate(o.at, d) ==> Untouched(h, start, d)
    requires
      var s := Truncate(o.at, d);
      var i := SlotIndex(s, d, |slots|);
      now == slots[i := Updated(ForWrite(slots[i], s), o)]
    ensures SlotAgrees(now, h + [o], start, d)
  {
    var s := Truncate(o.at, d);
    if start == s {
      WrittenSlot(slots[SlotIndex(s, d, |slots|)], h, o, d);
    } else {
      SummedStep(h, o, start, d);
      OtherSlot(slots, now, h, o, d, start);
    }
  }

  lemma OtherSlot(slots: seq<Bucket>, now: seq<Bucket>, h: seq<Observation>, o: Observation, d: int, start: int)
    requires d >= SECOND && slots != [] && start != Truncate(o.at, d)
    requires SlotAgrees(slots, h, start, d)
    requires
      var s := Truncate(o.at, d);
      var i := SlotIndex(s, d, |slots|);
      && now == slots[i := Updated(ForWrite(slots[i], s), o)]
      && (SlotIndex(start, d, |slots|) == i ==> Untouched(h, start, d))
    ensures SlotAgrees(now, h + [o], start, d)
  {
    SummedStep(h, o, start, d);
  }

  lemma DropKeeps(slots: seq<Bucket>, h: seq<Observation>, clock: int, o: Observation, d: int)
    requires WholeSeconds(d) && d >= SECOND && slots != [] && o.at >= clock && Dropped(o)
    requires RingAgrees(slots, h, clock, d)
    ensures RingAgrees(slots, h + [o], o.at, d)
  {
    TruncateMonotone(clock, o.at, d);
    forall start | IsStart(start, d) && OnTicks(start, d) && start > Truncate(o.at, d) - |slots| * d
      ensures SlotAgrees(slots, h + [o], start, d) {
      assert SlotAgrees(slots, h, start, d);
      SummedStep(h, o, start, d);
      DroppedAddsNothing(Summed(h, start, d), o);
    }
  }

  // --- Snapshot points ---

  /** How many points a window asks for: its whole buckets, but at least one and at most the ring holds. */
  function PointsAsked(window: int, d: int, size: int): (n: int)
    requires d > 0 && size > 0
    ensures 1 <= n <= size
  {
    if window < d then 1 else if window / d >= size then size else window / d
  }

  datatype Point = Point(
    timestamp: int, throughput: int, failed: int, queueDepth: int,
    dnsPerSecond: real, dns4PerSecond: real, dns6PerSecond: real, cacheHitRate: real, severity: Severity)

  function PointOf(timestamp: int, c: Counters, depth: int, d: int): Point
    requires d > 0
  {
    var seconds := d as real / SECOND as real;
    var lookups := c.hits + c.misses;
    Point(timestamp, c.throughput, c.failed, depth,
          c.dns as real / seconds, c.dns4 as real / seconds, c.dns6 as real / seconds,
          if lookups > 0 then c.hits as real / lookups as real else 0.0, c.severity)
  }

  function OrZero(depth: Option<int>): int {
    if depth.Some? then depth.value else 0
  }

  /** The point a snapshot should show for one bucket, from the whole history. */
  ghost function SpecPoint(h: seq<Observation>, from: int, timestamp: int, d: int): Point
    requires d > 0
  {
    PointOf(timestamp, Summed(h, timestamp, d), OrZero(LastDepth(h, from, timestamp, d)), d)
  }

  /** In time order, the last depth up to a bucket is that bucket's own if it has one, otherwise the last before it. */
  lemma {:induction false} DepthCarries(h: seq<Observation>, clock: int, from: int, to: int, d: int)
    requires WholeSeconds(d) && InTimeOrder(h, clock) && IsStart(to, d) && from <= to
    ensures LastDepth(h, from, to, d) ==
      if LastDepth(h, to, to, d).Some? then LastDepth(h, to, to, d) else LastDepth(h, from, to - d, d)
  {
    if h != [] {
      var front, o := h[..|h| - 1], h[|h| - 1];
      DepthCarries(front, clock, from, to, d);
      TruncateIsFloor(o.at, d);
      var s := Truncate(o.at, d);
      if s < to {
        var _ := StartsSpaced(s, to, d);
        if o.QueueDepth? && from <= s {
          NoDepthLater(front, o.at, to, d);
        }
      }
    }
  }

  lemma {:induction false} NoDepthLater(h: seq<Observation>, clock: int, to: int, d: int)
    requires WholeSeconds(d) && (forall i :: 0 <= i < |h| ==> h[i].at <= clock) && Truncate(clock, d) < to
    ensures LastDepth(h, to, to, d).None?
  {
    if h != [] {
      NoDepthLater(h[..|h| - 1], clock, to, d);
      TruncateMonotone(h[|h| - 1].at, clock, d);
    }
  }

  lemma {:induction false} NoDepthInEmpty(h: seq<Observation>, from: int, to: int, d: int)
    requires d > 0 && to < from
    ensures LastDepth(h, from, to, d).None?
  {
    if h != [] {
      NoDepthInEmpty(h[..|h| - 1], from, to, d);
    }
  }

  class TrendRing {
    const resolution: int
    const slots: array<Bucket>
    ghost var history: seq<Observation>
    ghost var clock: int

    ghost predicate Valid()
      reads this, slots
    {
      && WholeSeconds(resolution) && resolution >= SECOND && slots.Length > 0
      && InTimeOrder(history, clock)
      && RingAgrees(slots[..], history, clock, resolution)
    }

    /** since is a lower bound on every time the ring will see. */
    constructor (resolution0: int, window0: int, ghost since: int)
      ensures WholeSeconds(resolution) ==> Valid()
      ensures fresh(slots) && slots.Length > 0 && history == [] && clock == since
      ensures if resolution0 > 0 then resolution == resolution0 else resolution == 60 * SECOND && Valid()
      ensures slots.Length * resolution >= window0
      ensures slots.Length == 1 || (slots.Length - 1) * resolution < window0
    {
      MinutesAreSeconds();
      var d, window := if resolution0 <= 0 then 60 * SECOND else resolution0, window0;
      if WholeSeconds(d) {
        AtLeastASecond(d);
      }
      if window < d {
        window := d;
      }
      if window % d != 0 {
        window := (window / d + 1) * d;
      }
      var size := if window / d >= 1 then window / d else 1;
      RoundedUp(window0, window, d);
      resolution := d;
      slots := new Bucket[size](_ => EmptyBucket(-EPOCH));
      history, clock := [], since;
      new;
    }

    method BucketForWrite(at: int) returns (index: nat)
      requires Valid()
      modifies slots
      ensures index == SlotIndex(Truncate(at, resolution), resolution, slots.Length) < slots.Length
      ensures slots[..] == old(slots[..])[index := ForWrite(old(slots[..])[index], Truncate(at, resolution))]
    {
      var start := Truncate(at, resolution);
      index := SlotIndex(start, resolution, slots.Length);
      if slots[index].start != start {
        slots[index] := EmptyBucket(start);
      }
    }

    ghost method Record(o: Observation, before: seq<Bucket>)
      requires WholeSeconds(resolution) && resolution >= SECOND && slots.Length == |before| > 0
      requires InTimeOrder(history, clock) && RingAgrees(before, history, clock, resolution) && o.at >= clock
      requires
        var s := Truncate(o.at, resolution);
        var i := SlotIndex(s, resolution, slots.Length);
        if Dropped(o) then slots[..] == before else slots[..] == before[i := Updated(ForWrite(before[i], s), o)]
      modifies this
      ensures Valid() && history == old(history) + [o] && clock == o.at
    {
      if Dropped(o) {
        DropKeeps(before, history, clock, o, resolution);
      } else {
        WriteKeeps(before, slots[..], history, clock, o, resolution);
      }
      history, clock := history + [o], o.at;
    }

    method ObserveQueueDepth(at: int, depth: int)
      requires Valid() && at >= clock
      modifies this, slots
      ensures Valid() && history == old(history) + [QueueDepth(at, depth)] && clock == at
    {
      ghost var before := slots[..];
      var i := BucketForWrite(at);
      slots[i] := slots[i].(queueDepth := depth, queueDepthSet := true);
      Record(QueueDepth(at, depth), before);
    }

    method ObserveDNSQueries(at: int, ipv4: int, ipv6: int)
      requires Valid() && at >= clock
      modifies this, slots
      ensures Valid() && history == old(history) + [DNSQueries(at, ipv4, ipv6)] && clock == at
    {
      ghost var before := slots[..];
      var v4, v6 := ipv4, ipv6;
      if v4 < 0 {
        v4 := 0;
      }
      if v6 < 0 {
        v6 := 0;
      }
      var total := v4 + v6;
      if total != 0 {
        var i := BucketForWrite(at);
        var c := slots[i].counters;
        slots[i] := slots[i].(counters := c.(dns := c.dns + total, dns4 := c.dns4 + v4, dns6 := c.dns6 + v6));
      }
      Record(DNSQueries(at, ipv4, ipv6), before);
    }

    method ObserveCacheMetrics(at: int, hits0: int, misses0: int, evictions0: int)
      requires Valid() && at >= clock
      modifies this, slots
      ensures Valid() && history == old(history) + [CacheMetrics(at, hits0, misses0, evictions0)] && clock == at
    {
      ghost var before := slots[..];
      var hits, misses, evictions := NonNeg(hits0), NonNeg(misses0), NonNeg(evictions0);
      if hits != 0 || misses != 0 || evictions != 0 {
        var i := BucketForWrite(at);
        var c := slots[i].counters;
        slots[i] := slots[i].(counters :=
          c.(hits := c.hits + hits, misses := c.misses + misses, evictions := c.evictions + evictions));
      }
      Record(CacheMetrics(at, hits0, misses0, evictions0), before);
    }

    method ObserveOutcome(at: int, status: JobStatus)
      requires Valid() && at >= clock
      modifies this, slots
      ensures Valid() && history == old(history) + [Outcome(at, status)] && clock == at
    {
      ghost var before := slots[..];
      if IsTerminal(status) {
        var i := BucketForWrite(at);
        var c := slots[i].counters;
        c := c.(throughput := c.throughput + 1);
        if status == Failed {
          c := c.(failed := c.failed + 1);
        }
        slots[i] := slots[i].(counters := c);
      }
      Record(Outcome(at, status), before);
    }

    method ObserveSeverity(at: int, totals: Option<Severity>)
      requires Valid() && at >= clock
      modifies this, slots
      ensures Valid() && history == old(history) + [SeverityTotals(at, totals)] && clock == at
    {
      ghost var before := slots[..];
      if totals.Some? {
        var i := BucketForWrite(at);
        var c := slots[i].counters;
        slots[i] := slots[i].(counters := c.(severity := PlusSeverity(c.severity, totals.value)));
      }
      Record(SeverityTotals(at, totals), before);
    }

    /** Within a ring length of the last write the bucket read is the asked one with all its observations, and no
        bucket means nothing was observed in it. */
    method BucketForRead(start0: int) returns (b: Option<Bucket>)
      requires Valid()
      ensures
        var start := Truncate(start0, resolution);
        OnTicks(start, resolution) && start > Truncate(clock, resolution) - slots.Length * resolution ==>
          if b.Some? then b.value.start == start && Holds(b.value, history, resolution)
          else Untouched(history, start, resolution)
      ensures
        var start := Truncate(start0, resolution);
        var slot := slots[SlotIndex(start, resolution, slots.Length)];
        b == if slot.start == start then Some(slot) else None
    {
      var start := Truncate(start0, resolution);
      var slot := slots[SlotIndex(start, resolution, slots.Length)];
      b := if slot.start == start then Some(slot) else None;
      TruncateIsFloor(start0, resolution);
      if OnTicks(start, resolution) && start > Truncate(clock, resolution) - slots.Length * resolution {
        assert SlotAgrees(slots[..], history, start, resolution);
      }
    }

    static method PointCount(window0: int, d: int, size: int) returns (n: int)
      requires d > 0 && size > 0
      ensures n == PointsAsked(window0, d, size)
    {
      var window := window0;
      if window <= 0 {
        window := d;
      }
      if window > size * d {
        window := size * d;
      }
      PointsFit(window, size, d);
      RoundedDown(window, d);
      RoundedDown(size * d, d);
      if window % d != 0 {
        window := (window / d) * d;
      }
      n := if window / d >= 1 then window / d else 1;
      PointsClamped(window0, size, d);
    }

    /** Every point is what the whole history says about its bucket, however often the slots were reused. */
    method Snapshot(now: int, window: int) returns (points: seq<Point>, ghost from: int)
      requires Valid() && now >= clock
      ensures |points| == PointsAsked(window, resolution, slots.Length)
      ensures from == Truncate(now, resolution) - (|points| - 1) * resolution
      ensures OnTicks(from, resolution) ==>
        forall i :: 0 <= i < |points| ==> points[i] == SpecPoint(history, from, from + i * resolution, resolution)
    {
      var d := resolution;
      var pointCount := PointCount(window, d, slots.Length);
      var end := Truncate(now, d);
      var start := end - (pointCount - 1) * d;
      from := start;
      TruncateIsFloor(now, d);
      NextStart(end, d, -(pointCount - 1));
      NegMul(pointCount - 1, d);
      TruncateMonotone(clock, now, d);
      WithinRing(pointCount, slots.Length, d);
      points := [];
      var lastQueueDepth, hasQueueDepth := 0, false;
      NoDepthInEmpty(history, start, start - d, d);
      for idx := 0 to pointCount
        invariant |points| == idx
        invariant OnTicks(start, d) ==>
          forall i :: 0 <= i < idx ==> points[i] == SpecPoint(history, from, from + i * d, d)
        invariant OnTicks(start, d) ==>
          LastDepth(history, start, start + idx * d - d, d) == if hasQueueDepth then Some(lastQueueDepth) else None
      {
        var timestamp := start + idx * d;
        NextStart(start, d, idx);
        StepWithin(idx, pointCount, d);
        MulStep(idx, d);
        assert OnTicks(start, d) ==> OnTicks(timestamp, d) && SlotAgrees(slots[..], history, timestamp, d);
        DepthCarries(history, clock, start, timestamp, d);
        var bucket := BucketForRead(timestamp);
        var counters := ZERO;
        if bucket.Some? {
          counters := bucket.value.counters;
          if bucket.value.queueDepthSet {
            lastQueueDepth, hasQueueDepth := bucket.value.queueDepth, true;
          }
        }
        points := points + [PointOf(timestamp, counters, if hasQueueDepth then lastQueueDepth else 0, d)];
      }
    }
  }

  lemma RoundedUp(window0: int, window: int, d: int)
    requires d > 0
    requires
      var w := if window0 < d then d else window0;
      window == if w % d != 0 then (w / d + 1) * d else w
    ensures window / d >= 1 && window == (window / d) * d && window >= window0
    ensures window / d == 1 || (window / d - 1) * d < window0
  {
    var w := if window0 < d then d else window0;
    DivParts(w, d);
    MulStep(w / d, d);
    if w % d != 0 {
      DivIs(window, d, w / d + 1, 0);
    }
    MulOrder(window / d, 1, d);
    DivParts(window, d);
    MulStep(window / d - 1, d);
  }

  /** Windows beyond the ring are those with at least as many whole buckets as it has slots. */
  lemma PointsClamped(window: int, size: int, d: int)
    requires d > 0 && size > 0
    ensures window >= size * d <==> window / d >= size
    ensures (size * d) / d == size && d / d == 1
    ensures window >= d <==> window / d >= 1
  {
    DivParts(window, d);
    MulOrder(size, window / d, d);
    MulOrder(window / d, size, d);
    MulOrder(1, window / d, d);
    MulOrder(window / d, 1, d);
    DivIs(size * d, d, size, 0);
    DivIs(d, d, 1, 0);
  }

  lemma RoundedDown(window: int, d: int)
    requires d > 0
    ensures ((window / d) * d) / d == window / d
  {
    DivIs((window / d) * d, d, window / d, 0);
  }

  lemma WithinRing(n: int, size: int, d: int)
    requires d > 0 && n <= size
    ensures (n - 1) * d < size * d
  {
    MulOrder(n - 1, size, d);
  }

  lemma StepWithin(i: int, n: int, d: int)
    requires d > 0 && 0 <= i < n
    ensures 0 <= i * d <= (n - 1) * d
  {
    MulOrder(i, n - 1, d);
    MulOrder(0, i, d);
  }
}
