/** The per-batch insight table: what it counts, against the list of everything observed. */
module BatchInsights {
  import opened InsightTables
  import opened JobStatuses
  import opened Severities
  import opened Sums
  import opened Text

  datatype Outcomes = Outcomes(succeeded: int, failed: int, canceled: int, expired: int)

  datatype BatchInsight = BatchInsight(
    batchID: string, sizeTotal: int, processedTotal: int, outcomes: Outcomes, severity: Severity, lastUpdated: int)

  datatype BatchEvent =
    | Submitted(at: int, batchID: string)
    | Completed(at: int, batchID: string, status: JobStatus, severity: Severity)

  /** The numbers a record carries. */
  datatype BatchCount = Size | Processed | OutcomeOf(status: JobStatus) | SeverityOf(level: Level)

  function OutcomeAt(o: Outcomes, s: JobStatus): int {
    match s
    case Succeeded => o.succeeded
    case Failed => o.failed
    case Canceled => o.canceled
    case Expired => o.expired
    case _ => 0
  }

  function PlusOutcome(o: Outcomes, s: JobStatus): Outcomes {
    match s
    case Succeeded => o.(succeeded := o.succeeded + 1)
    case Failed => o.(failed := o.failed + 1)
    case Canceled => o.(canceled := o.canceled + 1)
    case Expired => o.(expired := o.expired + 1)
    case _ => o
  }

  function PlusOutcomes(a: Outcomes, b: Outcomes): Outcomes {
    Outcomes(a.succeeded + b.succeeded, a.failed + b.failed, a.canceled + b.canceled, a.expired + b.expired)
  }

  function NewBatchInsight(batchID: string, now: int): BatchInsight {
    BatchInsight(batchID, 0, 0, Outcomes(0, 0, 0, 0), NO_SEVERITY, now)
  }

  /** Folding a record into another keeps the destination's name and time. */
  function MergeBatch(dst: BatchInsight, src: BatchInsight): BatchInsight {
    dst.(sizeTotal := dst.sizeTotal + src.sizeTotal,
         processedTotal := dst.processedTotal + src.processedTotal,
         outcomes := PlusOutcomes(dst.outcomes, src.outcomes),
         severity := PlusSeverity(dst.severity, src.severity))
  }

  function UpdatedAt(e: BatchInsight): int {
    e.lastUpdated
  }

  // --- The specification: everything observed ---

  predicate Counted(ev: BatchEvent) {
    Trim(ev.batchID) != "" && (ev.Completed? ==> IsTerminal(ev.status))
  }

  /** What one observation should add to one number of its batch. */
  function Adds(ev: BatchEvent, c: BatchCount): int {
    if !Counted(ev) then 0
    else
      match ev
      case Submitted(_, _) => if c.Size? then 1 else 0
      case Completed(_, _, status, severity) =>
        match c
        case Size => 0
        case Processed => 1
        case OutcomeOf(s) => if s == status then 1 else 0
        case SeverityOf(level) => AtLevel(severity, level)
  }

  function CountOf(e: BatchInsight, c: BatchCount): int {
    match c
    case Size => e.sizeTotal
    case Processed => e.processedTotal
    case OutcomeOf(s) => OutcomeAt(e.outcomes, s)
    case SeverityOf(level) => AtLevel(e.severity, level)
  }

  function RecordCount(c: BatchCount): BatchInsight -> int {
    (e: BatchInsight) => CountOf(e, c)
  }

  function EventCount(c: BatchCount): BatchEvent -> int {
    (ev: BatchEvent) => Adds(ev, c)
  }

  /** The time of the last counted observation of a batch. */
  ghost function LastSeen(h: seq<BatchEvent>, key: string): Option<int> {
    if h == [] then None
    else
      var ev := h[|h| - 1];
      if Counted(ev) && Trim(ev.batchID) == key then Some(ev.at) else LastSeen(h[..|h| - 1], key)
  }

  /** Every number summed over the table, "other" included, is the sum over everything observed. */
  ghost predicate Conserves(t: Table<BatchInsight>, h: seq<BatchEvent>) {
    forall c :: Kept(t, RecordCount(c)) == SumBy(h, EventCount(c))
  }

  /** Live records carry their own name and the time of their batch's last observation. */
  ghost predicate Dated(t: Table<BatchInsight>, h: seq<BatchEvent>) {
    forall k :: k in t.entries ==> t.entries[k].batchID == k && LastSeen(h, k) == Some(t.entries[k].lastUpdated)
  }

  /** What an observation does to its record. */
  function Bumped(e: BatchInsight, ev: BatchEvent): BatchInsight {
    match ev
    case Submitted(at, _) => e.(sizeTotal := e.sizeTotal + 1, lastUpdated := at)
    case Completed(at, _, status, severity) =>
      e.(processedTotal := e.processedTotal + 1, outcomes := PlusOutcome(e.outcomes, status),
         severity := PlusSeverity(e.severity, severity), lastUpdated := at)
  }

  ghost predicate OpenedFor(t: Table<BatchInsight>, limit: int, key: string, now: int, u: Table<BatchInsight>, s: Slot) {
    Opened(t, limit, key, NewBatchInsight(key, now), UpdatedAt, MergeBatch, u, s)
  }

  /** The table an observation leaves: its record is found or made, and bumped. */
  ghost predicate Observed(t: Table<BatchInsight>, limit: int, ev: BatchEvent, w: Table<BatchInsight>) {
    if !Counted(ev) then w == t
    else
      exists u: Table<BatchInsight>, s ::
        && OpenedFor(t, limit, Trim(ev.batchID), ev.at, u, s)
        && (s.Entry? ==> s.key in u.entries)
        && w == Write(u, s, Bumped(Read(u, s), ev))
  }

  lemma MergeIsAdditive(c: BatchCount, key: string, now: int)
    ensures Additive(RecordCount(c), MergeBatch, NewBatchInsight(key, now))
  {
    forall a, b ensures CountOf(MergeBatch(a, b), c) == CountOf(a, c) + CountOf(b, c) {
      var m := MergeBatch(a, b);
      match c
      case Size =>
      case Processed =>
      case OutcomeOf(s) => assert OutcomeAt(m.outcomes, s) == OutcomeAt(a.outcomes, s) + OutcomeAt(b.outcomes, s);
      case SeverityOf(level) => assert AtLevel(m.severity, level) == AtLevel(a.severity, level) + AtLevel(b.severity, level);
    }
  }

  lemma BumpAdds(e: BatchInsight, ev: BatchEvent, c: BatchCount)
    requires Counted(ev)
    ensures CountOf(Bumped(e, ev), c) == CountOf(e, c) + Adds(ev, c)
  {}

  /** Conservation under eviction: one observation changes every total of the table by what it should add. */
  lemma ObservationConserves(t: Table<BatchInsight>, limit: int, ev: BatchEvent, w: Table<BatchInsight>, h: seq<BatchEvent>)
    requires Observed(t, limit, ev, w)
    requires Conserves(t, h) && (limit > 0 ==> |t.entries| <= limit)
    ensures Conserves(w, h + [ev]) && (limit > 0 ==> |w.entries| <= limit)
  {
    forall c ensures Kept(w, RecordCount(c)) == SumBy(h + [ev], EventCount(c)) && (limit > 0 ==> |w.entries| <= limit) {
      assert (h + [ev])[..|h|] == h;
      assert Kept(t, RecordCount(c)) == SumBy(h, EventCount(c));
      if Counted(ev) {
        ObservationAdds(t, limit, ev, w, c);
      }
    }
    assert Kept(w, RecordCount(Size)) == SumBy(h + [ev], EventCount(Size));
  }

  lemma ObservationAdds(t: Table<BatchInsight>, limit: int, ev: BatchEvent, w: Table<BatchInsight>, c: BatchCount)
    requires Counted(ev) && Observed(t, limit, ev, w) && (limit > 0 ==> |t.entries| <= limit)
    ensures Kept(w, RecordCount(c)) == Kept(t, RecordCount(c)) + Adds(ev, c)
    ensures limit > 0 ==> |w.entries| <= limit
  {
    var key := Trim(ev.batchID);
    var u: Table<BatchInsight>, s :|
      OpenedFor(t, limit, key, ev.at, u, s) && (s.Entry? ==> s.key in u.entries) && w == Write(u, s, Bumped(Read(u, s), ev));
    MergeIsAdditive(c, key, ev.at);
    OpeningKeeps(t, limit, key, NewBatchInsight(key, ev.at), UpdatedAt, MergeBatch, u, s, RecordCount(c));
    WriteKept(u, s, Bumped(Read(u, s), ev), RecordCount(c));
    BumpAdds(Read(u, s), ev, c);
  }

  lemma ObservationDates(t: Table<BatchInsight>, limit: int, ev: BatchEvent, w: Table<BatchInsight>, h: seq<BatchEvent>)
    requires Observed(t, limit, ev, w) && Dated(t, h)
    ensures Dated(w, h + [ev])
  {
    assert (h + [ev])[..|h|] == h;
    forall k | k in w.entries
      ensures w.entries[k].batchID == k && LastSeen(h + [ev], k) == Some(w.entries[k].lastUpdated)
    {
      if Counted(ev) {
        var key := Trim(ev.batchID);
        var u: Table<BatchInsight>, s :|
          OpenedFor(t, limit, key, ev.at, u, s) && (s.Entry? ==> s.key in u.entries) && w == Write(u, s, Bumped(Read(u, s), ev));
        if k != key {
          assert k in t.entries && w.entries[k] == t.entries[k];
        }
      }
    }
  }

  /** Room is made by the batch observed the longest ago. */
  lemma LongestAgoGoes(t: Table<BatchInsight>, h: seq<BatchEvent>, u: Table<BatchInsight>)
    requires Dated(t, h) && Evicted(t, UpdatedAt, MergeBatch, u)
    ensures exists gone ::
      && gone in t.entries && u.entries == t.entries - {gone} && LastSeen(h, gone).Some?
      && u.other.batchID == t.other.batchID && u.other.lastUpdated == t.other.lastUpdated
      && forall k :: k in u.entries ==> LastSeen(h, k).Some? && LastSeen(h, gone).value <= LastSeen(h, k).value
  {
    var gone :| Oldest(t.entries, UpdatedAt, gone) && u == Table(t.entries - {gone}, MergeBatch(t.other, t.entries[gone]));
    forall k | k in u.entries ensures LastSeen(h, k).Some? && LastSeen(h, gone).value <= LastSeen(h, k).value {
      assert k in t.entries && UpdatedAt(t.entries[gone]) <= UpdatedAt(t.entries[k]);
    }
  }

  class BatchTable {
    var entries: map<string, BatchInsight>
    var other: BatchInsight
    const limit: int
    ghost var history: seq<BatchEvent>

    ghost function State(): Table<BatchInsight>
      reads this
    {
      Table(entries, other)
    }

    ghost predicate Valid()
      reads this
    {
      && Conserves(State(), history)
      && Dated(State(), history)
      && (limit > 0 ==> |entries| <= limit)
    }

    constructor (limit: int)
      ensures Valid() && entries == map[] && history == [] && this.limit == limit
    {
      this.limit := limit;
      entries, other, history := map[], NewBatchInsight("_other", 0), [];
      new;
      forall c ensures Kept(State(), RecordCount(c)) == SumBy(history, EventCount(c)) {
        assert Column(entries, RecordCount(c)) == map[];
      }
    }

    method EvictOldest()
      modifies `entries, `other
      ensures if old(entries) == map[] then State() == old(State())
              else Evicted(old(State()), UpdatedAt, MergeBatch, State())
    {
      if entries == map[] {
        return;
      }
      var oldest := OldestKey(entries, UpdatedAt);
      other := MergeBatch(other, entries[oldest]);
      entries := entries - {oldest};
    }

    method GetOrCreate(batchID: string, now: int) returns (slot: Slot)
      modifies `entries, `other
      ensures OpenedFor(old(State()), limit, batchID, now, State(), slot)
      ensures slot.Entry? ==> slot.key in entries
    {
      if batchID in entries {
        return Entry(batchID);
      }
      if limit <= 0 {
        other := MergeBatch(other, NewBatchInsight(batchID, now));
        return Other;
      }
      if |entries| >= limit {
        assert entries != map[];
        EvictOldest();
      }
      entries := entries[batchID := NewBatchInsight(batchID, now)];
      slot := Entry(batchID);
    }

    method Store(slot: Slot, e: BatchInsight)
      modifies `entries, `other
      ensures State() == Write(old(State()), slot, e)
    {
      match slot
      case Entry(key) => entries := entries[key := e];
      case Other => other := e;
    }

    method ObserveSubmission(now: int, batchID: string)
      requires Valid()
      modifies this
      ensures Valid() && history == old(history) + [Submitted(now, batchID)]
      ensures Observed(old(State()), limit, Submitted(now, batchID), State())
    {
      ghost var ev := Submitted(now, batchID);
      if Trim(batchID) != "" {
        var slot := GetOrCreate(Trim(batchID), now);
        ghost var mid := State();
        var entry := Read(Table(entries, other), slot);
        entry := entry.(sizeTotal := entry.sizeTotal + 1, lastUpdated := now);
        Store(slot, entry);
        assert State() == Write(mid, slot, Bumped(Read(mid, slot), ev));
      }
      Record(old(State()), ev);
    }

    method ObserveCompletion(now: int, batchID: string, status: JobStatus, severity: Severity)
      requires Valid()
      modifies this
      ensures Valid() && history == old(history) + [Completed(now, batchID, status, severity)]
      ensures Observed(old(State()), limit, Completed(now, batchID, status, severity), State())
    {
      ghost var ev := Completed(now, batchID, status, severity);
      if Trim(batchID) != "" && IsTerminal(status) {
        var slot := GetOrCreate(Trim(batchID), now);
        ghost var mid := State();
        var entry := Read(Table(entries, other), slot);
        entry := entry.(processedTotal := entry.processedTotal + 1,
                        outcomes := PlusOutcome(entry.outcomes, status),
                        severity := PlusSeverity(entry.severity, severity),
                        lastUpdated := now);
        Store(slot, entry);
        assert State() == Write(mid, slot, Bumped(Read(mid, slot), ev));
      }
      Record(old(State()), ev);
    }

    ghost method Record(t: Table<BatchInsight>, ev: BatchEvent)
      requires Observed(t, limit, ev, State())
      requires Conserves(t, history) && Dated(t, history) && (limit > 0 ==> |t.entries| <= limit)
      modifies `history
      ensures Valid() && history == old(history) + [ev]
    {
      ObservationConserves(t, limit, ev, State(), history);
      ObservationDates(t, limit, ev, State(), history);
      history := history + [ev];
    }
  }
}
