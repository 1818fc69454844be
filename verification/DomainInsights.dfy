/** The per-domain insight table: what it counts, against the list of everything observed. */
module DomainInsights {
  import opened InsightTables
  import opened JobStatuses
  import opened Severities
  import opened Sums
  import opened Text

  /** Nanoseconds in a millisecond. */
  const MILLISECOND := 1_000_000

  datatype DomainInsight = DomainInsight(
    domain: string, runsTotal: int, lastStatus: JobStatus, durationCount: int, durationTotalMs: int,
    severity: Severity, lastUpdated: int)

  datatype Completion = Completion(at: int, domain: string, status: JobStatus, duration: int, severity: Severity)

  /** The numbers a record carries. */
  datatype DomainCount = Runs | Durations | DurationMs | SeverityOf(level: Level)

  /** normalizeMetricsDomain. */
  function Normalize(domain: string): string {
    Lower(Trim(domain))
  }

  function NewDomainInsight(domain: string, now: int): DomainInsight {
    DomainInsight(domain, 0, NO_STATUS, 0, 0, NO_SEVERITY, now)
  }

  /** Folding a record into another keeps the destination's name and time and takes the source's last status. */
  function MergeDomain(dst: DomainInsight, src: DomainInsight): DomainInsight {
    dst.(runsTotal := dst.runsTotal + src.runsTotal,
         durationCount := dst.durationCount + src.durationCount,
         durationTotalMs := dst.durationTotalMs + src.durationTotalMs,
         lastStatus := src.lastStatus,
         severity := PlusSeverity(dst.severity, src.severity))
  }

  function UpdatedAt(e: DomainInsight): int {
    e.lastUpdated
  }

  // --- The specification: everything observed ---

  predicate Counted(ev: Completion) {
    Normalize(ev.domain) != "" && IsTerminal(ev.status)
  }

  /** What one completion should add to one number of its domain. A negative duration is not a duration. */
  function Adds(ev: Completion, c: DomainCount): int {
    if !Counted(ev) then 0
    else
      match c
      case Runs => 1
      case Durations => if ev.duration < 0 then 0 else 1
      case DurationMs => if ev.duration < 0 then 0 else ev.duration / MILLISECOND
      case SeverityOf(level) => AtLevel(ev.severity, level)
  }

  function CountOf(e: DomainInsight, c: DomainCount): int {
    match c
    case Runs => e.runsTotal
    case Durations => e.durationCount
    case DurationMs => e.durationTotalMs
    case SeverityOf(level) => AtLevel(e.severity, level)
  }

  function RecordCount(c: DomainCount): DomainInsight -> int {
    (e: DomainInsight) => CountOf(e, c)
  }

  function EventCount(c: DomainCount): Completion -> int {
    (ev: Completion) => Adds(ev, c)
  }

  /** The last counted completion of a domain. */
  ghost function LastRun(h: seq<Completion>, key: string): Option<Completion> {
    if h == [] then None
    else
      var ev := h[|h| - 1];
      if Counted(ev) && Normalize(ev.domain) == key then Some(ev) else LastRun(h[..|h| - 1], key)
  }

  /** Every number summed over the table, "other" included, is the sum over everything observed. */
  ghost predicate Conserves(t: Table<DomainInsight>, h: seq<Completion>) {
    forall c :: Kept(t, RecordCount(c)) == SumBy(h, EventCount(c))
  }

  /** A live record carries its own name and the time and status of its domain's last completion. */
  ghost predicate DatedAt(t: Table<DomainInsight>, h: seq<Completion>, k: string)
    requires k in t.entries
  {
    var e, last := t.entries[k], LastRun(h, k);
    e.domain == k && last.Some? && last.value.at == e.lastUpdated && last.value.status == e.lastStatus
  }

  ghost predicate Dated(t: Table<DomainInsight>, h: seq<Completion>) {
    forall k :: k in t.entries ==> DatedAt(t, h, k)
  }

  /** What a completion does to its record. */
  function Bumped(e: DomainInsight, ev: Completion): DomainInsight {
    var run := e.(runsTotal := e.runsTotal + 1, lastStatus := ev.status,
                  severity := PlusSeverity(e.severity, ev.severity), lastUpdated := ev.at);
    if ev.duration < 0 then run
    else run.(durationCount := e.durationCount + 1, durationTotalMs := e.durationTotalMs + ev.duration / MILLISECOND)
  }

  ghost predicate OpenedFor(t: Table<DomainInsight>, limit: int, key: string, now: int, u: Table<DomainInsight>, s: Slot) {
    Opened(t, limit, key, NewDomainInsight(key, now), UpdatedAt, MergeDomain, u, s)
  }

  /** The table a completion leaves: its record is found or made, and bumped. */
  ghost predicate Observed(t: Table<DomainInsight>, limit: int, ev: Completion, w: Table<DomainInsight>) {
    if !Counted(ev) then w == t
    else
      exists u: Table<DomainInsight>, s ::
        && OpenedFor(t, limit, Normalize(ev.domain), ev.at, u, s)
        && (s.Entry? ==> s.key in u.entries)
        && w == Write(u, s, Bumped(Read(u, s), ev))
  }

  lemma MergeIsAdditive(c: DomainCount, key: string, now: int)
    ensures Additive(RecordCount(c), MergeDomain, NewDomainInsight(key, now))
  {
    forall a, b ensures CountOf(MergeDomain(a, b), c) == CountOf(a, c) + CountOf(b, c) {
      if c.SeverityOf? {
        assert AtLevel(MergeDomain(a, b).severity, c.level) == AtLevel(a.severity, c.level) + AtLevel(b.severity, c.level);
      }
    }
  }

  lemma BumpAdds(e: DomainInsight, ev: Completion, c: DomainCount)
    requires Counted(ev)
    ensures CountOf(Bumped(e, ev), c) == CountOf(e, c) + Adds(ev, c)
  {}

  /** Conservation under eviction: one completion changes every total of the table by what it should add. */
  lemma CompletionConserves(t: Table<DomainInsight>, limit: int, ev: Completion, w: Table<DomainInsight>, h: seq<Completion>)
    requires Observed(t, limit, ev, w)
    requires Conserves(t, h) && (limit > 0 ==> |t.entries| <= limit)
    ensures Conserves(w, h + [ev]) && (limit > 0 ==> |w.entries| <= limit)
  {
    forall c ensures Kept(w, RecordCount(c)) == SumBy(h + [ev], EventCount(c)) && (limit > 0 ==> |w.entries| <= limit) {
      assert (h + [ev])[..|h|] == h;
      assert Kept(t, RecordCount(c)) == SumBy(h, EventCount(c));
      if Counted(ev) {
        CompletionAdds(t, limit, ev, w, c);
      }
    }
    assert Kept(w, RecordCount(Runs)) == SumBy(h + [ev], EventCount(Runs));
  }

  lemma CompletionAdds(t: Table<DomainInsight>, limit: int, ev: Completion, w: Table<DomainInsight>, c: DomainCount)
    requires Counted(ev) && Observed(t, limit, ev, w) && (limit > 0 ==> |t.entries| <= limit)
    ensures Kept(w, RecordCount(c)) == Kept(t, RecordCount(c)) + Adds(ev, c)
    ensures limit > 0 ==> |w.entries| <= limit
  {
    var key := Normalize(ev.domain);
    var u: Table<DomainInsight>, s :|
      OpenedFor(t, limit, key, ev.at, u, s) && (s.Entry? ==> s.key in u.entries) && w == Write(u, s, Bumped(Read(u, s), ev));
    MergeIsAdditive(c, key, ev.at);
    OpeningKeeps(t, limit, key, NewDomainInsight(key, ev.at), UpdatedAt, MergeDomain, u, s, RecordCount(c));
    WriteKept(u, s, Bumped(Read(u, s), ev), RecordCount(c));
    BumpAdds(Read(u, s), ev, c);
  }

  lemma CompletionDates(t: Table<DomainInsight>, limit: int, ev: Completion, w: Table<DomainInsight>, h: seq<Completion>)
    requires Observed(t, limit, ev, w) && Dated(t, h)
    ensures Dated(w, h + [ev])
  {
    assert (h + [ev])[..|h|] == h;
    forall k | k in w.entries ensures DatedAt(w, h + [ev], k) {
      if Counted(ev) {
        var key := Normalize(ev.domain);
        var u: Table<DomainInsight>, s :|
          OpenedFor(t, limit, key, ev.at, u, s) && (s.Entry? ==> s.key in u.entries) && w == Write(u, s, Bumped(Read(u, s), ev));
        if k != key {
          assert k in t.entries && w.entries[k] == t.entries[k] && DatedAt(t, h, k);
        } else if key in t.entries {
          assert DatedAt(t, h, k);
        }
      }
    }
  }

  /** A domain's name is told apart neither by case nor by white space around it. */
  lemma SameDomain(a: string, domain: string, b: string)
    requires Blank(a) && Blank(b)
    ensures Normalize(a + Upper(domain) + b) == Normalize(domain)
  {
    FoldExact(a, domain, b);
  }

  /** A duration in whole milliseconds, of a run of a named domain that ended. */
  function Milliseconds(): Completion -> int {
    (ev: Completion) => if Trim(ev.domain) != "" && IsTerminal(ev.status) && ev.duration >= 0 then ev.duration / 1_000_000 else 0
  }

  /** The durations of the table, "other" included, add up to those of all runs, in milliseconds. */
  lemma DurationsAddUp(t: Table<DomainInsight>, h: seq<Completion>)
    requires Conserves(t, h)
    ensures Kept(t, (e: DomainInsight) => e.durationTotalMs) == SumBy(h, Milliseconds())
  {
    forall ev ensures EventCount(DurationMs)(ev) == Milliseconds()(ev) {
      assert |Normalize(ev.domain)| == |Trim(ev.domain)|;
    }
    SumByAgree(h, EventCount(DurationMs), Milliseconds());
    var shown := (e: DomainInsight) => e.durationTotalMs;
    assert Column(t.entries, RecordCount(DurationMs)) == Column(t.entries, shown);
    assert Kept(t, RecordCount(DurationMs)) == SumBy(h, EventCount(DurationMs));
  }

  /** Room is made by the domain whose last run is the longest ago; "other" then shows that run's status. */
  lemma LongestAgoGoes(t: Table<DomainInsight>, h: seq<Completion>, u: Table<DomainInsight>)
    requires Dated(t, h) && Evicted(t, UpdatedAt, MergeDomain, u)
    ensures exists gone ::
      && gone in t.entries && u.entries == t.entries - {gone} && LastRun(h, gone).Some?
      && u.other.domain == t.other.domain && u.other.lastUpdated == t.other.lastUpdated
      && u.other.lastStatus == LastRun(h, gone).value.status
      && forall k :: k in u.entries ==> LastRun(h, k).Some? && LastRun(h, gone).value.at <= LastRun(h, k).value.at
  {
    var gone :| Oldest(t.entries, UpdatedAt, gone) && u == Table(t.entries - {gone}, MergeDomain(t.other, t.entries[gone]));
    assert DatedAt(t, h, gone);
    forall k | k in u.entries ensures LastRun(h, k).Some? && LastRun(h, gone).value.at <= LastRun(h, k).value.at {
      assert k in t.entries && DatedAt(t, h, k) && UpdatedAt(t.entries[gone]) <= UpdatedAt(t.entries[k]);
    }
  }

  class DomainTable {
    var entries: map<string, DomainInsight>
    var other: DomainInsight
    const limit: int
    ghost var history: seq<Completion>

    ghost function State(): Table<DomainInsight>
      reads this
    {
      Table(entries, other)
    }

    ghost predicate Valid()
      reads this
    {
      && Conserves(State(), history)
      && Dated(State(), history)
      && (limit > 0 ==> |entries| <= limit)
    }

    constructor (limit: int)
      ensures Valid() && entries == map[] && history == [] && this.limit == limit
    {
      this.limit := limit;
      entries, other, history := map[], NewDomainInsight("_other", 0), [];
      new;
      forall c ensures Kept(State(), RecordCount(c)) == SumBy(history, EventCount(c)) {
        assert Column(entries, RecordCount(c)) == map[];
      }
    }

    method EvictOldest()
      modifies `entries, `other
      ensures if old(entries) == map[] then State() == old(State())
              else Evicted(old(State()), UpdatedAt, MergeDomain, State())
    {
      if entries == map[] {
        return;
      }
      var oldest := OldestKey(entries, UpdatedAt);
      other := MergeDomain(other, entries[oldest]);
      entries := entries - {oldest};
    }

    method GetOrCreate(domain: string, now: int) returns (slot: Slot)
      modifies `entries, `other
      ensures OpenedFor(old(State()), limit, domain, now, State(), slot)
      ensures slot.Entry? ==> slot.key in entries
    {
      if domain in entries {
        return Entry(domain);
      }
      if limit <= 0 {
        other := MergeDomain(other, NewDomainInsight(domain, now));
        return Other;
      }
      if |entries| >= limit {
        assert entries != map[];
        EvictOldest();
      }
      entries := entries[domain := NewDomainInsight(domain, now)];
      slot := Entry(domain);
    }

    method Store(slot: Slot, e: DomainInsight)
      modifies `entries, `other
      ensures State() == Write(old(State()), slot, e)
    {
      match slot
      case Entry(key) => entries := entries[key := e];
      case Other => other := e;
    }

    method ObserveCompletion(now: int, domain: string, status: JobStatus, duration: int, severity: Severity)
      requires Valid()
      modifies this
      ensures Valid() && history == old(history) + [Completion(now, domain, status, duration, severity)]
      ensures Observed(old(State()), limit, Completion(now, domain, status, duration, severity), State())
    {
      ghost var ev := Completion(now, domain, status, duration, severity);
      if Normalize(domain) != "" && IsTerminal(status) {
        var slot := GetOrCreate(Normalize(domain), now);
        ghost var mid := State();
        var entry := Read(Table(entries, other), slot);
        entry := entry.(runsTotal := entry.runsTotal + 1, lastStatus := status);
        if duration >= 0 {
          entry := entry.(durationCount := entry.durationCount + 1,
                          durationTotalMs := entry.durationTotalMs + duration / MILLISECOND);
        }
        entry := entry.(severity := PlusSeverity(entry.severity, severity), lastUpdated := now);
        assert entry == Bumped(Read(mid, slot), ev);
        Store(slot, entry);
        assert State() == Write(mid, slot, Bumped(Read(mid, slot), ev));
      }
      Record(old(State()), ev);
    }

    ghost method Record(t: Table<DomainInsight>, ev: Completion)
      requires Observed(t, limit, ev, State())
      requires Conserves(t, history) && Dated(t, history) && (limit > 0 ==> |t.entries| <= limit)
      modifies `history
      ensures Valid() && history == old(history) + [ev]
    {
      CompletionConserves(t, limit, ev, State(), history);
      CompletionDates(t, limit, ev, State(), history);
      history := history + [ev];
    }
  }
}
