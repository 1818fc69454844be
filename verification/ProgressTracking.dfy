/** Job progress from testcase log entries: what the tracker counts and the percentages it reports. */
module ProgressTracking {
  import opened Numbers
  import opened Text

  /** TEST_CASE_START, TEST_CASE_END, and any other log entry of a testcase. */
  datatype Mark = Start | End | Message

  datatype Entry = Entry(testcase: string, mark: Mark)

  datatype Tracker = Tracker(planned: set<string>, started: set<string>, completedSet: set<string>, completed: int)

  /** normalizeTestcase. */
  function Key(name: string): string {
    Lower(Trim(name))
  }

  /** A testcase's name is told apart neither by case nor by white space around it. */
  lemma SameTestcase(a: string, name: string, b: string)
    requires Blank(a) && Blank(b)
    ensures Key(a + Upper(name) + b) == Key(name)
  {
    FoldExact(a, name, b);
  }

  function Percent(current: int, total: nat): int
    requires total > 0
  {
    current * 100 / total
  }

  /** The entry changes the tracker and reports progress. */
  predicate Reports(t: Tracker, e: Entry) {
    var k := Key(e.testcase);
    k != "" && k in t.planned &&
    match e.mark
    case Start => k !in t.started
    case End => k !in t.completedSet
    case Message => k !in t.started && k !in t.completedSet
  }

  function Tracked(t: Tracker, e: Entry): Tracker {
    var k := Key(e.testcase);
    if !Reports(t, e) then t
    else if e.mark.Start? then t.(started := t.started + {k})
    else t.(started := t.started + {k}, completedSet := t.completedSet + {k}, completed := t.completed + 1)
  }

  /** How many testcases a report counts, with the source's clamp. */
  function Current(t: Tracker, e: Entry): int {
    Min(t.completed + 1, |t.planned|)
  }

  function NewTracker(planned: set<string>): Tracker {
    Tracker(planned, {}, {}, 0)
  }

  // --- The specification: the list of entries ---

  function TrackerAfter(planned: set<string>, h: seq<Entry>): Tracker {
    if h == [] then NewTracker(planned) else Tracked(TrackerAfter(planned, h[..|h| - 1]), h[|h| - 1])
  }

  ghost predicate Seen(h: seq<Entry>, k: string) {
    exists i :: 0 <= i < |h| && Key(h[i].testcase) == k
  }

  /** A testcase is finished once it ends, or if its first entry is neither a start nor an end. */
  ghost predicate Finished(h: seq<Entry>, k: string) {
    exists i :: 0 <= i < |h| && Key(h[i].testcase) == k && (h[i].mark.End? || (h[i].mark.Message? && !Seen(h[..i], k)))
  }

  ghost predicate Coherent(t: Tracker) {
    t.completedSet <= t.started <= t.planned && t.completed == |t.completedSet|
  }

  lemma SeenStep(h: seq<Entry>, e: Entry, k: string)
    ensures Seen(h + [e], k) <==> Seen(h, k) || Key(e.testcase) == k
  {
    var g := h + [e];
    assert g[..|h|] == h;
    forall i | 0 <= i < |h| ensures g[i] == h[i] && g[..i] == h[..i] {}
    if Seen(h, k) {
      var i :| 0 <= i < |h| && Key(h[i].testcase) == k;
      assert Key(g[i].testcase) == k;
    }
    if Key(e.testcase) == k {
      assert Key(g[|h|].testcase) == k;
    }
  }

  lemma FinishedStep(h: seq<Entry>, e: Entry, k: string)
    ensures Finished(h + [e], k) <==>
      Finished(h, k) || (Key(e.testcase) == k && (e.mark.End? || (e.mark.Message? && !Seen(h, k))))
  {
    var g := h + [e];
    assert g[..|h|] == h && g[|h|] == e;
    forall i | 0 <= i < |h| ensures g[i] == h[i] && g[..i] == h[..i] {}
  }

  /** For every order of entries the tracker's sets are what the entries say, and its counter is the
      size of the completed set. */
  lemma {:induction false} TrackerExact(planned: set<string>, h: seq<Entry>)
    ensures var t := TrackerAfter(planned, h);
      && t.planned == planned && Coherent(t)
      && (forall k :: k in t.started <==> k in planned && k != "" && Seen(h, k))
      && (forall k :: k in t.completedSet <==> k in planned && k != "" && Finished(h, k))
  {
    if h != [] {
      var front, e := h[..|h| - 1], h[|h| - 1];
      TrackerExact(planned, front);
      assert h == front + [e];
      var was, t := TrackerAfter(planned, front), TrackerAfter(planned, h);
      TrackedCoherent(was, e);
      forall k
        ensures k in t.started <==> k in planned && k != "" && Seen(h, k)
        ensures k in t.completedSet <==> k in planned && k != "" && Finished(h, k)
      {
        SeenStep(front, e, k);
        FinishedStep(front, e, k);
      }
    }
  }

  lemma TrackedCoherent(t: Tracker, e: Entry)
    requires Coherent(t)
    ensures Coherent(Tracked(t, e)) && Tracked(t, e).planned == t.planned
  {}

  lemma SubsetSize(a: set<string>, b: set<string>)
    requires a <= b
    ensures |a| <= |b| && (|a| == |b| ==> a == b)
  {
    assert b == a + (b - a);
    assert |b| == |a| + |b - a|;
  }

  /** A reporting entry's testcase is still open, so there is room for it in the count: no clamp ever bites. */
  lemma ClampsNeverBite(t: Tracker, e: Entry)
    requires Coherent(t) && Reports(t, e)
    ensures t.completed + 1 <= |t.planned|
    ensures Current(t, e) == t.completed + 1
    ensures Tracked(t, e).completed <= |t.planned|
  {
    var k := Key(e.testcase);
    assert k !in t.completedSet;
    SubsetSize(t.completedSet + {k}, t.planned);
  }

  // --- The reported percentages ---

  lemma PercentMonotone(a: int, b: int, total: nat)
    requires total > 0 && 0 <= a <= b <= total
    ensures 0 <= Percent(a, total) <= Percent(b, total) <= 100
    ensures Percent(total, total) == 100
  {
    QuotientBounds(a * 100, total, 0);
    QuotientBounds(b * 100, total, Percent(a, total));
    QuotientBounds(total * 100, total, Percent(b, total));
    QuotientBounds(total * 100, total, 100);
    ScaleReflects(total, Percent(total, total), 100);
  }

  /** x / d is the largest q with d * q <= x. */
  lemma QuotientBounds(x: int, d: nat, q: int)
    requires d > 0
    ensures d * (x / d) <= x
    ensures d * q <= x ==> q <= x / d
  {
    var r := x / d;
    assert x == d * r + x % d;
    if d * q <= x {
      assert d * (r + 1) == d * r + d;
      ScaleReflects(d, q, r);
    }
  }

  lemma ScaleReflects(d: nat, a: int, b: int)
    requires d > 0 && d * a < d * b + d
    ensures a <= b
  {
    if a > b {
      ScaleMonotone(d, b + 1, a);
    }
  }

  lemma ScaleMonotone(d: nat, a: int, b: int)
    requires a <= b
    ensures d * a <= d * b
  {}

  /** The counts behind the reports of a list of entries, in order. */
  function Counts(planned: set<string>, h: seq<Entry>): seq<int> {
    if h == [] then []
    else
      var front, e := h[..|h| - 1], h[|h| - 1];
      var t := TrackerAfter(planned, front);
      if Reports(t, e) then Counts(planned, front) + [Current(t, e)] else Counts(planned, front)
  }

  ghost predicate NonDecreasing(s: seq<int>) {
    forall i, j :: 0 <= i < j < |s| ==> s[i] <= s[j]
  }

  lemma AppendLargest(s: seq<int>, x: int)
    requires NonDecreasing(s) && (s != [] ==> s[|s| - 1] <= x)
    ensures NonDecreasing(s + [x])
  {
    forall i | 0 <= i < |s| ensures s[i] <= x {
      assert i < |s| - 1 ==> s[i] <= s[|s| - 1];
    }
  }

  /** The last report counts the finished testcases, or one more for a testcase under way. */
  ghost predicate LastCounts(counts: seq<int>, completed: int) {
    if counts == [] then completed == 0
    else completed <= counts[|counts| - 1] <= completed + 1
  }

  lemma {:induction false} CountsMonotone(planned: set<string>, h: seq<Entry>)
    ensures NonDecreasing(Counts(planned, h))
    ensures forall i :: 0 <= i < |Counts(planned, h)| ==> 1 <= Counts(planned, h)[i] <= |planned|
    ensures LastCounts(Counts(planned, h), TrackerAfter(planned, h).completed)
  {
    if h != [] {
      var front, e := h[..|h| - 1], h[|h| - 1];
      var t := TrackerAfter(planned, front);
      CountsMonotone(planned, front);
      TrackerExact(planned, front);
      if Reports(t, e) {
        ClampsNeverBite(t, e);
        AppendLargest(Counts(planned, front), t.completed + 1);
      }
    }
  }

  /** The percentages reported for a list of entries. */
  function Percents(planned: set<string>, h: seq<Entry>): seq<int>
    requires planned != {}
  {
    var counts := Counts(planned, h);
    seq(|counts|, i requires 0 <= i < |counts| => Percent(counts[i], |planned|))
  }

  /** Reported percentages never go down and stay within 0..100, whatever the order of entries. */
  lemma PercentsMonotone(planned: set<string>, h: seq<Entry>)
    requires planned != {}
    ensures NonDecreasing(Percents(planned, h))
    ensures forall i :: 0 <= i < |Percents(planned, h)| ==> 0 <= Percents(planned, h)[i] <= 100
  {
    var counts, percents := Counts(planned, h), Percents(planned, h);
    CountsMonotone(planned, h);
    forall i, j | 0 <= i < j < |percents| ensures percents[i] <= percents[j] {
      PercentMonotone(counts[i], counts[j], |planned|);
    }
    forall i | 0 <= i < |percents| ensures 0 <= percents[i] <= 100 {
      PercentMonotone(counts[i], counts[i], |planned|);
    }
  }

  /** Once every planned testcase is finished, the last report was 100. */
  lemma FinishedReportsHundred(planned: set<string>, h: seq<Entry>)
    requires planned != {} && "" !in planned && forall k :: k in planned ==> Finished(h, k)
    ensures Percents(planned, h) != [] && Percents(planned, h)[|Percents(planned, h)| - 1] == 100
  {
    TrackerExact(planned, h);
    CountsMonotone(planned, h);
    var t, counts := TrackerAfter(planned, h), Counts(planned, h);
    assert t.completedSet == planned;
    PercentMonotone(|planned|, |planned|, |planned|);
    assert counts != [] && counts[|counts| - 1] == |planned|;
  }

  /** The planned testcases the entries have finished. */
  ghost function FinishedOnes(planned: set<string>, h: seq<Entry>): set<string> {
    set k | k in planned && k != "" && Finished(h, k)
  }

  /** A report counts the testcase it comes from with those finished before, in whole percent of the planned ones. */
  lemma ReportExact(planned: set<string>, h: seq<Entry>, e: Entry)
    requires planned != {} && Reports(TrackerAfter(planned, h), e)
    ensures
      var percents, done := Percents(planned, h + [e]), |FinishedOnes(planned, h)|;
      && |percents| == |Percents(planned, h)| + 1
      && var p := percents[|percents| - 1]; |planned| * p <= 100 * (done + 1) < |planned| * (p + 1)
  {
    assert (h + [e])[..|h|] == h;
    TrackerExact(planned, h);
    var t := TrackerAfter(planned, h);
    assert t.completedSet == FinishedOnes(planned, h);
    ClampsNeverBite(t, e);
    PercentExact(t.completed + 1, |planned|);
  }

  lemma PercentExact(current: int, total: nat)
    requires total > 0
    ensures total * Percent(current, total) <= 100 * current < total * (Percent(current, total) + 1)
  {
    QuotientBounds(current * 100, total, Percent(current, total) + 1);
  }

  class ProgressTracker {
    const planned: set<string>
    const total: nat
    var completed: int
    var started: set<string>
    var completedSet: set<string>

    function State(): Tracker
      reads this
    {
      Tracker(planned, started, completedSet, completed)
    }

    ghost predicate Valid()
      reads this
    {
      planned != {} && total == |planned| && Coherent(State())
    }

    constructor (planned: set<string>)
      requires planned != {}
      ensures Valid() && State() == NewTracker(planned)
    {
      this.planned := planned;
      total := |planned|;
      completed, started, completedSet := 0, {}, {};
    }

    /** The percentage handed to the job, if the entry reports one. */
    method Callback(e: Entry) returns (percent: Option<int>)
      requires Valid()
      modifies this
      ensures Valid() && State() == Tracked(old(State()), e)
      ensures percent == if Reports(old(State()), e) then Some(Percent(old(completed) + 1, total)) else None
    {
      var key := Key(e.testcase);
      if key == "" || key !in planned {
        return None;
      }
      match e.mark
      case Start => percent := OnStart(key, e);
      case End => percent := OnEnd(key, e);
      case Message => percent := OnNonMarker(key, e);
    }

    method OnStart(key: string, ghost e: Entry) returns (percent: Option<int>)
      requires Valid() && key == Key(e.testcase) && key != "" && key in planned && e.mark.Start?
      modifies this
      ensures Valid() && State() == Tracked(old(State()), e)
      ensures percent == if Reports(old(State()), e) then Some(Percent(old(completed) + 1, total)) else None
    {
      if key in started {
        return None;
      }
      ClampsNeverBite(State(), e);
      started := started + {key};
      percent := Some(Percent(Min(completed + 1, total), total));
    }

    method OnEnd(key: string, ghost e: Entry) returns (percent: Option<int>)
      requires Valid() && key == Key(e.testcase) && key != "" && key in planned && e.mark.End?
      modifies this
      ensures Valid() && State() == Tracked(old(State()), e)
      ensures percent == if Reports(old(State()), e) then Some(Percent(old(completed) + 1, total)) else None
    {
      if key in completedSet {
        return None;
      }
      ClampsNeverBite(State(), e);
      TrackedCoherent(State(), e);
      completedSet := completedSet + {key};
      if key !in started {
        started := started + {key};
      }
      completed := completed + 1;
      percent := Some(Percent(Min(completed, total), total));
      assert started == old(started) + {key};
    }

    method OnNonMarker(key: string, ghost e: Entry) returns (percent: Option<int>)
      requires Valid() && key == Key(e.testcase) && key != "" && key in planned && e.mark.Message?
      modifies this
      ensures Valid() && State() == Tracked(old(State()), e)
      ensures percent == if Reports(old(State()), e) then Some(Percent(old(completed) + 1, total)) else None
    {
      if key in started || key in completedSet {
        return None;
      }
      ClampsNeverBite(State(), e);
      TrackedCoherent(State(), e);
      started := started + {key};
      completedSet := completedSet + {key};
      completed := completed + 1;
      percent := Some(Percent(Min(completed, total), total));
    }
  }
}
