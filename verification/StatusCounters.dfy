/** The collector's status counters, and the map from job to status they stand for. */
module StatusCounters {
  import opened JobStatuses
  import opened Sums

  datatype Counters = Counters(
    statusCounts: map<JobStatus, int>, submitted: int, started: int, inFlight: int, queueDepth: int,
    completed: int, succeeded: int, failed: int, canceled: int)

  const KNOWN_STATUSES := {Queued, Running, Succeeded, Failed, Canceled, Expired, Paused}

  function ZeroCounters(): Counters {
    Counters(map s | s in KNOWN_STATUSES :: 0, 0, 0, 0, 0, 0, 0, 0, 0)
  }

  /** The max in the Prometheus snapshot. */
  function ExpiredTotal(c: Counters): int {
    var n := c.completed - c.succeeded - c.failed - c.canceled;
    if n < 0 then 0 else n
  }

  // --- The specification: which job is where ---

  /** A group of statuses. */
  datatype Group = Is(status: JobStatus) | Terminal | NotKnown

  predicate In(s: JobStatus, g: Group) {
    match g
    case Is(status) => s == status
    case Terminal => IsTerminal(s)
    case NotKnown => !IsKnown(s)
  }

  function Mark(s: JobStatus, g: Group): int {
    if In(s, g) then 1 else 0
  }

  ghost function Holders(jobs: map<string, JobStatus>, g: Group): set<string> {
    set id | id in jobs && In(jobs[id], g)
  }

  /** How many jobs have a status of the group. */
  ghost function Having(jobs: map<string, JobStatus>, g: Group): int {
    |Holders(jobs, g)|
  }

  ghost function InStatus(jobs: map<string, JobStatus>, s: JobStatus): int {
    Having(jobs, Is(s))
  }

  ghost predicate CountsExact(counts: map<JobStatus, int>, jobs: map<string, JobStatus>) {
    forall s :: IsKnown(s) ==> CountAt(counts, s) == InStatus(jobs, s)
  }

  ghost predicate GaugesExact(c: Counters, jobs: map<string, JobStatus>) {
    (c.queueDepth, c.inFlight) == (InStatus(jobs, Queued), InStatus(jobs, Running))
  }

  function Totals(c: Counters): (int, int, int, int) {
    (c.completed, c.succeeded, c.failed, c.canceled)
  }

  ghost predicate TotalsExact(c: Counters, jobs: map<string, JobStatus>) {
    Totals(c) == (Having(jobs, Terminal), InStatus(jobs, Succeeded), InStatus(jobs, Failed), InStatus(jobs, Canceled))
  }

  /** The counters tell exactly where the jobs are. */
  ghost predicate Refines(c: Counters, jobs: map<string, JobStatus>) {
    && CountsExact(c.statusCounts, jobs)
    && c.submitted == |jobs|
    && GaugesExact(c, jobs)
    && TotalsExact(c, jobs)
  }

  lemma HavingWithout(jobs: map<string, JobStatus>, id: string, g: Group)
    requires id in jobs
    ensures Having(jobs, g) == Mark(jobs[id], g) + Having(jobs - {id}, g)
  {
    if In(jobs[id], g) {
      assert Holders(jobs, g) == Holders(jobs - {id}, g) + {id};
    } else {
      assert Holders(jobs, g) == Holders(jobs - {id}, g);
    }
  }

  lemma HavingAfter(jobs: map<string, JobStatus>, id: string, s: JobStatus, g: Group)
    ensures Having(jobs[id := s], g) ==
      Having(jobs, g) - (if id in jobs then Mark(jobs[id], g) else 0) + Mark(s, g)
  {
    HavingWithout(jobs[id := s], id, g);
    if id in jobs {
      HavingWithout(jobs, id, g);
      assert jobs[id := s] - {id} == jobs - {id};
    } else {
      assert jobs[id := s] - {id} == jobs;
    }
  }

  lemma NobodyIn(g: Group)
    ensures Having(map[], g) == 0
  {
    assert Holders(map[], g) == {};
  }

  ghost function TerminalSum(jobs: map<string, JobStatus>): int {
    InStatus(jobs, Succeeded) + InStatus(jobs, Failed) + InStatus(jobs, Canceled) + InStatus(jobs, Expired)
  }

  lemma TerminalSumWithout(jobs: map<string, JobStatus>, id: string)
    requires id in jobs
    ensures TerminalSum(jobs) == Mark(jobs[id], Terminal) + TerminalSum(jobs - {id})
  {
    HavingWithout(jobs, id, Is(Succeeded));
    HavingWithout(jobs, id, Is(Failed));
    HavingWithout(jobs, id, Is(Canceled));
    HavingWithout(jobs, id, Is(Expired));
  }

  /** The terminal jobs are the succeeded, failed, canceled and expired ones. */
  lemma {:induction false} TerminalSplit(jobs: map<string, JobStatus>)
    ensures Having(jobs, Terminal) == TerminalSum(jobs)
  {
    if jobs == map[] {
      NobodyIn(Terminal);
      NobodyIn(Is(Succeeded));
      NobodyIn(Is(Failed));
      NobodyIn(Is(Canceled));
      NobodyIn(Is(Expired));
    } else {
      var id :| id in jobs;
      TerminalSplit(jobs - {id});
      HavingWithout(jobs, id, Terminal);
      TerminalSumWithout(jobs, id);
    }
  }

  ghost function StatusSum(jobs: map<string, JobStatus>): int {
    InStatus(jobs, Queued) + InStatus(jobs, Running) + InStatus(jobs, Paused) + Having(jobs, Terminal) + Having(jobs, NotKnown)
  }

  lemma StatusSumWithout(jobs: map<string, JobStatus>, id: string)
    requires id in jobs
    ensures StatusSum(jobs) == 1 + StatusSum(jobs - {id})
  {
    HavingWithout(jobs, id, Is(Queued));
    HavingWithout(jobs, id, Is(Running));
    HavingWithout(jobs, id, Is(Paused));
    HavingWithout(jobs, id, Terminal);
    HavingWithout(jobs, id, NotKnown);
  }

  /** Every job is waiting, running, paused, terminal or in no known status. */
  lemma {:induction false} StatusSplit(jobs: map<string, JobStatus>)
    ensures |jobs| == StatusSum(jobs)
  {
    if jobs == map[] {
      NobodyIn(Is(Queued));
      NobodyIn(Is(Running));
      NobodyIn(Is(Paused));
      NobodyIn(Terminal);
      NobodyIn(NotKnown);
    } else {
      var id :| id in jobs;
      StatusSplit(jobs - {id});
      StatusSumWithout(jobs, id);
      assert (jobs - {id}).Keys == jobs.Keys - {id};
      assert |jobs.Keys - {id}| == |jobs.Keys| - 1;
    }
  }

  // --- One transition ---

  function CountsAfter(counts: map<JobStatus, int>, from: JobStatus, to: JobStatus): map<JobStatus, int> {
    Entered(Left(counts, from), to)
  }

  function Left(counts: map<JobStatus, int>, from: JobStatus): map<JobStatus, int> {
    if IsKnown(from) && CountAt(counts, from) > 0 then counts[from := counts[from] - 1] else counts
  }

  function Entered(counts: map<JobStatus, int>, to: JobStatus): map<JobStatus, int> {
    if IsKnown(to) then counts[to := CountAt(counts, to) + 1] else counts
  }

  /** A gauge of one status: up when a job enters it, down (not below zero) when one leaves. */
  function GaugeAfter(gauge: int, s: JobStatus, from: JobStatus, to: JobStatus): int {
    if from != s && to == s then gauge + 1
    else if from == s && to != s && gauge > 0 then gauge - 1
    else gauge
  }

  /** A total that only counts jobs first turning terminal, in one status or in any. */
  function TotalAfter(total: int, counts: bool, from: JobStatus, to: JobStatus): int {
    if !IsTerminal(from) && IsTerminal(to) && counts then total + 1 else total
  }

  function Moved(c: Counters, from: JobStatus, to: JobStatus): Counters {
    if from == to then c
    else
      Counters(
        CountsAfter(c.statusCounts, from, to),
        c.submitted,
        if from != Running && to == Running then c.started + 1 else c.started,
        GaugeAfter(c.inFlight, Running, from, to),
        GaugeAfter(c.queueDepth, Queued, from, to),
        TotalAfter(c.completed, true, from, to),
        TotalAfter(c.succeeded, to == Succeeded, from, to),
        TotalAfter(c.failed, to == Failed, from, to),
        TotalAfter(c.canceled, to == Canceled, from, to))
  }

  function Submitted(c: Counters, initial: JobStatus): Counters {
    Moved(c.(submitted := c.submitted + 1), NO_STATUS, initial)
  }

  /** In a state that tells the truth, no guard against negative counts can ever bite. */
  lemma GuardsNeverBite(c: Counters, jobs: map<string, JobStatus>, id: string)
    requires CountsExact(c.statusCounts, jobs) && GaugesExact(c, jobs) && id in jobs
    ensures IsKnown(jobs[id]) ==> CountAt(c.statusCounts, jobs[id]) > 0
    ensures jobs[id] == Running ==> c.inFlight > 0
    ensures jobs[id] == Queued ==> c.queueDepth > 0
  {
    HavingWithout(jobs, id, Is(jobs[id]));
  }

  lemma CountAtAfter(counts: map<JobStatus, int>, from: JobStatus, to: JobStatus, s: JobStatus)
    requires from != to && IsKnown(s) && (IsKnown(from) ==> CountAt(counts, from) > 0)
    ensures CountAt(CountsAfter(counts, from, to), s) ==
      CountAt(counts, s) - (if s == from then 1 else 0) + (if s == to then 1 else 0)
  {}

  /** The job is in this status; a new job is in none. */
  predicate Leaves(jobs: map<string, JobStatus>, id: string, from: JobStatus) {
    if id in jobs then jobs[id] == from else from == NO_STATUS
  }

  /** Status counts follow a job from one status to another; a new job comes from no status. */
  lemma CountsFollow(counts: map<JobStatus, int>, jobs: map<string, JobStatus>, id: string, from: JobStatus, to: JobStatus)
    requires CountsExact(counts, jobs) && from != to && (IsKnown(from) ==> CountAt(counts, from) > 0)
    requires Leaves(jobs, id, from)
    ensures CountsExact(CountsAfter(counts, from, to), jobs[id := to])
  {
    forall s | IsKnown(s) ensures CountAt(CountsAfter(counts, from, to), s) == InStatus(jobs[id := to], s) {
      CountAtAfter(counts, from, to, s);
      HavingAfter(jobs, id, to, Is(s));
    }
  }

  lemma GaugeFollows(gauge: int, s: JobStatus, jobs: map<string, JobStatus>, id: string, from: JobStatus, to: JobStatus)
    requires gauge == InStatus(jobs, s) && from != to && IsKnown(s) && (from == s ==> gauge > 0)
    requires Leaves(jobs, id, from)
    ensures GaugeAfter(gauge, s, from, to) == InStatus(jobs[id := to], s)
  {
    HavingAfter(jobs, id, to, Is(s));
  }

  lemma TotalFollows(total: int, g: Group, jobs: map<string, JobStatus>, id: string, from: JobStatus, to: JobStatus)
    requires total == Having(jobs, g) && !IsTerminal(from)
    requires g == Terminal || (g.Is? && IsTerminal(g.status))
    requires Leaves(jobs, id, from)
    ensures TotalAfter(total, In(to, g), from, to) == Having(jobs[id := to], g)
  {
    HavingAfter(jobs, id, to, g);
  }

  /** A move out of no status or a non-terminal one keeps counts, gauges and totals exact. */
  lemma MoveRefines(c: Counters, jobs: map<string, JobStatus>, id: string, from: JobStatus, to: JobStatus)
    requires CountsExact(c.statusCounts, jobs) && GaugesExact(c, jobs) && TotalsExact(c, jobs)
    requires from != to && !IsTerminal(from) && Leaves(jobs, id, from)
    requires IsKnown(from) ==> CountAt(c.statusCounts, from) > 0
    requires (from == Running ==> c.inFlight > 0) && (from == Queued ==> c.queueDepth > 0)
    ensures var m, after := Moved(c, from, to), jobs[id := to];
      CountsExact(m.statusCounts, after) && GaugesExact(m, after) && TotalsExact(m, after)
  {
    CountsFollow(c.statusCounts, jobs, id, from, to);
    GaugeFollows(c.queueDepth, Queued, jobs, id, from, to);
    GaugeFollows(c.inFlight, Running, jobs, id, from, to);
    TotalFollows(c.completed, Terminal, jobs, id, from, to);
    TotalFollows(c.succeeded, Is(Succeeded), jobs, id, from, to);
    TotalFollows(c.failed, Is(Failed), jobs, id, from, to);
    TotalFollows(c.canceled, Is(Canceled), jobs, id, from, to);
  }

  /** A transition from the job's current status keeps the counters true exactly when that status was not
      terminal (or nothing changes): the totals never take a finished job back. */
  lemma TransitionRefinesIff(c: Counters, jobs: map<string, JobStatus>, id: string, to: JobStatus)
    requires Refines(c, jobs) && id in jobs
    ensures Refines(Moved(c, jobs[id], to), jobs[id := to]) <==> !IsTerminal(jobs[id]) || jobs[id] == to
  {
    var from, after := jobs[id], jobs[id := to];
    if from == to {
      assert after == jobs;
    } else if IsTerminal(from) {
      StaleTotals(c, jobs, id, to);
    } else {
      GuardsNeverBite(c, jobs, id);
      MoveRefines(c, jobs, id, from, to);
      assert after.Keys == jobs.Keys;
      assert |after.Keys| == |jobs.Keys|;
    }
  }

  /** After a job leaves a terminal status, some total no longer matches. */
  lemma StaleTotals(c: Counters, jobs: map<string, JobStatus>, id: string, to: JobStatus)
    requires TotalsExact(c, jobs) && id in jobs && jobs[id] != to && IsTerminal(jobs[id])
    ensures !TotalsExact(Moved(c, jobs[id], to), jobs[id := to])
  {
    HavingAfter(jobs, id, to, Terminal);
    HavingAfter(jobs, id, to, Is(Succeeded));
    HavingAfter(jobs, id, to, Is(Failed));
    HavingAfter(jobs, id, to, Is(Canceled));
  }

  lemma JobsGrow(jobs: map<string, JobStatus>, id: string, s: JobStatus)
    requires id !in jobs
    ensures |jobs[id := s]| == |jobs| + 1
  {
    assert jobs[id := s].Keys == jobs.Keys + {id};
    assert |jobs[id := s].Keys| == |jobs.Keys| + 1;
  }

  lemma SubmissionRefines(c: Counters, jobs: map<string, JobStatus>, id: string, initial: JobStatus)
    requires Refines(c, jobs) && id !in jobs
    ensures Refines(Submitted(c, initial), jobs[id := initial])
  {
    JobsGrow(jobs, id, initial);
    if initial == NO_STATUS {
      Uncounted(jobs, id);
    } else {
      MoveRefines(c.(submitted := c.submitted + 1), jobs, id, NO_STATUS, initial);
    }
  }

  /** A job submitted without a status is in no count but the submissions. */
  lemma Uncounted(jobs: map<string, JobStatus>, id: string)
    requires id !in jobs
    ensures forall g: Group | g == Terminal || (g.Is? && IsKnown(g.status)) :: Having(jobs[id := NO_STATUS], g) == Having(jobs, g)
  {
    forall g: Group | g == Terminal || (g.Is? && IsKnown(g.status))
      ensures Having(jobs[id := NO_STATUS], g) == Having(jobs, g)
    {
      HavingAfter(jobs, id, NO_STATUS, g);
    }
  }

  /** The derived expired total is exact, so the max in it never bites. */
  lemma ExpiredTotalExact(c: Counters, jobs: map<string, JobStatus>)
    requires TotalsExact(c, jobs)
    ensures ExpiredTotal(c) == InStatus(jobs, Expired) == c.completed - c.succeeded - c.failed - c.canceled
  {
    TerminalSplit(jobs);
  }

  /** Submissions are the sum of all status counts plus the jobs in no known status. */
  lemma SubmittedIsSum(c: Counters, jobs: map<string, JobStatus>)
    requires Refines(c, jobs)
    ensures c.submitted == c.queueDepth + c.inFlight + CountAt(c.statusCounts, Paused) + c.completed + Having(jobs, NotKnown)
  {
    StatusSplit(jobs);
  }

  // --- Whole runs ---

  datatype Event = Submit(id: string, initial: JobStatus) | Move(id: string, from: JobStatus, to: JobStatus)

  function JobsAfter(h: seq<Event>): map<string, JobStatus> {
    if h == [] then map[]
    else
      match h[|h| - 1]
      case Submit(id, initial) => JobsAfter(h[..|h| - 1])[id := initial]
      case Move(id, _, to) => JobsAfter(h[..|h| - 1])[id := to]
  }

  function CountersAfter(h: seq<Event>): Counters {
    if h == [] then ZeroCounters()
    else
      match h[|h| - 1]
      case Submit(_, initial) => Submitted(CountersAfter(h[..|h| - 1]), initial)
      case Move(_, from, to) => Moved(CountersAfter(h[..|h| - 1]), from, to)
  }

  /** Ids are new, transitions start from the job's current status, and terminal statuses are final. */
  predicate LegalNext(jobs: map<string, JobStatus>, e: Event) {
    match e
    case Submit(id, _) => id !in jobs
    case Move(id, from, to) => id in jobs && jobs[id] == from && (!IsTerminal(from) || from == to)
  }

  predicate LegalRun(h: seq<Event>) {
    h == [] || (LegalRun(h[..|h| - 1]) && LegalNext(JobsAfter(h[..|h| - 1]), h[|h| - 1]))
  }

  lemma ZeroRefines()
    ensures Refines(ZeroCounters(), map[])
  {
    forall s | IsKnown(s) ensures CountAt(ZeroCounters().statusCounts, s) == InStatus(map[], s) {
      NobodyIn(Is(s));
    }
    NobodyIn(Terminal);
    NobodyIn(Is(Queued));
    NobodyIn(Is(Running));
    NobodyIn(Is(Succeeded));
    NobodyIn(Is(Failed));
    NobodyIn(Is(Canceled));
  }

  /** Retrying a failed job leaves the totals behind: it is counted as completed and failed while it waits,
      and completes a second time. */
  lemma RetryGoesStale(id: string)
    ensures var h := [Submit(id, Queued), Move(id, Queued, Failed), Move(id, Failed, Queued)];
      && JobsAfter(h) == map[id := Queued] && Having(JobsAfter(h), Terminal) == 0
      && CountersAfter(h).completed == 1 && CountersAfter(h).failed == 1
  {
    var e0, e1, e2 := Submit(id, Queued), Move(id, Queued, Failed), Move(id, Failed, Queued);
    RunStep([], e0);
    RunStep([e0], e1);
    RunStep([e0, e1], e2);
    assert [] + [e0] == [e0] && [e0] + [e1] == [e0, e1] && [e0, e1] + [e2] == [e0, e1, e2];
    assert Holders(map[id := Queued], Terminal) == {};
  }

  lemma RunStep(h: seq<Event>, e: Event)
    ensures JobsAfter(h + [e]) == JobsAfter(h)[e.id := if e.Submit? then e.initial else e.to]
    ensures CountersAfter(h + [e]) ==
      if e.Submit? then Submitted(CountersAfter(h), e.initial) else Moved(CountersAfter(h), e.from, e.to)
  {
    assert (h + [e])[..|h|] == h;
  }

  /** Over every legal run the counters are exact. */
  lemma {:induction false} RunRefines(h: seq<Event>)
    requires LegalRun(h)
    ensures Refines(CountersAfter(h), JobsAfter(h))
  {
    if h == [] {
      ZeroRefines();
    } else {
      var front, e := h[..|h| - 1], h[|h| - 1];
      RunRefines(front);
      match e
      case Submit(id, initial) => SubmissionRefines(CountersAfter(front), JobsAfter(front), id, initial);
      case Move(id, from, to) => TransitionRefinesIff(CountersAfter(front), JobsAfter(front), id, to);
    }
  }

  class StatusCounters {
    var statusCounts: map<JobStatus, int>
    var submittedTotal: int
    var startedTotal: int
    var inFlight: int
    var queueDepth: int
    var completedTotal: int
    var succeededTotal: int
    var failedTotal: int
    var canceledTotal: int

    function State(): Counters
      reads this
    {
      Counters(statusCounts, submittedTotal, startedTotal, inFlight, queueDepth,
               completedTotal, succeededTotal, failedTotal, canceledTotal)
    }

    constructor ()
      ensures State() == ZeroCounters()
    {
      statusCounts := map s | s in KNOWN_STATUSES :: 0;
      submittedTotal, startedTotal, inFlight, queueDepth := 0, 0, 0, 0;
      completedTotal, succeededTotal, failedTotal, canceledTotal := 0, 0, 0, 0;
    }

    method ObserveJobSubmitted(initial: JobStatus)
      modifies this
      ensures State() == Submitted(old(State()), initial)
    {
      submittedTotal := submittedTotal + 1;
      ObserveStatusTransition(NO_STATUS, initial);
    }

    method ObserveStatusTransition(from: JobStatus, to: JobStatus)
      modifies this
      ensures State() == Moved(old(State()), from, to)
    {
      if from == to {
        return;
      }
      MoveCounts(from, to);
      MoveGauges(from, to);
      if !IsTerminal(from) && IsTerminal(to) {
        Complete(to);
      }
    }

    method MoveGauges(from: JobStatus, to: JobStatus)
      modifies `startedTotal, `inFlight, `queueDepth
      ensures startedTotal == old(startedTotal) + if from != Running && to == Running then 1 else 0
      ensures inFlight == GaugeAfter(old(inFlight), Running, from, to)
      ensures queueDepth == GaugeAfter(old(queueDepth), Queued, from, to)
    {
      if from != Running && to == Running {
        startedTotal := startedTotal + 1;
        inFlight := inFlight + 1;
      }
      if from == Running && to != Running && inFlight > 0 {
        inFlight := inFlight - 1;
      }
      if from != Queued && to == Queued {
        queueDepth := queueDepth + 1;
      }
      if from == Queued && to != Queued && queueDepth > 0 {
        queueDepth := queueDepth - 1;
      }
    }

    method MoveCounts(from: JobStatus, to: JobStatus)
      modifies `statusCounts
      ensures statusCounts == CountsAfter(old(statusCounts), from, to)
    {
      var counts := statusCounts;
      if IsKnown(from) && CountAt(counts, from) > 0 {
        counts := counts[from := counts[from] - 1];
      }
      assert counts == Left(statusCounts, from);
      if IsKnown(to) {
        counts := counts[to := CountAt(counts, to) + 1];
      }
      statusCounts := counts;
    }

    method Complete(to: JobStatus)
      modifies `completedTotal, `succeededTotal, `failedTotal, `canceledTotal
      ensures completedTotal == old(completedTotal) + 1
      ensures succeededTotal == old(succeededTotal) + if to == Succeeded then 1 else 0
      ensures failedTotal == old(failedTotal) + if to == Failed then 1 else 0
      ensures canceledTotal == old(canceledTotal) + if to == Canceled then 1 else 0
    {
      completedTotal := completedTotal + 1;
      if to == Succeeded {
        succeededTotal := succeededTotal + 1;
      }
      if to == Failed {
        failedTotal := failedTotal + 1;
      }
      if to == Canceled {
        canceledTotal := canceledTotal + 1;
      }
    }
  }
}
