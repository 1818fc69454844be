/** Runs of observations as the status counters meet them. Handlers enqueue a job before they count its submission, so
    a worker's transition can be observed first; what the counters then say, and when they are exact all the same. */
module ObservationRuns {
  import opened JobStatuses
  import opened Numbers
  import opened Sums
  import opened StatusCounters

  function Source(e: Event): JobStatus {
    if e.Submit? then NO_STATUS else e.from
  }

  function Target(e: Event): JobStatus {
    if e.Submit? then e.initial else e.to
  }

  // --- Exact at every moment ---

  /** Every status a job enters is one of the seven. Jobs in any other are in no count, so the counters cannot tell
      such statuses apart. */
  ghost predicate EntersKnown(h: seq<Event>) {
    forall i :: 0 <= i < |h| ==> IsKnown(Target(h[i]))
  }

  /** The counters are exact after every observation of the run. */
  ghost predicate ExactThroughout(h: seq<Event>) {
    Refines(CountersAfter(h), JobsAfter(h)) && (h != [] ==> ExactThroughout(h[..|h| - 1]))
  }

  lemma {:induction false} JobsKnown(h: seq<Event>)
    requires EntersKnown(h)
    ensures forall id :: id in JobsAfter(h) ==> IsKnown(JobsAfter(h)[id])
  {
    if h != [] {
      JobsKnown(h[..|h| - 1]);
      assert IsKnown(Target(h[|h| - 1]));
    }
  }

  function Observed(c: Counters, e: Event): Counters {
    if e.Submit? then Submitted(c, e.initial) else Moved(c, e.from, e.to)
  }

  /** From counters that tell the truth, one observation keeps them true exactly when it is legal. */
  lemma ObservationExactIff(c: Counters, jobs: map<string, JobStatus>, e: Event)
    requires Refines(c, jobs) && IsKnown(Target(e)) && forall id :: id in jobs ==> IsKnown(jobs[id])
    ensures Refines(Observed(c, e), jobs[e.id := Target(e)]) <==> LegalNext(jobs, e)
  {
    if e.Submit? {
      if e.id in jobs {
        assert jobs[e.id := e.initial].Keys == jobs.Keys;
        assert |jobs[e.id := e.initial].Keys| == |jobs.Keys|;
      } else {
        SubmissionRefines(c, jobs, e.id, e.initial);
      }
    } else if e.id !in jobs {
      JobsGrow(jobs, e.id, e.to);
    } else if jobs[e.id] == e.from {
      TransitionRefinesIff(c, jobs, e.id, e.to);
    } else {
      WrongSource(c, jobs, e.id, e.from, e.to);
    }
  }

  /** A transition told from another status than the job's leaves that status miscounted. */
  lemma WrongSource(c: Counters, jobs: map<string, JobStatus>, id: string, from: JobStatus, to: JobStatus)
    requires CountsExact(c.statusCounts, jobs) && id in jobs && IsKnown(jobs[id]) && jobs[id] != from
    ensures !CountsExact(Moved(c, from, to).statusCounts, jobs[id := to])
  {
    var current, moved := jobs[id], Moved(c, from, to);
    HavingAfter(jobs, id, to, Is(current));
    assert CountAt(c.statusCounts, current) == InStatus(jobs, current);
    if from == to {
      assert moved.statusCounts == c.statusCounts;
    } else {
      MovedCounts(c, from, to, current);
    }
    assert CountAt(moved.statusCounts, current) == InStatus(jobs[id := to], current) + 1;
  }

  lemma LastExactIff(h: seq<Event>)
    requires h != [] && EntersKnown(h) && Refines(CountersAfter(h[..|h| - 1]), JobsAfter(h[..|h| - 1]))
    ensures Refines(CountersAfter(h), JobsAfter(h)) <==> LegalNext(JobsAfter(h[..|h| - 1]), h[|h| - 1])
  {
    var front, e := h[..|h| - 1], h[|h| - 1];
    JobsKnown(front);
    ObservationExactIff(CountersAfter(front), JobsAfter(front), e);
  }

  /** The counters are exact at every moment of a run if and only if every job's submission is observed first, each
      transition starts from the job's current status, and terminal statuses are final. "Only if" takes jobs that
      enter known statuses. */
  lemma {:induction false} ExactThroughoutIff(h: seq<Event>)
    ensures LegalRun(h) ==> ExactThroughout(h)
    ensures EntersKnown(h) && ExactThroughout(h) ==> LegalRun(h)
  {
    if h != [] {
      ExactThroughoutIff(h[..|h| - 1]);
      if EntersKnown(h) && ExactThroughout(h) {
        LastExactIff(h);
      }
    }
    if LegalRun(h) {
      RunRefines(h);
    }
  }

  // --- Observed in another order ---

  /** What an observation does to the number of jobs in a status. */
  function Change(s: JobStatus): Event -> int {
    (e: Event) => (if Target(e) == s then 1 else 0) - (if Source(e) == s then 1 else 0)
  }

  /** Jobs seen entering a status less jobs seen leaving it. */
  ghost function Net(h: seq<Event>, s: JobStatus): int {
    SumBy(h, Change(s))
  }

  /** By how many jobs the departures from a status have at some moment outrun the arrivals. */
  ghost function Shortfall(h: seq<Event>, s: JobStatus): int {
    if h == [] then 0 else Max(Shortfall(h[..|h| - 1], s), -Net(h, s))
  }

  /** A count or gauge after one more observation: it goes down only from above zero. */
  function Guarded(n: int, s: JobStatus, e: Event): int {
    if Source(e) == Target(e) then n
    else n - (if Source(e) == s && n > 0 then 1 else 0) + (if Target(e) == s then 1 else 0)
  }

  lemma MovedCounts(c: Counters, from: JobStatus, to: JobStatus, s: JobStatus)
    requires from != to && IsKnown(s)
    ensures CountAt(CountsAfter(c.statusCounts, from, to), s) ==
      CountAt(c.statusCounts, s) - (if from == s && CountAt(c.statusCounts, s) > 0 then 1 else 0) + (if to == s then 1 else 0)
  {
    var left := Left(c.statusCounts, from);
    assert CountAt(left, s) == CountAt(c.statusCounts, s) - if from == s && CountAt(c.statusCounts, s) > 0 then 1 else 0;
  }

  lemma CountStep(h: seq<Event>, s: JobStatus)
    requires h != [] && IsKnown(s)
    ensures CountAt(CountersAfter(h).statusCounts, s) ==
      Guarded(CountAt(CountersAfter(h[..|h| - 1]).statusCounts, s), s, h[|h| - 1])
  {
    var was, e := CountersAfter(h[..|h| - 1]), h[|h| - 1];
    if Source(e) != Target(e) {
      MovedCounts(was, Source(e), Target(e), s);
    }
  }

  lemma GaugeStep(h: seq<Event>)
    requires h != []
    ensures CountersAfter(h).queueDepth == Guarded(CountersAfter(h[..|h| - 1]).queueDepth, Queued, h[|h| - 1])
    ensures CountersAfter(h).inFlight == Guarded(CountersAfter(h[..|h| - 1]).inFlight, Running, h[|h| - 1])
  {}

  /** Each guard that bites loses one departure for good: a guarded count is its net count plus the greatest shortfall
      so far. */
  lemma {:induction false} GuardedCount(h: seq<Event>, s: JobStatus)
    requires IsKnown(s)
    ensures CountAt(CountersAfter(h).statusCounts, s) == Net(h, s) + Shortfall(h, s) >= 0
  {
    if h != [] {
      GuardedCount(h[..|h| - 1], s);
      CountStep(h, s);
    }
  }

  /** The gauges are the counts of their statuses. */
  lemma {:induction false} GaugesAreCounts(h: seq<Event>)
    ensures CountersAfter(h).queueDepth == CountAt(CountersAfter(h).statusCounts, Queued)
    ensures CountersAfter(h).inFlight == CountAt(CountersAfter(h).statusCounts, Running)
  {
    if h != [] {
      GaugesAreCounts(h[..|h| - 1]);
      CountStep(h, Queued);
      CountStep(h, Running);
      GaugeStep(h);
    }
  }

  /** What an observation adds to the total of the jobs that turned terminal, in one status or in any. */
  function Turn(g: Group): Event -> int {
    (e: Event) => if !IsTerminal(Source(e)) && IsTerminal(Target(e)) && In(Target(e), g) then 1 else 0
  }

  function Counted(): Event -> int {
    (e: Event) => if e.Submit? then 1 else 0
  }

  ghost function TurnSums(h: seq<Event>): (int, int, int, int) {
    (SumBy(h, Turn(Terminal)), SumBy(h, Turn(Is(Succeeded))), SumBy(h, Turn(Is(Failed))), SumBy(h, Turn(Is(Canceled))))
  }

  /** The totals are sums over the observations, whatever their order. */
  lemma {:induction false} TotalsAreSums(h: seq<Event>)
    ensures Totals(CountersAfter(h)) == TurnSums(h)
  {
    if h != [] {
      TotalsAreSums(h[..|h| - 1]);
      TotalsStep(h);
    }
  }

  lemma TotalsStep(h: seq<Event>)
    requires h != []
    ensures var was, now, e := CountersAfter(h[..|h| - 1]), CountersAfter(h), h[|h| - 1];
      && now.completed == was.completed + Turn(Terminal)(e)
      && now.succeeded == was.succeeded + Turn(Is(Succeeded))(e)
      && now.failed == was.failed + Turn(Is(Failed))(e)
      && now.canceled == was.canceled + Turn(Is(Canceled))(e)
  {
    var was, e := CountersAfter(h[..|h| - 1]), h[|h| - 1];
    TurnAdds(was.completed, Terminal, e);
    TurnAdds(was.succeeded, Is(Succeeded), e);
    TurnAdds(was.failed, Is(Failed), e);
    TurnAdds(was.canceled, Is(Canceled), e);
  }

  lemma {:induction false} SubmissionsAreSum(h: seq<Event>)
    ensures CountersAfter(h).submitted == SumBy(h, Counted())
  {
    if h != [] {
      SubmissionsAreSum(h[..|h| - 1]);
    }
  }

  lemma TurnAdds(total: int, g: Group, e: Event)
    ensures TotalAfter(total, In(Target(e), g), Source(e), Target(e)) == total + Turn(g)(e)
    ensures Source(e) == Target(e) ==> Turn(g)(e) == 0
  {}

  function Starting(): Event -> int {
    (e: Event) => if Source(e) != Running && Target(e) == Running then 1 else 0
  }

  /** Every observed move into the running status counts as a start, however often a job starts. */
  lemma {:induction false} StartsAreSum(h: seq<Event>)
    ensures CountersAfter(h).started == SumBy(h, Starting())
  {
    if h != [] {
      StartsAreSum(h[..|h| - 1]);
    }
  }

  /** In a legal run no departure outruns its arrival. */
  lemma {:induction false} LegalNeverShort(t: seq<Event>, s: JobStatus)
    requires LegalRun(t) && IsKnown(s)
    ensures Shortfall(t, s) == 0
  {
    if t != [] {
      var front := t[..|t| - 1];
      LegalNeverShort(front, s);
      RunRefines(front);
      RunRefines(t);
      GuardedCount(front, s);
      var e, jobs := t[|t| - 1], JobsAfter(front);
      if Source(e) == s {
        GuardsNeverBite(CountersAfter(front), jobs, e.id);
      }
    }
  }

  /** At no moment have more jobs been seen leaving a status than entering it. */
  ghost predicate NeverShort(h: seq<Event>) {
    forall s, i :: IsKnown(s) && 0 <= i <= |h| ==> Net(h[..i], s) >= 0
  }

  lemma {:induction false} ShortfallWithin(h: seq<Event>, s: JobStatus)
    ensures Shortfall(h, s) >= 0
    ensures Shortfall(h, s) == 0 <==> forall i :: 0 <= i <= |h| ==> Net(h[..i], s) >= 0
  {
    assert h[..|h|] == h;
    if h != [] {
      var front := h[..|h| - 1];
      ShortfallWithin(front, s);
      assert forall i :: 0 <= i <= |front| ==> front[..i] == h[..i];
    }
  }

  /** The jobs behind a run are those of the order things really happened in, t; the observations arrive in the order h.
      Every status is overcounted by its shortfall, for good. */
  lemma OvercountedBy(h: seq<Event>, t: seq<Event>, s: JobStatus)
    requires multiset(h) == multiset(t) && LegalRun(t) && IsKnown(s)
    ensures CountAt(CountersAfter(h).statusCounts, s) == InStatus(JobsAfter(t), s) + Shortfall(h, s)
  {
    GuardedCount(h, s);
    GuardedCount(t, s);
    LegalNeverShort(t, s);
    RunRefines(t);
    SumByPermutation(h, t, Change(s));
  }

  /** Observed in any order, the counters end up exact if and only if no status was ever seen left by more jobs than
      had been seen entering it. */
  lemma ReorderedExactIff(h: seq<Event>, t: seq<Event>)
    requires multiset(h) == multiset(t) && LegalRun(t)
    ensures Refines(CountersAfter(h), JobsAfter(t)) <==> NeverShort(h)
  {
    RunRefines(t);
    TotalsReordered(h, t);
    forall s | IsKnown(s)
      ensures CountAt(CountersAfter(h).statusCounts, s) == InStatus(JobsAfter(t), s) <==> Shortfall(h, s) == 0
      ensures Shortfall(h, s) == 0 <==> forall i :: 0 <= i <= |h| ==> Net(h[..i], s) >= 0
    {
      OvercountedBy(h, t, s);
      ShortfallWithin(h, s);
    }
    GaugesAreCounts(h);
  }

  lemma TotalsReordered(h: seq<Event>, t: seq<Event>)
    requires multiset(h) == multiset(t)
    ensures CountersAfter(h).submitted == CountersAfter(t).submitted && Totals(CountersAfter(h)) == Totals(CountersAfter(t))
  {
    TotalsAreSums(h);
    TotalsAreSums(t);
    SubmissionsAreSum(h);
    SubmissionsAreSum(t);
    SumByPermutation(h, t, Counted());
    SumByPermutation(h, t, Turn(Terminal));
    SumByPermutation(h, t, Turn(Is(Succeeded)));
    SumByPermutation(h, t, Turn(Is(Failed)));
    SumByPermutation(h, t, Turn(Is(Canceled)));
  }

  /** A worker takes up the only queued job before its submission is counted: it stays counted as queued for good. */
  lemma LateSubmissionGoesStale(id: string)
    ensures
      var submitted, started, done := Submit(id, Queued), Move(id, Queued, Running), Move(id, Running, Succeeded);
      var t, h := [submitted, started, done], [started, submitted, done];
      && LegalRun(t) && multiset(h) == multiset(t) && !NeverShort(h)
      && JobsAfter(t) == map[id := Succeeded] && InStatus(JobsAfter(t), Queued) == 0
      && CountersAfter(h).queueDepth == 1 && CountAt(CountersAfter(h).statusCounts, Queued) == 1
  {
    var submitted, started, done := Submit(id, Queued), Move(id, Queued, Running), Move(id, Running, Succeeded);
    ThreeInTurn(id);
    LateShortfall(id);
    var t, h := [submitted, started, done], [started, submitted, done];
    assert multiset(h) == multiset(t);
    OvercountedBy(h, t, Queued);
    GaugesAreCounts(h);
    ShortfallWithin(h, Queued);
    assert Holders(map[id := Succeeded], Is(Queued)) == {};
  }

  lemma ThreeInTurn(id: string)
    ensures var t := [Submit(id, Queued), Move(id, Queued, Running), Move(id, Running, Succeeded)];
      LegalRun(t) && JobsAfter(t) == map[id := Succeeded]
  {
    var t := [Submit(id, Queued), Move(id, Queued, Running), Move(id, Running, Succeeded)];
    assert t[..2][..1] == t[..1] && t[..1][..0] == [];
    assert JobsAfter(t[..1]) == map[id := Queued] && LegalRun(t[..1]);
    assert JobsAfter(t[..2]) == map[id := Running] && LegalRun(t[..2]);
  }

  lemma LateShortfall(id: string)
    ensures Shortfall([Move(id, Queued, Running), Submit(id, Queued), Move(id, Running, Succeeded)], Queued) == 1
  {
    var e0, e1, e2 := Move(id, Queued, Running), Submit(id, Queued), Move(id, Running, Succeeded);
    ShortStep([], e0, Queued);
    ShortStep([e0], e1, Queued);
    ShortStep([e0, e1], e2, Queued);
    assert [] + [e0] == [e0] && [e0] + [e1] == [e0, e1] && [e0, e1] + [e2] == [e0, e1, e2];
  }

  lemma ShortStep(h: seq<Event>, e: Event, s: JobStatus)
    ensures Net(h + [e], s) == Net(h, s) + Change(s)(e)
    ensures Shortfall(h + [e], s) == Max(Shortfall(h, s), -Net(h + [e], s))
  {
    assert (h + [e])[..|h|] == h;
  }
}
