/** The throttle between progress reports and the job store: which reports are written, and what the written
    values can lag behind. Times are nanoseconds; a state without a time is Go's zero time. */
module ProgressWrites {
  import opened ProgressTracking
  import opened Text

  datatype WriteState = WriteState(lastPersisted: int, lastPersistedAt: Option<int>, maxSeen: int)

  /** The throttle's settings as configured. */
  datatype Settings = Settings(minStep: int, minInterval: int)

  /** A map read: a job without a state reads the zero value. */
  const NO_STATE := WriteState(0, None, 0)

  function EffectiveMinStep(s: Settings): int {
    if s.minStep < 1 then 1 else s.minStep
  }

  function EffectiveMinInterval(s: Settings): int {
    if s.minInterval < 0 then 0 else s.minInterval
  }

  function Started(progress: int, now: int): WriteState {
    WriteState(progress, Some(now), progress)
  }

  /** Finished, far enough ahead, or long enough since the last write. */
  predicate Due(st: WriteState, progress: int, now: int, s: Settings) {
    || progress >= 100
    || progress - st.lastPersisted >= EffectiveMinStep(s)
    || EffectiveMinInterval(s) == 0
    || (st.lastPersistedAt.Some? && now - st.lastPersistedAt.value >= EffectiveMinInterval(s))
  }

  predicate ShouldPersist(st: WriteState, progress: int, now: int, s: Settings) {
    progress > st.maxSeen && Due(st, progress, now, s)
  }

  function Prepared(st: WriteState, progress: int, now: int, s: Settings): WriteState {
    if progress <= st.maxSeen then st
    else if Due(st, progress, now, s) then WriteState(progress, Some(now), progress)
    else st.(maxSeen := progress)
  }

  function Clamp(progress: int): (r: int)
    ensures 0 <= r <= 100
    ensures (r < progress ==> r == 100) && (r > progress ==> r == 0)
  {
    if progress < 0 then 0 else if progress > 100 then 100 else progress
  }

  // --- The specification: the reports of one job since its state was set ---

  datatype Report = Report(progress: int, at: int)

  function StateAfter(init: WriteState, h: seq<Report>, s: Settings): WriteState {
    if h == [] then init
    else Prepared(StateAfter(init, h[..|h| - 1], s), h[|h| - 1].progress, h[|h| - 1].at, s)
  }

  /** The values written, in order. */
  function Persisted(init: WriteState, h: seq<Report>, s: Settings): seq<int> {
    if h == [] then []
    else
      var front, r := h[..|h| - 1], h[|h| - 1];
      if ShouldPersist(StateAfter(init, front, s), r.progress, r.at, s) then Persisted(init, front, s) + [r.progress]
      else Persisted(init, front, s)
  }

  /** The largest of the initial value and all reports. */
  function MaxReport(init: int, h: seq<Report>): int {
    if h == [] then init
    else
      var m := MaxReport(init, h[..|h| - 1]);
      if h[|h| - 1].progress > m then h[|h| - 1].progress else m
  }

  /** The maximum never leads the written value by a step, and never at all when it is finished or unthrottled. */
  ghost predicate Throttled(st: WriteState, s: Settings) {
    && 0 <= st.maxSeen - st.lastPersisted < EffectiveMinStep(s)
    && (st.maxSeen > st.lastPersisted ==> st.maxSeen < 100 && EffectiveMinInterval(s) > 0)
  }

  ghost predicate Increasing(v: seq<int>) {
    forall i, j :: 0 <= i < j < |v| ==> v[i] < v[j]
  }

  /** Over every run of reports: the maximum seen is exact, it never leads the last written value by minStep or
      more, and the written values strictly increase from the initial one. */
  lemma {:induction false} ThrottleKeeps(init: WriteState, h: seq<Report>, s: Settings)
    requires Throttled(init, s)
    ensures var st, written := StateAfter(init, h, s), [init.lastPersisted] + Persisted(init, h, s);
      && Throttled(st, s)
      && st.maxSeen == MaxReport(init.maxSeen, h)
      && Increasing(written)
      && written[|written| - 1] == st.lastPersisted
  {
    if h != [] {
      var front, r := h[..|h| - 1], h[|h| - 1];
      ThrottleKeeps(init, front, s);
      var before := [init.lastPersisted] + Persisted(init, front, s);
      if ShouldPersist(StateAfter(init, front, s), r.progress, r.at, s) {
        AppendIncreasing(before, r.progress);
        assert [init.lastPersisted] + Persisted(init, h, s) == before + [r.progress];
      }
    }
  }

  lemma AppendIncreasing(v: seq<int>, x: int)
    requires Increasing(v) && (v != [] ==> v[|v| - 1] < x)
    ensures Increasing(v + [x])
  {
    forall i | 0 <= i < |v| ensures v[i] < x {
      assert i < |v| - 1 ==> v[i] < v[|v| - 1];
    }
  }

  lemma {:induction false} MaxReportReaches(init: int, h: seq<Report>, i: nat)
    requires i < |h|
    ensures h[i].progress <= MaxReport(init, h)
  {
    if i < |h| - 1 {
      MaxReportReaches(init, h[..|h| - 1], i);
    }
  }

  lemma {:induction false} MaxReportBounded(init: int, h: seq<Report>, bound: int)
    requires init <= bound && forall i :: 0 <= i < |h| ==> h[i].progress <= bound
    ensures init <= MaxReport(init, h) <= bound
  {
    if h != [] {
      MaxReportBounded(init, h[..|h| - 1], bound);
    }
  }

  /** Nothing is held back longer than the interval: a higher report is written once that long has passed since the
      last write, and before that exactly when it finishes, is minStep ahead or nothing is throttled. */
  lemma WrittenInTime(st: WriteState, progress: int, now: int, s: Settings, last: int)
    requires Throttled(st, s) && progress > st.maxSeen && st.lastPersistedAt == Some(last)
    ensures now - last >= s.minInterval ==> Prepared(st, progress, now, s).lastPersisted == progress
    ensures 0 <= now - last < s.minInterval ==>
      (Prepared(st, progress, now, s).lastPersisted == progress <==>
        progress >= 100 || progress >= st.lastPersisted + s.minStep)
  {}

  /** The reports a tracker makes, each at the time it is made. */
  function Timed(percents: seq<int>, at: nat -> int): seq<Report> {
    seq(|percents|, i requires 0 <= i < |percents| => Report(percents[i], at(i)))
  }

  /** Tracker and throttle together: when every planned testcase has finished, whatever the order of entries and
      the times of the reports, the last value written is 100. */
  lemma FinishedIsPersisted(planned: set<string>, h: seq<Entry>, at: nat -> int, initial: int, now: int, s: Settings)
    requires planned != {} && "" !in planned && forall k :: k in planned ==> Finished(h, k)
    requires 0 <= initial <= 100
    ensures StateAfter(Started(initial, now), Timed(Percents(planned, h), at), s).lastPersisted == 100
  {
    var percents := Percents(planned, h);
    var reports := Timed(percents, at);
    FinishedReportsHundred(planned, h);
    PercentsMonotone(planned, h);
    ThrottleKeeps(Started(initial, now), reports, s);
    MaxReportReaches(initial, reports, |percents| - 1);
    MaxReportBounded(initial, reports, 100);
  }

  /** The job record's progress is never lowered, and follows the written value when nothing else writes it. */
  function Saved(job: int, st: WriteState, progress: int, now: int, s: Settings): int {
    if ShouldPersist(st, progress, now, s) && job < progress then progress else job
  }

  lemma SavedFollows(job: int, st: WriteState, progress: int, now: int, s: Settings)
    requires Throttled(st, s)
    ensures job <= Saved(job, st, progress, now, s)
    ensures job == st.lastPersisted ==> Saved(job, st, progress, now, s) == Prepared(st, progress, now, s).lastPersisted
  {}

  class ProgressWrites {
    var progressWrites: map<string, WriteState>
    var jobs: map<string, int>
    const settings: Settings

    function StateOf(jobID: string): WriteState
      reads this
    {
      if jobID in progressWrites then progressWrites[jobID] else NO_STATE
    }

    /** Every job's state keeps its bounds. */
    ghost predicate Valid()
      reads this
    {
      forall id :: id in progressWrites ==> Throttled(progressWrites[id], settings)
    }

    constructor (settings: Settings, jobs: map<string, int>)
      ensures Valid() && progressWrites == map[] && this.settings == settings && this.jobs == jobs
    {
      this.settings := settings;
      this.jobs := jobs;
      progressWrites := map[];
    }

    method InitProgressWriteState(jobID: string, progress: int, now: int)
      requires Valid()
      modifies `progressWrites
      ensures Valid()
      ensures progressWrites == if jobID == "" then old(progressWrites) else old(progressWrites)[jobID := Started(progress, now)]
    {
      if jobID == "" {
        return;
      }
      progressWrites := progressWrites[jobID := WriteState(progress, Some(now), progress)];
    }

    method ClearProgressWriteState(jobID: string)
      requires Valid()
      modifies `progressWrites
      ensures Valid() && progressWrites == if jobID == "" then old(progressWrites) else old(progressWrites) - {jobID}
    {
      if jobID != "" {
        progressWrites := progressWrites - {jobID};
      }
    }

    method PrepareProgressPersist(jobID: string, progress: int, now: int) returns (shouldPersist: bool)
      requires Valid()
      modifies `progressWrites
      ensures Valid()
      ensures shouldPersist <==> jobID != "" && ShouldPersist(old(StateOf(jobID)), progress, now, settings)
      ensures jobID != "" ==> StateOf(jobID) == Prepared(old(StateOf(jobID)), progress, now, settings)
      ensures forall id :: id != jobID || id == "" ==> StateOf(id) == old(StateOf(id))
    {
      if jobID == "" {
        return false;
      }
      var minStep, minInterval := EffectiveMinStep(settings), EffectiveMinInterval(settings);
      var state := StateOf(jobID);
      if progress <= state.maxSeen {
        return false;
      }
      state := state.(maxSeen := progress);
      shouldPersist := false;
      if progress >= 100 {
        shouldPersist := true;
      } else if progress - state.lastPersisted >= minStep {
        shouldPersist := true;
      } else if minInterval == 0 {
        shouldPersist := true;
      } else if state.lastPersistedAt.Some? && now - state.lastPersistedAt.value >= minInterval {
        shouldPersist := true;
      }
      if shouldPersist {
        state := state.(lastPersisted := progress, lastPersistedAt := Some(now));
      }
      progressWrites := progressWrites[jobID := state];
    }

    method UpdateJobProgress(jobID: string, progress: int, now: int)
      requires Valid()
      modifies this
      ensures Valid()
      ensures jobID != "" ==> StateOf(jobID) == Prepared(old(StateOf(jobID)), Clamp(progress), now, settings)
      ensures forall id :: id != jobID || id == "" ==> StateOf(id) == old(StateOf(id))
      ensures jobs == if jobID == "" || jobID !in old(jobs) then old(jobs)
                      else old(jobs)[jobID := Saved(old(jobs)[jobID], old(StateOf(jobID)), Clamp(progress), now, settings)]
    {
      var clamped := progress;
      if progress < 0 {
        clamped := 0;
      } else if progress > 100 {
        clamped := 100;
      }
      var persist := PrepareProgressPersist(jobID, clamped, now);
      if !persist || jobID !in jobs || jobs[jobID] >= clamped {
        return;
      }
      jobs := jobs[jobID := clamped];
    }
  }
}
