# A verified model of the DNS test server's report, queue and metrics core

This project states in Dafny what the server's self-contained algorithms do and proves what they are for. Each `.dfy`
file is one module; `dafny verify dfyconfig.toml` checks them all.

What is modelled:

- **Cohort report and scoring.** `Scoring` is the weighted score with its grade. `Attribution` diffs two tag lists and
  explains a score movement; `ScoreTracking` proves the general law between the explained and the real movement, with
  the clamped and CRITICAL parts measured exactly instead of excluded. `PenaltyRules` reads what a finding costs off the
  configuration's tables. `ReportRows`, `ReportTotals` (with `ReportSpreads` and `Tallies`), `Clusters`, `ClusterReport`,
  `ClusterLabels`, `ClusterSets` and `ClusterFields` are the rows, the totals and transitions, and the clusters down to
  the fields of a view; the cached loosest build filtered to the requested bounds is proved equal to a fresh build.
- **Two-tier blocking queue.** `JobQueue` has the critical sections as methods of a class, `QueueProtocol` the
  interleavings of any number of dequeuers as a state machine with a program counter each, `QueueConservation` what
  happens to every job over a whole run.
- **Metrics.** `TrendRings` (with `Ticks`) is the ring against an unbounded history, `TrendPoints` what each field of a
  point counts in it, `BatchInsights` and `DomainInsights` (with `InsightTables`) the capped tables, `StatusCounters` the
  counters against a map from job to status, `ObservationRuns` what they say when observations arrive late, `Histograms`
  the buckets, quantiles and cumulative samples.
- **Rate limiter.** `RateLimiting` is the sliding window against the full admission history.
- **Smaller stateful pieces.** `ReportCache` and `CacheRuns` (memo cache, keys, concurrent builds and resets),
  `JobPages` (the merged listing), `GzipWriter` and `ResponseHeads` (a response's body and its header), `ProgressTracking`
  and `ProgressWrites`.

`Numbers`, `Sums`, `Sorting`, `Text`, `JobStatuses`, `Severities` and `SnapshotViews` hold shared vocabulary.

Code with state is a class whose methods are proved against a function or relation on values; the theorems over whole
runs are lemmas about that function. Where the code does not do what it is for on all inputs, the exact condition is
proved:

- n dequeuers can lose a wake-up, and come to rest asleep on queued jobs, if and only if n exceeds the 1024 slots of the
  token channel (`NoLostWakeupIff`, `NeverStuckIff`). A configuration file can ask for more workers than that
  (`server/config.go:506-507`).
- `Reorder` keeps the queued jobs if and only if its argument repeats no id; it checks length and membership only
  (`ReorderKeepsTiersIffDistinct`, `ReorderLosesJob`).
- The gzip writer delivers every byte if and only if no first 204 or 304 arrives over buffered bytes
  (`ResponseConservesIff`).
- A scoring-configuration change with its cache reset can give a request that arrives afterwards a stale report if and only
  if it overtakes a request or build in flight whose pair it affects (`ReconfigureMisleadsIff`, `OverlapServesStale`).
- The merged `/jobs` pages are exact if and only if the handler and the run store sort alike (`PagesExactIff`); otherwise a
  page walk can show one run twice and another never. The handler breaks ties by creation, newest first
  (`server/store.go:2139-2142`). The SQL store does not under the domain, batch and severity sorts, which go by finish
  (`server/store_sql.go:1519-1530`; `ListingExactIff`, `SameBatchSkips`), nor under the oldest-start-first sort, which
  goes by creation, oldest first (`server/store_sql.go:1517-1518`; `AscendingExactIff`, `SameStartSkips`). The in-memory
  store breaks every tie by finish (`server/store.go:1327-1330`), and it ranks domains and batch ids as written and
  errors without the CRITICAL count behind them (`server/store.go:1257-1277`; `RankedApartSkips`, `CaseRanksApart`). The comment at
  `server/handlers.go:653-655` counts on the bounded read. Under one order even the first offset + limit runs are enough
  (`BoundedRead`).
- The status counters are exact after every observation if and only if each job's submission is observed first, each
  transition starts from the job's current status and terminal statuses are final (`ExactThroughoutIff`; "only if" for
  jobs in known statuses, as the others are in no count). The handlers
  enqueue a job before they count it (`server/handlers.go:138-139`, `467-468`, `server/handlers_public.go:185-186`), so a
  worker's transition can come first. Observed in any order, the counters end up exact if and only if no status was ever
  seen left by more jobs than had been seen entering it; otherwise it stays overcounted by the shortfall for good
  (`ReorderedExactIff`, `OvercountedBy`, `LateSubmissionGoesStale`).
- A cluster's member list is duplicate-free if and only if no mover's view shows a value under two labels, and then one
  domain can fill a cluster alone (`MembersDistinctIff`, `OneDomainFillsCluster`).
- No two clusters have the same member set, as the comment at `server/analysis_report.go:1027-1028` has it, if and only if
  movers that share two clustered values show both under equally many labels (`SetsApartIff`); otherwise one set of
  domains is reported twice (`SameSetTwice`). One label per value in each mover's view is enough (`SingleLabelsApart`).
- Within one view the last label shown for a value stays (`LabelDomain`). Which label a cluster shows depends on map order
  if and only if two domains leave different ones for a value it names (`ShapesEqualIff`).
- `Allow` panics if and only if the limit is below one (`PanicsIff`). The limit of a configuration file is not checked
  (`server/config.go:647-651`).
- `Compute` panics if and only if an entry's category carries no weight (`Scoring.Compute`). A configuration put at run
  time is not checked (`server/handlers_scoring_config.go:92-108`).
- The trend ring keeps the buckets since the Unix epoch apart if and only if its resolution is whole seconds
  (`SlotsApartIff`), and those before it too if and only if the epoch also starts a bucket (`SlotsAlwaysApartIff`). Both
  rings in use have constant resolutions, one and five minutes (`server/metrics.go:317-318`).

Two preconditions remain. Domain names hold no line break: every name a run is made for passes `NormalizeTarget`
(`server/handlers.go:409-411`), whose labels admit none (`engine/normalization/normalization.go:13`, `55-76`);
`SignatureCollides` shows what one would do. And a tag belongs to one module across two snapshots.

## Model

| member | source | states |
|---|---|---|
| Scoring.Compute | scoring/scoring.go:71-189 | The score is the truncated, clamped weighted mean of the sub-scores over the whole run; every category result, the grade (first band reached, A+ only at 100) and the disabled stacks are those of the run; it panics if and only if some entry's category carries no weight; what an entry costs is `PenaltyRules.OneFinding` and `PenaltyRules.FindingCosts` |
| Scoring.Accumulate | scoring/scoring.go:84-115 | The first loop leaves in every category the sums over the entries, and the three run-wide flags; it panics exactly at an entry whose category carries no weight |
| Scoring.Aggregate | scoring/scoring.go:118-149 | The second loop, in any map order, yields each category result and both weighted totals |
| Scoring.ScoreToGrade | scoring/scoring.go:191-200 | The first band the score reaches names the grade, F when none does |
| Scoring.ScoreIsOrderFree | scoring/scoring.go:88-115 | Any permutation of the entries gives the same score, category results and stacks |
| Scoring.ScoreInRange | scoring/scoring.go:150-159 | The score lies in 0..100 for every configuration |
| Scoring.CriticalScoresZero | scoring/scoring.go:131-164 | A CRITICAL entry makes the score 0 before the cap at 10 is looked at, so that cap never binds |
| Scoring.MeanNeverRises | scoring/scoring.go:84-149 | With non-negative weights and penalties the weighted mean never rises when an entry is added |
| Scoring.ScoreNeverRises | scoring/scoring.go:84-164 | With non-negative weights and penalties one more entry never raises the score |
| Scoring.GradeIsBestBand | scoring/scoring.go:191-200 | With descending bands the grade is the best band reached, and a higher score never gets a worse band |
| PenaltyRules.OverridesShieldScore | scoring/scoring.go:108-112 | Where every tag has an override the severity table does not matter, neither to any outcome nor to the score |
| PenaltyRules.OverridesShieldExplained | server/analysis_report.go:804-808 | Nor does it to the explained delta of moves whose tags all have one |
| PenaltyRules.RaisedLevel | scoring/scoring.go:108-117 | Raising one level's penalty by x costs each category x for every finding at that level without an override |
| PenaltyRules.OneFinding | scoring/scoring.go:88-145 | The outcome of a run of one finding, read off the configuration's tables: the override, else the level's penalty, in its category only; CRITICAL zeroes all |
| PenaltyRules.NothingFound | scoring/scoring.go:118-164 | A run without findings scores 100 |
| PenaltyRules.FindingCosts | scoring/scoring.go:108-154 | While nothing is CRITICAL and the category has points left, one more finding lowers the weighted mean by its cost times its category's share of the weights |
| PenaltyRules.StacksNamed | scoring/scoring.go:89-94 | The disabled stacks are those some entry's tag reports |
| Attribution.IndexDomainViewTags | server/analysis_report.go:764-773 | Rows without a tag are dropped, later rows win per upper-cased tag |
| Attribution.DiffDomainTags | server/analysis_report.go:731-762 | The three lists hold exactly the appeared, cleared and level-changed moves, each once, each sorted by tag |
| Attribution.NetByCategory | server/analysis_report.go:823-838 | Every category nets the penalties of arriving levels less those of leaving levels |
| Attribution.ExplainScoreDelta | server/analysis_report.go:815-843 | The explained delta is the negated half-away rounding of the weighted net penalties, and 0 when the weights sum to 0; what a move counts for is `PenaltyRules.OneMove` |
| Attribution.IndexIsLast | server/analysis_report.go:764-773 | The last row of a tag is the one that counts |
| Attribution.MovesByTag | server/analysis_report.go:757-760 | Each list of moves runs in the order of its tags |
| PenaltyRules.OneMove | server/analysis_report.go:823-842 | One finding that appeared moves the explained score down by its cost times its category's share of the weights, to the nearest point; one that cleared moves it up |
| PenaltyRules.RoundsToNearest | server/analysis_report.go:842 | The rounding is to the nearest integer, halves away from zero |
| ScoreTracking.DiffReads | server/analysis_report.go:731-762 | Read off the two tag lists: appeared are the tags only in the new one, cleared those only in the old one, changed those in both at another level, with the new side's module and testcase unless empty |
| ScoreTracking.MovesListed | server/analysis_report.go:731-762 | The three lists together name every tag that moved exactly once |
| ScoreTracking.MovesAccountForPenalties | server/analysis_report.go:811-839 | Unchanged tags cancel: the moves account for the whole change of each category's penalty sum |
| ScoreTracking.ScoreIsFloor | scoring/scoring.go:147-164 | With non-negative penalties the score is the floor of the weighted mean |
| ScoreTracking.ExplainedTracksScore | server/analysis_report.go:811-843 | For any two findings lists, CRITICAL or over-penalised ones included, the real score movement minus the explained one is within 1.5 of the movement of what clamping forgives and CRITICAL costs |
| ScoreTracking.ExplainedWithinOnePoint | server/analysis_report.go:811-843 | Without CRITICAL entries and with every category's penalties at most 100, explanation and computed movement differ by at most one point |
| ReportRows.BuildRow | server/analysis_report.go:564-609 | A row carries the score and grade movement of its domain, the explained delta and the remainder |
| ReportRows.BuildReportDomains | server/analysis_report.go:564-609 | Exactly one row per shared domain whose score or grade moved, worst falls first |
| ReportRows.RowsListed | server/analysis_report.go:564-609 | A row shows both scores and grades in order of time with their difference; rows run from the worst fall to the best rise, then by name |
| ReportRows.ListedIff | server/analysis_report.go:564-609 | The domains listed are those on both sides whose score or grade differs, and explained and unexplained parts add up to the delta |
| ReportRows.ExplainedListed | server/analysis_report.go:815-843 | The explained delta does not depend on the order moves are listed in |
| ReportRows.UnexplainedIsRounding | server/analysis_report.go:564-609 | Between two computed scores nothing but one point of rounding is left unexplained |
| ReportTotals.BuildReportTotals | server/analysis_report.go:847-899 | Every total is the size of the set of domains it names; grade counts, mean scores and category counts are those of both sides and of the movers |
| ReportTotals.CountMembership | server/analysis_report.go:856-880 | Shared, added and removed domains are counted exactly |
| ReportTotals.TotalsPartition | server/analysis_report.go:847-899 | To = Both + Added, From = Both + Removed, and Both splits into improved, regressed, identical, zero-delta and one-sided scores |
| ReportSpreads.GradeCounts | server/analysis_report.go:901-913 | Each grade with the number of domains that have it, ungraded domains left out |
| ReportSpreads.MeanScore | server/analysis_report.go:915-929 | The mean of the scores there are, rounded to two decimals, and none without scores |
| ReportSpreads.MeanWithin | server/analysis_report.go:927 | The mean shown is within half a hundredth of the mean |
| ReportSpreads.CategoryCounts | server/analysis_report.go:873-874 | Each category with the number of mover rows in it |
| ReportSpreads.SpreadsSum | server/analysis_report.go:873-913 | The counts add up to the graded domains and to the movers |
| ReportTotals.BuildReportTransitions | server/analysis_report.go:636-673 | Both tables count the transition of every shared domain, whatever categories the mover rows already gave |
| ReportTotals.TransitionRows | server/analysis_report.go:675-692 | Rows have distinct keys and are strictly sorted |
| ReportTotals.GradeRowCounts | server/analysis_report.go:636-692 | The count of a grade transition is the number of shared domains that made it, in the category of those that moved |
| ReportTotals.LevelRowCounts | server/analysis_report.go:636-692 | The same for the worst levels, each shown as itself or as OK |
| ReportTotals.TableByMove | server/analysis_report.go:680-690 | A table runs by what moved from, then by what it moved to, then by category |
| ReportTotals.TransitionsSumToBoth | server/analysis_report.go:636-692 | Each table sums to the number of shared domains |
| Clusters.ReportDimensionValues | server/analysis_report.go:955-985 | The dimension values of a view are its candidates, non-empty values only, each (dimension, value, label) once; the candidates are those of `ClusterFields.CandidatesExact` |
| ClusterFields.CandidatesExact | server/analysis_report.go:969-983 | The candidates are exactly what the view's own fields show: each nameserver, ASN with its label, prefix, posture, weakest algorithm with its label, and software version |
| ClusterFields.CarriedIff | server/analysis_report.go:955-985 | In each of the six dimensions a view carries a value if and only if it is not blank and the view's fields show it, under exactly the labels they show |
| Clusters.CountDimensions | server/analysis_report.go:997-1007 | Totals count how often the domains carry every key; the labels are those of reading the domains, each once, in some order |
| Clusters.LabelDomain | server/analysis_report.go:1000-1006 | Every key has the last label the domain shows for it that is not empty, or else the label it had |
| Clusters.LastLabelExact | server/analysis_report.go:1003-1005 | That label is shown and no other label for the key follows it in the view |
| Clusters.GroupMovers | server/analysis_report.go:1009-1025 | Deltas and members are those of the rows that moved and exist on the newer side |
| Clusters.DeduplicatedExact | server/analysis_report.go:955-985 | Deduplication keeps exactly the candidates with a value, each once |
| ClusterReport.Extremes | server/analysis_report.go:1035-1047 | The scan decides whether a group moved one way and finds its true extremes |
| ClusterReport.ExtremesExact | server/analysis_report.go:1035-1047 | The extremes bound every member's delta and are attained |
| ClusterReport.CollapseGroups | server/analysis_report.go:1027-1072 | One cluster per kept member list, naming each value that produced it once |
| ClusterReport.FinishClusters | server/analysis_report.go:1074-1094 | The finished list holds exactly the collapsed clusters, dimensions in order, clusters sorted |
| ClusterReport.BuildReportClusters | server/analysis_report.go:990-1095 | The clusters built at any bounds are exactly the specified shapes of the groups, each view's values being those of `ClusterFields.CarriedIff` |
| ClusterFields.SharedNameserverListed | server/analysis_report.go:990-1095 | Movers that share a nameserver, moved the same way within the spread and are numerous enough are a listed cluster naming it, without a label and next to the number of all domains listing it |
| ClusterSets.ClustersListed | server/analysis_report.go:1084-1093 | Clusters run from the largest down, then the tightest first, then by first member |
| ClusterSets.DimensionsListed | server/analysis_report.go:1076-1081 | A cluster's dimensions run by name, then by value |
| ClusterReport.WithClusterBounds | server/analysis_report.go:443-453 | Filtering keeps exactly the clusters within the bounds, in order |
| ClusterReport.FilterLooseEqualsFresh | server/analysis_report.go:442-453 | The clusters at (1, 100) filtered to (k, s) are the clusters at (k, s), for every k and every s up to 100 |
| ClusterReport.FilteredList | server/analysis_report.go:442-453 | The filtered list is a cluster list of the requested bounds |
| ClusterReport.ReportClusters | server/handlers_public_analysis_report.go:188-203 | The handler's cached loosest build, filtered, lists what a build at the requested bounds would |
| ClusterReport.ClusterExact | server/analysis_report.go:1009-1069 | Every member of an improved cluster rose and every member of a regressed one fell, MinDelta and MaxDelta are attained extremes, the spread is within bounds and Size counts the members |
| ClusterReport.GroupInOneCluster | server/analysis_report.go:1027-1072 | A (dimension, value) is named by exactly one cluster if its group qualifies, by none otherwise |
| ClusterReport.ClusterWithinTotal | server/analysis_report.go:1051-1056 | TotalDomains is never below the size of a cluster naming the value |
| ClusterReport.SignatureFaithful | server/analysis_report.go:1057-1061 | Without line breaks in names, equal signatures mean equal member lists |
| ClusterReport.SignatureCollides | server/analysis_report.go:1057-1061 | With a line break in a name two different member lists share a signature |
| ClusterLabels.CarriesTwiceIff | server/analysis_report.go:955-985 | A domain carries a value twice exactly when its view shows it under two labels |
| ClusterLabels.MembersDistinctIff | server/analysis_report.go:955-1025 | A member list names each domain once if and only if no mover's view shows the value under two labels |
| ClusterLabels.TwoNamesForOneASN | server/analysis_report.go:972-976 | Two addresses in one autonomous system with different labels show such a value |
| ClusterLabels.OneDomainFillsCluster | server/analysis_report.go:1016-1067 | One mover with such a value is by itself a cluster of size two or more |
| ClusterLabels.ShapesUpToLabels | server/analysis_report.go:990-1095 | Two builds of one report have the same clusters up to labels, whatever order the maps are read in |
| ClusterLabels.ReadLast | server/analysis_report.go:997-1007 | Any label some domain leaves for a value is the one some build shows |
| ClusterLabels.ShapesEqualIff | server/analysis_report.go:997-1056 | All builds at given bounds have the same clusters, labels included, if and only if no two domains leave different last labels for a value a cluster names |
| ClusterSets.CarriesCounts | server/analysis_report.go:955-985 | A view carries a value once per label it shows it under |
| ClusterSets.SetsApartIff | server/analysis_report.go:1027-1072 | No two clusters of a list have the same member set if and only if movers that share two clustered values show both under equally many labels |
| ClusterSets.SingleLabelsApart | server/analysis_report.go:1027-1072 | One label per value in each mover's view is enough for that |
| ClusterSets.OneMoverTwoClusters | server/analysis_report.go:1016-1069 | A mover alone that shows two values under different numbers of labels fills one cluster for each |
| ClusterSets.SameSetTwice | server/analysis_report.go:972-977 | Two differently named addresses of one prefix in one autonomous system: the same domain twice and once, as two clusters |
| JobQueue.InMemoryQueue.constructor | server/queue.go:33-38 | A new queue is empty, open, running, with no waiter and no token |
| JobQueue.InMemoryQueue.Enqueue | server/queue.go:41-56 | The id joins the tail of its tier and one token is offered unless paused; a closed queue refuses |
| JobQueue.InMemoryQueue.TryDequeue | server/queue.go:60-83 | The critical section of Dequeue: closed, the head of the normal tier, else of the batch tier, else one more waiter |
| JobQueue.InMemoryQueue.LeaveSelect | server/queue.go:85-105 | Each arm of the select takes its waiter back |
| JobQueue.InMemoryQueue.Remove | server/queue.go:110-132 | The first occurrence goes, normal tier first; the three refusals change nothing |
| JobQueue.InMemoryQueue.Pause | server/queue.go:135-143 | Pausing changes only the flag of an open queue |
| JobQueue.InMemoryQueue.Resume | server/queue.go:146-155 | Resuming offers a token per waiter and job, as far as the channel holds them |
| JobQueue.InMemoryQueue.Reorder | server/queue.go:158-201 | After an accepted order the normal tier followed by the batch tier is that order; every refusal changes nothing |
| JobQueue.ReorderGivesOrder | server/queue.go:187-196 | After an accepted reorder the normal tier followed by the batch tier is the order asked for |
| JobQueue.RefusedOrder | server/queue.go:173-185 | An order is refused for an id that is not queued exactly when all before it are in place |
| JobQueue.RemoveTakes | server/queue.go:110-132 | A queued id of either tier can be removed and leaves its tier once; any other is not found |
| JobQueue.PausedThenResumed | server/queue.go:135-155 | A paused queue hands out nothing and offers no token; resumed, it is not paused, has its jobs, and offers tokens to no more than its waiters |
| JobQueue.InMemoryQueue.Close | server/queue.go:204-213 | Closing sets the flag once |
| JobQueue.ClosedKeeps | server/queue.go:41-205 | A closed queue keeps its jobs, refuses everything and tells every dequeuer |
| JobQueue.AcceptedOrder | server/queue.go:176-191 | The scan accepts an order exactly when it names queued ids only and never a normal one after a batch one |
| JobQueue.TierPartition | server/queue.go:163-195 | Splitting an order by tier loses and invents no id |
| JobQueue.ReorderKeepsTiersIffDistinct | server/queue.go:158-201 | An accepted Reorder keeps both tiers' contents exactly when its argument repeats no id, which the code does not check |
| JobQueue.ReorderLosesJob | server/queue.go:158-201 | With two jobs queued, an order naming one of them twice is accepted and the other is gone |
| QueueProtocol.WakeupsKept | server/queue.go:41-107 | Every step of every run keeps the waiter count, the channel bound and, up to 1024 dequeuers, the wake-up invariant |
| QueueProtocol.WaitersExact | server/queue.go:80-105 | The waiter count is exact in every reachable state and the guards on its decrements never bite |
| QueueProtocol.NoLostWakeupIff | server/queue.go:33-107 | n dequeuers never lose a wake-up if and only if n is at most the 1024 slots of the channel |
| QueueProtocol.Flooded | server/queue.go:215-222 | n blocked dequeuers and j arrivals reach a state with only min(j, 1024) tokens |
| QueueProtocol.ServeInTurn | server/queue.go:59-107 | From there 1024 dequeuers can be served one after the other, which empties the channel |
| QueueProtocol.NeverStuckIff | server/queue.go:33-107 | n dequeuers never come to rest with a job queued and one of them asleep, nor with one asleep on a closed queue, if and only if n is at most 1024 |
| QueueConservation.StepKeeps | server/queue.go:41-201 | Every step keeps conservation and the order of both tiers |
| QueueConservation.QueueConserves | server/queue.go:41-201 | Over every interleaving with fresh ids: enqueued = delivered + removed + queued, no id delivered twice, both tiers first in first out between reorders |
| QueueConservation.NormalFirst | server/queue.go:66-79 | A batch job is delivered only when no normal job is queued, and always from the head of its tier |
| QueueConservation.DeliveredAsOrdered | server/queue.go:187-196 | After an accepted reorder, until a job arrives, is removed or is moved again, deliveries followed by the queue are the order asked for, over every interleaving |
| RateLimiting.RateLimiter.constructor | server/ratelimit.go:25-33 | A new limiter has admitted nothing |
| RateLimiting.RateLimiter.Compact | server/ratelimit.go:45-53 | The in-place compaction keeps exactly the times still in the window, in order |
| RateLimiting.RateLimiter.Allow | server/ratelimit.go:36-64 | The answer is that of the full admission history, whatever was forgotten in between; an admission is recorded, a refusal is not; it panics if and only if the limit is below one |
| RateLimiting.PanicsIff | server/ratelimit.go:55-58 | A refusal indexes an empty list exactly when the limit is below one |
| RateLimiting.RateLimiter.Cleanup | server/ratelimit.go:72-92 | The keys left are exactly those with an admission still in the window, and the history every later answer follows is unchanged |
| RateLimiting.RateLimiter.DropInactive | server/ratelimit.go:79-91 | The deletion loop leaves exactly the keys with a live time |
| RateLimiting.RateLimiter.Keys | server/ratelimit.go:67-71 | The count covers every key with an admission still in the window |
| RateLimiting.AdmitKeepsBound | server/ratelimit.go:36-64 | An admission keeps every half-open window of the configured length at max admissions or fewer |
| RateLimiting.WindowCounts | server/ratelimit.go:41-49 | A window counts the admissions after its start up to its end |
| RateLimiting.LiveExact | server/ratelimit.go:41-49 | The times kept are exactly those after the cutoff, as often as they occur |
| RateLimiting.CleanupKeeps | server/ratelimit.go:72-92 | Forgetting keys keeps the agreement of the stored lists with the history |
| RateLimiting.FreedExactly | server/ratelimit.go:54-61 | After a refusal and no further admission a slot is free exactly when the oldest live admission has left the window |
| RateLimiting.RetryAfterHonest | server/ratelimit.go:54-61 | Waiting retryAfter seconds suffices (section 10.2.3 of RFC 9110), and one full second less never does |
| Histograms.BoundedHistogram.constructor | server/metrics.go:915-923 | One zero count per bound and one for overflow |
| Histograms.BoundedHistogram.Observe | server/metrics.go:925-940 | Every count stays the number of samples in its bucket; a negative duration counts as zero |
| Histograms.BoundedHistogram.CountTotal | server/metrics.go:947-950 | The counts sum to the number of samples |
| Histograms.BoundedHistogram.Quantile | server/metrics.go:943-967 | The result is the bound of the bucket holding the ceil(q*n)-th smallest sample, the last bound on overflow or past the end |
| Histograms.BoundedHistogram.Scan | server/metrics.go:956-966 | The running count finds that bucket |
| Histograms.BoundedHistogram.CumulativeBuckets | server/metrics_prometheus.go:321-339 | Each emitted bucket counts the samples up to its bound |
| Histograms.RankInBucket | server/metrics.go:956-966 | The rank-th smallest sample lies in a bucket exactly when the running count reaches the rank there |
| Histograms.RankIsLeast | server/metrics.go:954 | The rank asked for is the least one that reaches q of the samples, and at least one |
| Histograms.QuantileIsLeast | server/metrics.go:943-967 | With ascending bounds a quantile reads the least bound that at least q of the samples do not exceed, the last bound when none is |
| Histograms.QuantileMonotone | server/metrics.go:943-967 | With ascending bounds a higher quantile never reads lower |
| Histograms.CumulativeShape | server/metrics_prometheus.go:325-339 | The cumulative buckets never decrease and end at the sample count |
| TrendRings.TrendRing.constructor | server/metrics_trends.go:85-100 | The ring covers the requested window in the fewest whole buckets of the resolution, one minute when none is given; it agrees with the empty history whenever the resolution is whole seconds |
| TrendRings.TrendRing.BucketForWrite | server/metrics_trends.go:336-350 | The slot of the time's bucket is returned, reset if it held another bucket, and no other slot changes |
| TrendRings.TrendRing.BucketForRead | server/metrics_trends.go:352-366 | Since 1970 and within a ring length of the last write the bucket read is the asked one and holds all its observations, and no bucket means none was made |
| TrendRings.TrendRing.ObserveQueueDepth | server/metrics_trends.go:162-170 | The observation joins the history the ring stands for |
| TrendRings.TrendRing.ObserveDNSQueries | server/metrics_trends.go:172-191 | The observation joins the history; negative counts read zero and empty observations touch no bucket |
| TrendRings.TrendRing.ObserveCacheMetrics | server/metrics_trends.go:193-214 | The observation joins the history; negative counts read zero and empty observations touch no bucket |
| TrendRings.TrendRing.ObserveOutcome | server/metrics_trends.go:216-229 | The observation joins the history; only terminal outcomes count |
| TrendRings.TrendRing.ObserveSeverity | server/metrics_trends.go:231-246 | The observation joins the history; missing totals touch no bucket |
| TrendRings.TrendRing.PointCount | server/metrics_trends.go:272-281 | A window asks for its whole buckets, at least one and at most the ring holds |
| TrendRings.TrendRing.Snapshot | server/metrics_trends.go:268-334 | There is one point per bucket asked for, up to the current one, and, since 1970, every point is what the unbounded history says: sums of its bucket's observations and the last queue depth seen in the window so far; the fields are those of `TrendPoints.PointCounts`, `PointRates` and `PointDepth` |
| TrendPoints.PointCounts | server/metrics_trends.go:297-315 | Of a point's bucket in the history: throughput counts the terminal outcomes, failed the failed ones, each severity level adds up the totals given |
| TrendPoints.PointRates | server/metrics_trends.go:300-309 | Each DNS rate times the bucket's seconds is the sum of its non-negative counts; the hit rate times the lookups is the hits, zero without lookups |
| TrendPoints.PointDepth | server/metrics_trends.go:318-327 | A point's depth is the last one observed from the first bucket shown to its own, zero before any |
| TrendPoints.PointsFill | server/metrics_trends.go:272-281 | A window between one bucket and the whole ring is shown by as many points as fit it |
| TrendRings.WriteKeeps | server/metrics_trends.go:336-350 | Reusing a slot for the newest bucket keeps every bucket of the last ring length in agreement with the history |
| TrendRings.DropKeeps | server/metrics_trends.go:172-246 | Observations the ring ignores change no bucket's sums |
| TrendRings.DepthCarries | server/metrics_trends.go:300-330 | In time order the carried queue depth is the bucket's own or the last one before it |
| Ticks.SlotsDiffer | server/metrics_trends.go:368-383 | At a resolution of whole seconds two different buckets since 1970 less than a ring length apart never share a slot |
| Ticks.SlotsApartIff | server/metrics_trends.go:368-383 | A resolution keeps the buckets of a ring since 1970 in different slots, for every ring size, if and only if it is whole seconds |
| Ticks.SlotsAlwaysApartIff | server/metrics_trends.go:368-383 | It does so for buckets at any time if and only if it is whole seconds and the Unix epoch starts a bucket |
| Ticks.PartSecondsCollide | server/metrics_trends.go:372-377 | A resolution that is not whole seconds makes two buckets of some ring share a slot |
| Ticks.AroundEpochCollide | server/metrics_trends.go:376-381 | A resolution of whole seconds that the epoch does not start makes the two buckets around the epoch share one |
| Ticks.TruncateIsFloor | server/metrics_trends.go:336-383 | A truncated time is the last bucket start not after it |
| InsightTables.OldestKey | server/metrics_insights.go:146-156 | The scan in arbitrary order finds a record no other is older than |
| InsightTables.EvictionKeeps | server/metrics_insights.go:146-182 | Evicting folds one record into "other": no count is lost and one place is free |
| InsightTables.OpeningKeeps | server/metrics_insights.go:114-144 | Finding or making a record keeps every count and never exceeds a positive cap |
| BatchInsights.BatchTable.constructor | server/metrics.go:305-317 | A new table is empty and "other" holds nothing |
| BatchInsights.BatchTable.EvictOldest | server/metrics_insights.go:146-163 | One of the oldest records is merged into "other" and deleted |
| BatchInsights.BatchTable.GetOrCreate | server/metrics_insights.go:114-128 | The record found, the "other" record without a cap, or a new one after at most one eviction |
| BatchInsights.BatchTable.ObserveSubmission | server/metrics_insights.go:75-83 | A non-blank batch grows by one and is dated; all totals still equal everything observed |
| BatchInsights.BatchTable.ObserveCompletion | server/metrics_insights.go:85-95 | A non-blank terminal completion is counted once with its outcome and severities; all totals still equal everything observed |
| BatchInsights.MergeIsAdditive | server/metrics_insights.go:268-284 | Every number of a merged record is the sum of both |
| BatchInsights.ObservationConserves | server/metrics_insights.go:75-163 | Live records plus "other" equal all observed submissions, completions, outcomes and severities, whatever is evicted |
| BatchInsights.ObservationDates | server/metrics_insights.go:75-128 | A live record carries the time of its batch's last counted observation |
| BatchInsights.LongestAgoGoes | server/metrics_insights.go:146-163 | Room is made by the batch observed the longest ago; "other" keeps its name and time |
| DomainInsights.DomainTable.constructor | server/metrics.go:306-316 | A new table is empty and "other" holds nothing |
| DomainInsights.DomainTable.EvictOldest | server/metrics_insights.go:165-182 | One of the oldest records is merged into "other" and deleted |
| DomainInsights.DomainTable.GetOrCreate | server/metrics_insights.go:130-144 | The record found, the "other" record without a cap, or a new one after at most one eviction |
| DomainInsights.DomainTable.ObserveCompletion | server/metrics_insights.go:97-112 | A non-blank terminal completion is counted once with duration and severities; all totals still equal everything observed |
| DomainInsights.MergeIsAdditive | server/metrics_insights.go:286-298 | Every number of a merged record is the sum of both |
| DomainInsights.CompletionConserves | server/metrics_insights.go:97-182 | Live records plus "other" equal all observed runs, durations and severities, whatever is evicted |
| DomainInsights.CompletionDates | server/metrics_insights.go:97-144 | A live record carries the time and status of its domain's last counted completion |
| DomainInsights.LongestAgoGoes | server/metrics_insights.go:165-182 | Room is made by the domain whose last run is the longest ago; "other" then shows that run's status |
| DomainInsights.DurationsAddUp | server/metrics_insights.go:97-144 | The durations of the table add up to those of all ended runs of named domains, in whole milliseconds |
| DomainInsights.SameDomain | server/metrics_insights.go:379-382 | Case and surrounding white space do not tell domains apart |
| StatusCounters.StatusCounters.constructor | server/metrics.go:293-300 | All counters start at zero |
| StatusCounters.StatusCounters.ObserveJobSubmitted | server/metrics.go:419-423 | One more submission, and the move from no status to the initial one |
| StatusCounters.StatusCounters.ObserveStatusTransition | server/metrics.go:619-667 | The full new state of counts, gauges and totals |
| StatusCounters.StatusCounters.MoveCounts | server/metrics.go:628-636 | Known statuses lose and gain one, never below zero |
| StatusCounters.StatusCounters.MoveGauges | server/metrics.go:638-653 | Started total, in-flight and queue-depth gauges follow the transition |
| StatusCounters.StatusCounters.Complete | server/metrics.go:655-666 | Completed and per-outcome totals grow |
| StatusCounters.GuardsNeverBite | server/metrics.go:628-653 | While counters tell the truth, every guarded decrement starts above zero |
| StatusCounters.TransitionRefinesIff | server/metrics.go:619-667 | A transition from the job's current status keeps the counters exact if and only if that status is not terminal or does not change |
| StatusCounters.RetryGoesStale | server/metrics.go:655-666 | A failed job moved back to queued is still counted as completed and failed while no job is terminal |
| StatusCounters.SubmissionRefines | server/metrics.go:419-423 | A submission of a new job keeps the counters exact, whatever its initial status |
| StatusCounters.ExpiredTotalExact | server/metrics_prometheus.go:80 | The derived expired total is the number of expired jobs and its max never bites |
| StatusCounters.SubmittedIsSum | server/metrics.go:419-436 | Submissions equal the sum of all status counts plus the jobs in no known status |
| StatusCounters.RunRefines | server/metrics.go:619-667 | Over every run of submissions of new ids and transitions from the job's current status, with final terminal statuses, all counters are exact |
| ObservationRuns.ExactThroughoutIff | server/metrics.go:419-436 | The counters are exact after every observation of a run if ids are new, transitions start from the job's current status and terminal statuses are final, and only if, when the jobs enter known statuses |
| ObservationRuns.GuardedCount | server/metrics.go:628-636 | After any observations a status count is arrivals less departures plus the greatest shortfall of arrivals so far |
| ObservationRuns.OvercountedBy | server/metrics.go:628-653 | Observed in any other order than things happened, a status is overcounted by its shortfall, for good |
| ObservationRuns.ReorderedExactIff | server/metrics.go:619-667 | Observed in any other order, all counters end up exact if and only if no status was ever seen left by more jobs than had been seen entering it |
| ObservationRuns.StartsAreSum | server/metrics.go:638-641 | The started total counts every observed move into the running status |
| ObservationRuns.LateSubmissionGoesStale | server/handlers.go:138-139 | A worker takes up the only queued job before its submission is counted: the finished job stays counted as queued |
| ReportCache.AnalysisCache.constructor | server/handlers_public_analysis_report.go:36-38 | A new cache is empty |
| ReportCache.AnalysisCache.Put | server/handlers_public_analysis_report.go:51-62 | The value is stored and the front of the order is dropped while it exceeds the cap |
| ReportCache.AnalysisCache.Reset | server/handlers_public_analysis_report.go:64-74 | Everything is dropped |
| ReportCache.AnalysisCache.Compute | server/handlers_public_analysis_report.go:76-91 | A hit changes nothing; a miss answers with the build and stores it |
| ReportCache.StoredKeeps | server/handlers_public_analysis_report.go:51-62 | The order list stays duplicate-free with exactly the map's keys, within the cap |
| ReportCache.StoredContents | server/handlers_public_analysis_report.go:51-62 | The stored value is found, others are untouched, and only the longest-held key goes, only for a new key in a full cache |
| ReportCache.StoredOrder | server/handlers_public_analysis_report.go:51-62 | A new key goes behind the others, which keep their order |
| ReportCache.StoringAgrees | server/handlers_public_analysis_report.go:76-91 | A memo of a fixed build keeps agreeing with it |
| ReportCache.SnapshotKeyInjective | server/analysis_view_cache.go:32-35 | A key determines the snapshot's id and update time |
| ReportCache.SnapshotPairKeyInjective | server/handlers_public_analysis_report.go:93-97 | A pair key determines both snapshots' ids and update times |
| ReportCache.CachedViews | server/analysis_view_cache.go:37-54 | Rows are read once per version, and an empty read is not kept |
| CacheRuns.QuietStep | server/handlers_public_analysis_report.go:76-91 | While the configuration stands, every step keeps the cache right and every answer is what a build would return now |
| CacheRuns.RunAnswersFresh | server/handlers_public_analysis_report.go:76-91 | From an empty cache, over every run whose changes meet no request in flight, hits, joins and builds all answer for the current configuration |
| CacheRuns.RunKeepsQuiet | server/handlers_public_analysis_report.go:44-91 | Every such run keeps everything cached, read or being built in agreement with the current configuration |
| CacheRuns.ReconfigureMisleadsIff | server/handlers_scoring_config.go:103-110 | A configuration change with its reset can give a request that arrives after it a stale answer if and only if it overtakes a request or build in flight whose key the two configurations build differently |
| CacheRuns.ReconfigureInFlightIff | server/handlers_scoring_config.go:103-110 | When the change affects every key in flight: if and only if anything is in flight |
| CacheRuns.OverlapServesStale | server/handlers_public_analysis_report.go:64-91 | A reset inside a build does not help: the late store is served to requests arriving after the change |
| JobPages.ListJobs | server/handlers.go:631-710 | The page is cut from all in-flight jobs merged with the first offset + limit + in-flight runs, with total and both cursors |
| JobPages.AppendRuns | server/handlers.go:664-686 | The runs read follow the in-flight jobs |
| JobPages.CutPage | server/handlers.go:691-708 | The page holds items offset..offset+limit as far as they exist |
| JobPages.BoundedRead | server/handlers.go:652-688 | Under one order the first n places of the merge need only the first n runs |
| JobPages.PageExact | server/handlers.go:652-708 | Under one order the page and its cursors are those of the fully merged list |
| JobPages.WalkVisitsAll | server/handlers.go:690-708 | Following NextCursor from 0 meets every item exactly once, in order |
| JobPages.PrevUndoesNext | server/handlers.go:702-708 | A page with a next page is full and PrevCursor leads back to it |
| JobPages.TotalExactIff | server/handlers.go:627-690 | The total counts every job if and only if the in-flight jobs fit under the cap of 10000 |
| JobPages.PagesExactIff | server/handlers.go:652-708 | Pages are exact for all inputs if and only if the handler and the run store sort alike |
| JobPages.ByIsTotal | server/store.go:2074-2143 | A sort by its fields, a tie-break and the id is a total order on jobs |
| JobPages.ListedByRank | server/store.go:2074-2143 | A listing runs from the highest rank down, then from the highest tie-break down, then by id |
| JobPages.ListingExactIff | server/store_sql.go:1513-1530 | When both sides rank by the same field, pages are exact if and only if, among ties, what the handler puts first the store puts first too, or ids settle it alike |
| JobPages.SkippedRun | server/handlers.go:652-708 | Two runs the orders disagree on: one is shown twice and the other never |
| JobPages.SameBatchSkips | server/store_sql.go:1523-1526 | Two jobs of one batch that finish in the other order than they were created: both pages of one show the same job |
| JobPages.AscendingExactIff | server/store_sql.go:1517-1518 | Under the oldest-start-first sort pages are exact if and only if no two jobs that started together were created at different times |
| JobPages.SameStartSkips | server/store_sql.go:1517-1518 | Two jobs that started together and were created apart: both pages of one show the same job under the oldest-start-first sort |
| JobPages.RankedApartSkips | server/store.go:1257-1330 | Two jobs the handler and a store rank apart, by field or by tie-break: the walk in pages of one has two pages and both show the store's first job |
| JobPages.CaseRanksApart | server/store.go:1257-1270 | Jobs of batches "B" and "a", ranked as written by the store and in lower case by the handler: both pages of one show the first |
| GzipWriter.GzipResponseWriter.constructor | server/gzip.go:40 | A fresh writer has sent nothing |
| GzipWriter.GzipResponseWriter.WriteHeader | server/gzip.go:90-101 | The first status is kept; 204 and 304 are sent at once, uncompressed |
| GzipWriter.GzipResponseWriter.Write | server/gzip.go:103-117 | Bytes are buffered until 256 are pending, then go to the compressor or the wire |
| GzipWriter.GzipResponseWriter.Decide | server/gzip.go:119-147 | The decision: the status set before or 200 goes out with the headers, then the pending bytes |
| GzipWriter.GzipResponseWriter.Flush | server/gzip.go:161-172 | The decision is forced and the compressor emptied |
| GzipWriter.GzipResponseWriter.Close | server/gzip.go:149-159 | The decision is forced, the compressor emptied and given back |
| GzipWriter.DecideConserves | server/gzip.go:119-147 | Deciding sends one header and loses no pending byte |
| GzipWriter.WriteConserves | server/gzip.go:103-117 | Writing adds exactly its bytes to what will arrive |
| GzipWriter.WriteHeaderConserves | server/gzip.go:90-101 | A header call drops the pending bytes exactly when it is a first 204 or 304 before the decision |
| GzipWriter.DecisionIsFinal | server/gzip.go:90-172 | Once taken the decision never changes, and nothing but body follows the header |
| GzipWriter.RunConserves | server/gzip.go:90-172 | Every sequence of calls keeps written = lost + wire + compressor + buffer |
| GzipWriter.LostIff | server/gzip.go:90-101 | Bytes are lost exactly when some call meets the guard of the 204/304 branch over pending bytes |
| GzipWriter.ResponseConservesIff | server/gzip.go:90-172 | After Close: one header before any byte, one Vary line, gzip headers when compressed, and the decoded body is everything written if and only if no call dropped pending bytes |
| GzipWriter.BufferedThenNotModified | server/gzip.go:90-101 | A short response followed by a 304 arrives empty |
| ResponseHeads.StatusOnWire | server/gzip.go:90-141 | The status on the wire is that of the first header call with a code, if it comes before any flush and before 256 bytes are written, and 200 otherwise |
| ResponseHeads.HeadAtOnceIff | server/gzip.go:90-101 | A first header call goes out at once for 204 and 304 only |
| ResponseHeads.OwnEncodingKept | server/gzip.go:122-133 | A response the handler encodes itself is passed on uncompressed with its own Content-Encoding |
| ResponseHeads.CompressedIff | server/gzip.go:119-147 | A plain response written at once is compressed if and only if it has 256 bytes and a type that compresses; the type is passed on, the length only uncompressed |
| ResponseHeads.CompressibleIff | server/gzip.go:13-20 | A type in lower case compresses if and only if it begins like a listed one and is no event stream |
| ResponseHeads.CompressibleType | server/gzip.go:58-73 | Parameters, case and surrounding white space of a type do not matter |
| ProgressTracking.ProgressTracker.constructor | server/progress.go:22-45 | A new tracker has seen nothing |
| ProgressTracking.ProgressTracker.Callback | server/progress.go:48-70 | A planned testcase's entry changes the tracker and reports one more than the completed count, or reports nothing |
| ProgressTracking.ProgressTracker.OnStart | server/progress.go:72-81 | A first start is recorded and reported |
| ProgressTracking.ProgressTracker.OnEnd | server/progress.go:83-96 | A first end completes the testcase, started or not |
| ProgressTracking.ProgressTracker.OnNonMarker | server/progress.go:98-109 | A first entry that is no marker completes the testcase |
| ProgressTracking.TrackerExact | server/progress.go:72-109 | For every order of entries: completed sets within started within planned, the counter is the set's size, and both sets are what the entries say |
| ProgressTracking.ClampsNeverBite | server/progress.go:79-108 | A reporting entry's testcase is still open, so no min clamp bites |
| ProgressTracking.PercentsMonotone | server/progress.go:111-114 | Reported percentages never decrease and stay within 0..100 |
| ProgressTracking.ReportExact | server/progress.go:72-114 | A report counts its own testcase with those finished before it, in whole percent of the planned ones |
| ProgressTracking.SameTestcase | server/progress.go:48-70 | Case and surrounding white space do not tell testcases apart |
| ProgressTracking.FinishedReportsHundred | server/progress.go:83-114 | When every planned testcase has finished the last report was 100 |
| ProgressWrites.ProgressWrites.constructor | server/progress_write.go:10-14 | No job has a write state |
| ProgressWrites.ProgressWrites.InitProgressWriteState | server/progress_write.go:30-44 | The state starts at the given progress, for that job only |
| ProgressWrites.ProgressWrites.ClearProgressWriteState | server/progress_write.go:46-53 | The state goes, for that job only |
| ProgressWrites.ProgressWrites.PrepareProgressPersist | server/progress_write.go:55-92 | A report is written exactly when it passes the maximum and is finished, a step ahead, unthrottled or late enough; other jobs are untouched |
| ProgressWrites.ProgressWrites.UpdateJobProgress | server/worker.go:532-552 | The clamped report reaches the job record exactly when it is due and higher |
| ProgressWrites.ThrottleKeeps | server/progress_write.go:55-92 | Over every run of reports: written values strictly increase, the maximum seen is exact and never leads the last written value by minStep or more |
| ProgressWrites.WrittenInTime | server/progress_write.go:74-90 | A higher report is written once minInterval has passed since the last write, and before that exactly when it finishes or is minStep ahead |
| ProgressWrites.FinishedIsPersisted | server/progress_write.go:55-92 | Tracker and throttle together: when every planned testcase has finished the last value written is 100 |
| ProgressWrites.SavedFollows | server/worker.go:545-551 | The record is never lowered and equals the last written value when nothing else writes it |

## Left out

- API latency samples per trend bucket and per route (`server/metrics_trends.go:248-266`): the same ring and histogram again.
- Vocabulary classification, category names and the change counts per class: a domain's category is a parameter, and
  `DomainCategories` counts whatever it gives.
- The tag section of the report and paging of domain rows.
- ReportRows.BuildRow: does not list the classified moves themselves (`row.Appeared`, `row.Cleared`, `row.LevelChanged`),
  because their classification is left out; the moves are those of `Attribution.DiffDomainTags`.
- The bonus criteria of `scoring/bonus.go`: one Boolean that only counts at a score of 100.
- Floating point: weights, means, durations and quantile targets are exact reals.
- Case folding and white space beyond ASCII.
- Sharing of insight and cluster records: a record is a value in its map, and what a lookup returns is the
  slot it names.
- `sort.Slice` is any sorted permutation; the sorted lists are stated as such, or by one fixed stable sort.
- The select statement of `Dequeue` and its lock are atomic steps; fairness of the Go scheduler is not modelled, so nothing
  says when a step is taken, only that the system never rests in a bad state.
- `singleflight` is its contract: one build per key at a time, joiners get its result. A group whose leader finds a hit on
  its second look is a plain hit.
- The codec of the gzip writer is the identity with a buffer; its pool, and writes after Close, are not modelled.
- Error returns of the underlying writer, and the rule that it drops body bytes after 204 and 304.
- Filtering inside `store.List` and `store.ListRuns`: the handler's model is given the matching jobs and runs.
- A write-state time of zero (`server/progress_write.go:34-36`, `59-61`): times are given.
- The snapshot's tables of top batches and domains (`server/metrics_insights.go:184-249`): a sort and a cut.
- The trend observations the status counters trigger (`server/metrics.go:647-666`): the ring is modelled on its own.
- RateLimiting.RateLimiter.Allow: assumes a clock that does not run backwards between calls, as the source's own bound does.
- TrendRings.TrendRing.constructor: gives no agreement with the history for a resolution that is not whole seconds, because
  the ring's buckets then collide (`Ticks.SlotsApartIff`), and the other methods assume one that is. For buckets before
  1970 agreement also takes an epoch that starts a bucket (`Ticks.SlotsAlwaysApartIff`).
- ClusterReport.BuildReportClusters: assumes names without line breaks, because the signature joins members with them.
- ScoreTracking.ExplainedTracksScore: assumes one finding per tag with a tag and a level, and one module per tag across both
  snapshots, as the materialised views hold them.
- ReportCache.AnalysisCache.Put: assumes a cap of at least zero; the two caps in use are 16 and 4.
