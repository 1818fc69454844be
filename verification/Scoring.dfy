/** scoring.Compute: a run's log entries become one weighted score in 0..100 and a letter grade. */
module Scoring {
  import opened Numbers
  import opened Sums
  import opened Text

  datatype Entry = Entry(mod: string, tag: string, level: string)

  datatype GradeBand = GradeBand(grade: string, minScore: int)

  datatype Config = Config(
    severityPenalties: map<string, int>,
    categoryWeights: map<string, real>,
    moduleCategories: map<string, string>,
    tagPenalties: map<string, int>,
    gradeBands: seq<GradeBand>)

  datatype CategoryResult = CategoryResult(score: int, penalties: int, entryCount: int, tested: bool)

  datatype Result = Result(
    score: int,
    grade: string,
    categories: map<string, CategoryResult>,
    eligible: bool,
    disabledStacks: seq<string>)

  /** Compute dereferences a nil accumulator when an entry's category carries no weight. */
  datatype Computation = Computed(result: Result) | Panicked

  /** Go's int(x): truncation toward zero. */
  function Truncate(x: real): int {
    if x >= 0.0 then x.Floor else -((-x).Floor)
  }

  function CategoryOf(cfg: Config, mod: string): Option<string> {
    if Upper(mod) in cfg.moduleCategories then Some(cfg.moduleCategories[Upper(mod)]) else None
  }

  /** The tag override when there is one, otherwise the severity penalty, otherwise nothing. */
  function Penalty(cfg: Config, tag: string, level: string): int {
    if Upper(tag) in cfg.tagPenalties then cfg.tagPenalties[Upper(tag)]
    else if Upper(level) in cfg.severityPenalties then cfg.severityPenalties[Upper(level)]
    else 0
  }

  predicate IsCritical(e: Entry) {
    Upper(e.level) == "CRITICAL"
  }

  predicate DisablesIPv4(e: Entry) {
    Upper(e.tag) in {"IPV4_DISABLED", "CN01_IPV4_DISABLED"}
  }

  predicate DisablesIPv6(e: Entry) {
    Upper(e.tag) in {"IPV6_DISABLED", "CN01_IPV6_DISABLED"}
  }

  // What one entry adds to a category, as functions to be summed over a run.

  function Charge(cfg: Config, cat: string): Entry -> int {
    (e: Entry) => if CategoryOf(cfg, e.mod) == Some(cat) then Penalty(cfg, e.tag, e.level) else 0
  }

  function Charged(cfg: Config, cat: string): Entry -> int {
    (e: Entry) => if CategoryOf(cfg, e.mod) == Some(cat) && Penalty(cfg, e.tag, e.level) != 0 then 1 else 0
  }

  function Lands(cfg: Config, cat: string): Entry -> int {
    (e: Entry) => if CategoryOf(cfg, e.mod) == Some(cat) then 1 else 0
  }

  ghost predicate Any(entries: seq<Entry>, p: Entry -> bool) {
    exists e :: e in entries && p(e)
  }

  lemma AnyStep(entries: seq<Entry>, p: Entry -> bool, i: nat)
    requires i < |entries|
    ensures Any(entries[..i + 1], p) <==> Any(entries[..i], p) || p(entries[i])
  {
    assert entries[..i + 1] == entries[..i] + [entries[i]];
    if Any(entries[..i], p) {
      var e :| e in entries[..i] && p(e);
      assert e in entries[..i + 1];
    }
    if p(entries[i]) {
      assert entries[i] in entries[..i + 1];
    }
  }

  ghost predicate HasCritical(entries: seq<Entry>) {
    Any(entries, IsCritical)
  }

  datatype CatAccum = CatAccum(penalties: int, entryCount: int, totalEntries: int)

  ghost function Tally(cfg: Config, entries: seq<Entry>, cat: string): CatAccum {
    CatAccum(SumBy(entries, Charge(cfg, cat)), SumBy(entries, Charged(cfg, cat)), SumBy(entries, Lands(cfg, cat)))
  }

  /** A category's result: CRITICAL anywhere in the run zeroes every sub-score. */
  function Outcome(accum: CatAccum, hasCritical: bool): CategoryResult {
    var subScore := if hasCritical then 0 else Max(100 - accum.penalties, 0);
    CategoryResult(subScore, accum.penalties, accum.entryCount, accum.totalEntries > 0)
  }

  ghost function CategoryOutcome(cfg: Config, entries: seq<Entry>, cat: string): CategoryResult {
    Outcome(Tally(cfg, entries, cat), HasCritical(entries))
  }

  ghost function Outcomes(cfg: Config, entries: seq<Entry>): map<string, CategoryResult> {
    map cat | cat in cfg.categoryWeights :: CategoryOutcome(cfg, entries, cat)
  }

  ghost function SubScore(cfg: Config, entries: seq<Entry>, cat: string): int {
    CategoryOutcome(cfg, entries, cat).score
  }

  ghost function WeightedSubScores(cfg: Config, entries: seq<Entry>): map<string, real> {
    map cat | cat in cfg.categoryWeights :: Weigh(SubScore(cfg, entries, cat), cfg.categoryWeights[cat])
  }

  /** The weighted mean of the sub-scores before truncation; zero when nothing is weighted. */
  ghost function WeightedMean(cfg: Config, entries: seq<Entry>): real {
    var w := TotalReal(cfg.categoryWeights);
    if w > 0.0 then TotalReal(WeightedSubScores(cfg, entries)) / w else 0.0
  }

  ghost function ScoreOf(cfg: Config, entries: seq<Entry>): int {
    var t := Truncate(WeightedMean(cfg, entries));
    var clamped := if t > 100 then 100 else if t < 0 then 0 else t;
    if HasCritical(entries) && clamped > 10 then 10 else clamped
  }

  function StackNames(ipv4: bool, ipv6: bool): seq<string> {
    (if ipv4 then ["ipv4"] else []) + (if ipv6 then ["ipv6"] else [])
  }

  ghost function DisabledStacks(entries: seq<Entry>): seq<string> {
    StackNames(Any(entries, DisablesIPv4), Any(entries, DisablesIPv6))
  }

  /** The entry's category, if it has one, carries a weight. */
  predicate HasWeight(cfg: Config, e: Entry) {
    CategoryOf(cfg, e.mod).Some? ==> CategoryOf(cfg, e.mod).value in cfg.categoryWeights
  }

  predicate Weighted(cfg: Config, entries: seq<Entry>) {
    forall e :: e in entries ==> HasWeight(cfg, e)
  }

  lemma TallyStep(cfg: Config, entries: seq<Entry>, i: nat, cat: string)
    requires i < |entries|
    ensures
      var e, was := entries[i], Tally(cfg, entries[..i], cat);
      var charge := Penalty(cfg, e.tag, e.level);
      Tally(cfg, entries[..i + 1], cat) ==
        if CategoryOf(cfg, e.mod) != Some(cat) then was
        else CatAccum(was.penalties + charge, was.entryCount + (if charge != 0 then 1 else 0), was.totalEntries + 1)
  {
    SumByStep(entries, Charge(cfg, cat), i);
    SumByStep(entries, Charged(cfg, cat), i);
    SumByStep(entries, Lands(cfg, cat), i);
  }

  /** What one entry does to the accumulators: an unmapped module leaves them alone, a zero penalty only marks the category tested. */
  function AddEntry(cats: map<string, CatAccum>, cfg: Config, e: Entry): map<string, CatAccum>
    requires HasWeight(cfg, e) && cats.Keys == cfg.categoryWeights.Keys
  {
    match CategoryOf(cfg, e.mod)
    case None => cats
    case Some(cat) =>
      var accum := cats[cat].(totalEntries := cats[cat].totalEntries + 1);
      var penalty := Penalty(cfg, e.tag, e.level);
      cats[cat := if penalty == 0 then accum
                  else accum.(penalties := accum.penalties + penalty, entryCount := accum.entryCount + 1)]
  }

  ghost predicate Tallied(cats: map<string, CatAccum>, cfg: Config, entries: seq<Entry>) {
    && cats.Keys == cfg.categoryWeights.Keys
    && forall cat :: cat in cats ==> cats[cat] == Tally(cfg, entries, cat)
  }

  lemma AddEntryTallies(cats: map<string, CatAccum>, cfg: Config, entries: seq<Entry>, i: nat)
    requires i < |entries| && HasWeight(cfg, entries[i])
    requires Tallied(cats, cfg, entries[..i])
    ensures Tallied(AddEntry(cats, cfg, entries[i]), cfg, entries[..i + 1])
  {
    forall cat | cat in cats {
      TallyStep(cfg, entries, i, cat);
    }
  }

  /** The run-wide flags. */
  ghost predicate Flagged(entries: seq<Entry>, hasCritical: bool, ipv4Disabled: bool, ipv6Disabled: bool) {
    && hasCritical == HasCritical(entries)
    && ipv4Disabled == Any(entries, DisablesIPv4) && ipv6Disabled == Any(entries, DisablesIPv6)
  }

  /** One entry raises the flags it concerns; no tag disables both stacks. */
  lemma FlagsStep(entries: seq<Entry>, i: nat, hasCritical: bool, ipv4Disabled: bool, ipv6Disabled: bool)
    requires i < |entries| && Flagged(entries[..i], hasCritical, ipv4Disabled, ipv6Disabled)
    ensures Flagged(entries[..i + 1], hasCritical || IsCritical(entries[i]), ipv4Disabled || DisablesIPv4(entries[i]),
                    ipv6Disabled || (!DisablesIPv4(entries[i]) && DisablesIPv6(entries[i])))
  {
    AnyStep(entries, IsCritical, i);
    AnyStep(entries, DisablesIPv4, i);
    AnyStep(entries, DisablesIPv6, i);
  }

  /** The first loop of Compute: per-category penalty sums and the run-wide flags, unless it panics. */
  method Accumulate(entries: seq<Entry>, cfg: Config)
    returns (panicked: bool, cats: map<string, CatAccum>, hasCritical: bool, ipv4Disabled: bool, ipv6Disabled: bool)
    ensures panicked <==> !Weighted(cfg, entries)
    ensures !panicked ==> Tallied(cats, cfg, entries) && Flagged(entries, hasCritical, ipv4Disabled, ipv6Disabled)
  {
    panicked := false;
    cats := map cat | cat in cfg.categoryWeights :: CatAccum(0, 0, 0);
    hasCritical, ipv4Disabled, ipv6Disabled := false, false, false;
    for i := 0 to |entries|
      invariant Weighted(cfg, entries[..i])
      invariant Tallied(cats, cfg, entries[..i])
      invariant Flagged(entries[..i], hasCritical, ipv4Disabled, ipv6Disabled)
    {
      var e := entries[i];
      FlagsStep(entries, i, hasCritical, ipv4Disabled, ipv6Disabled);
      if DisablesIPv4(e) {
        ipv4Disabled := true;
      } else if DisablesIPv6(e) {
        ipv6Disabled := true;
      }
      if IsCritical(e) {
        hasCritical := true;
      }
      if !HasWeight(cfg, e) {
        return true, cats, hasCritical, ipv4Disabled, ipv6Disabled;
      }
      AddEntryTallies(cats, cfg, entries, i);
      cats := AddEntry(cats, cfg, e);
      assert entries[..i + 1] == entries[..i] + [e];
    }
    assert entries[..|entries|] == entries;
  }

  method ScoreToGrade(score: int, bands: seq<GradeBand>) returns (grade: string)
    ensures var k := BandIndex(score, bands); grade == if k < |bands| then bands[k].grade else "F"
  {
    for i := 0 to |bands|
      invariant BandIndex(score, bands) == i + BandIndex(score, bands[i..])
    {
      if score >= bands[i].minScore {
        return bands[i].grade;
      }
      assert bands[i..][1..] == bands[i + 1..];
    }
    return "F";
  }

  /** The position of the first band the score reaches. */
  ghost function BandIndex(score: int, bands: seq<GradeBand>): (k: nat)
    ensures k <= |bands|
    ensures k < |bands| ==> score >= bands[k].minScore
    ensures forall i :: 0 <= i < k ==> score < bands[i].minScore
  {
    if bands == [] || score >= bands[0].minScore then 0 else 1 + BandIndex(score, bands[1..])
  }

  function Weigh(subScore: int, weight: real): real {
    subScore as real * weight
  }

  /** The sums and results of the categories no longer pending. */
  ghost predicate Aggregated(cfg: Config, entries: seq<Entry>, pending: set<string>,
                             categories: map<string, CategoryResult>, weightedSum: real, totalWeight: real)
  {
    && categories == Outcomes(cfg, entries) - pending
    && weightedSum == TotalReal(WeightedSubScores(cfg, entries) - pending)
    && totalWeight == TotalReal(cfg.categoryWeights - pending)
  }

  lemma AggregateStep(cfg: Config, entries: seq<Entry>, pending: set<string>, categories: map<string, CategoryResult>,
                      weightedSum: real, totalWeight: real, cat: string, outcome: CategoryResult)
    requires Aggregated(cfg, entries, pending, categories, weightedSum, totalWeight)
    requires cat in pending && cat in cfg.categoryWeights && outcome == CategoryOutcome(cfg, entries, cat)
    ensures Aggregated(cfg, entries, pending - {cat}, categories[cat := outcome],
                       weightedSum + Weigh(outcome.score, cfg.categoryWeights[cat]), totalWeight + cfg.categoryWeights[cat])
  {
    TotalRealTake(cfg.categoryWeights, pending, cat);
    TotalRealTake(WeightedSubScores(cfg, entries), pending, cat);
  }

  lemma AggregateBounds(cfg: Config, entries: seq<Entry>)
    ensures Aggregated(cfg, entries, cfg.categoryWeights.Keys, map[], 0.0, 0.0)
    ensures Aggregated(cfg, entries, {}, Outcomes(cfg, entries),
                       TotalReal(WeightedSubScores(cfg, entries)), TotalReal(cfg.categoryWeights))
  {
    var weighted, outcomes := WeightedSubScores(cfg, entries), Outcomes(cfg, entries);
    var keys := cfg.categoryWeights.Keys;
    assert cfg.categoryWeights - keys == map[] && weighted - keys == map[] && outcomes - keys == map[];
    assert cfg.categoryWeights - {} == cfg.categoryWeights && weighted - {} == weighted && outcomes - {} == outcomes;
  }

  /** The second loop of Compute, over the category weights in arbitrary order. */
  method Aggregate(entries: seq<Entry>, cfg: Config, cats: map<string, CatAccum>, hasCritical: bool)
    returns (categories: map<string, CategoryResult>, weightedSum: real, totalWeight: real)
    requires Tallied(cats, cfg, entries)
    requires hasCritical == HasCritical(entries)
    ensures categories == Outcomes(cfg, entries)
    ensures weightedSum == TotalReal(WeightedSubScores(cfg, entries))
    ensures totalWeight == TotalReal(cfg.categoryWeights)
  {
    AggregateBounds(cfg, entries);
    categories, weightedSum, totalWeight := map[], 0.0, 0.0;
    var pending := cfg.categoryWeights.Keys;
    while pending != {}
      invariant pending <= cfg.categoryWeights.Keys
      invariant Aggregated(cfg, entries, pending, categories, weightedSum, totalWeight)
      decreases pending
    {
      var cat :| cat in pending;
      var outcome := Outcome(cats[cat], hasCritical);
      AggregateStep(cfg, entries, pending, categories, weightedSum, totalWeight, cat, outcome);
      categories := categories[cat := outcome];
      weightedSum := weightedSum + Weigh(outcome.score, cfg.categoryWeights[cat]);
      totalWeight := totalWeight + cfg.categoryWeights[cat];
      pending := pending - {cat};
    }
  }

  /** criteriaMet stands for the bonus criteria, which only count at a perfect score. */
  method Compute(entries: seq<Entry>, cfg: Config, criteriaMet: bool) returns (c: Computation)
    ensures c == Panicked <==> !Weighted(cfg, entries)
    ensures c.Computed? ==>
      var r := c.result;
      var k := BandIndex(r.score, cfg.gradeBands);
      && r.score == ScoreOf(cfg, entries)
      && r.categories == Outcomes(cfg, entries)
      && (r.eligible <==> r.score == 100 && criteriaMet)
      && r.grade == (if r.eligible then "A+" else if k < |cfg.gradeBands| then cfg.gradeBands[k].grade else "F")
      && r.disabledStacks == DisabledStacks(entries)
  {
    var panicked, cats, hasCritical, ipv4Disabled, ipv6Disabled := Accumulate(entries, cfg);
    if panicked {
      return Panicked;
    }
    var categories, weightedSum, totalWeight := Aggregate(entries, cfg, cats, hasCritical);
    var aggregate := 0;
    if totalWeight > 0.0 {
      aggregate := Truncate(weightedSum / totalWeight);
    }
    if aggregate > 100 {
      aggregate := 100;
    }
    if aggregate < 0 {
      aggregate := 0;
    }
    if hasCritical && aggregate > 10 {
      aggregate := 10;
    }
    var grade := ScoreToGrade(aggregate, cfg.gradeBands);
    var eligible := aggregate == 100 && criteriaMet;
    if eligible {
      grade := "A+";
    }
    c := Computed(Result(aggregate, grade, categories, eligible, StackNames(ipv4Disabled, ipv6Disabled)));
  }

  lemma AnyIsOrderFree(a: seq<Entry>, b: seq<Entry>, p: Entry -> bool)
    requires multiset(a) == multiset(b)
    ensures Any(a, p) == Any(b, p)
  {
    assert forall e :: e in a <==> e in multiset(a);
    assert forall e :: e in b <==> e in multiset(b);
  }

  /** The order of the log does not matter to any part of the result. */
  lemma ScoreIsOrderFree(cfg: Config, a: seq<Entry>, b: seq<Entry>)
    requires multiset(a) == multiset(b)
    ensures ScoreOf(cfg, a) == ScoreOf(cfg, b)
    ensures forall cat :: CategoryOutcome(cfg, a, cat) == CategoryOutcome(cfg, b, cat)
    ensures DisabledStacks(a) == DisabledStacks(b)
  {
    AnyIsOrderFree(a, b, IsCritical);
    AnyIsOrderFree(a, b, DisablesIPv4);
    AnyIsOrderFree(a, b, DisablesIPv6);
    forall cat ensures CategoryOutcome(cfg, a, cat) == CategoryOutcome(cfg, b, cat) {
      SumByPermutation(a, b, Charge(cfg, cat));
      SumByPermutation(a, b, Charged(cfg, cat));
      SumByPermutation(a, b, Lands(cfg, cat));
    }
    var wa, wb := WeightedSubScores(cfg, a), WeightedSubScores(cfg, b);
    forall cat | cat in wa ensures wa[cat] == wb[cat] {
      assert CategoryOutcome(cfg, a, cat).score == CategoryOutcome(cfg, b, cat).score;
    }
    assert wa == wb;
  }

  lemma ScoreInRange(cfg: Config, entries: seq<Entry>)
    ensures 0 <= ScoreOf(cfg, entries) <= 100
  {
  }

  /** A CRITICAL entry zeroes the score whatever the weights, so the cap at 10 is never what binds. */
  lemma CriticalScoresZero(cfg: Config, entries: seq<Entry>)
    requires HasCritical(entries)
    ensures ScoreOf(cfg, entries) == 0
    ensures Truncate(WeightedMean(cfg, entries)) == 0
  {
    var zeros := map cat | cat in cfg.categoryWeights :: 0.0;
    assert WeightedSubScores(cfg, entries) == zeros;
    TotalRealPad(map[], zeros);
  }

  ghost predicate NonNegative(cfg: Config) {
    && (forall t :: t in cfg.tagPenalties ==> cfg.tagPenalties[t] >= 0)
    && (forall s :: s in cfg.severityPenalties ==> cfg.severityPenalties[s] >= 0)
    && (forall c :: c in cfg.categoryWeights ==> cfg.categoryWeights[c] >= 0.0)
  }

  lemma SubScoreNeverRises(cfg: Config, entries: seq<Entry>, e: Entry, cat: string)
    requires NonNegative(cfg)
    ensures SubScore(cfg, entries + [e], cat) <= SubScore(cfg, entries, cat)
  {
    var all := entries + [e];
    assert all[..|entries|] == entries;
    assert SumBy(all, Charge(cfg, cat)) == SumBy(entries, Charge(cfg, cat)) + Charge(cfg, cat)(e);
    if HasCritical(entries) {
      var c :| c in entries && IsCritical(c);
      assert c in all;
    }
  }

  lemma MeanNeverRises(cfg: Config, entries: seq<Entry>, e: Entry)
    requires NonNegative(cfg)
    ensures WeightedMean(cfg, entries + [e]) <= WeightedMean(cfg, entries)
  {
    var a, b := WeightedSubScores(cfg, entries + [e]), WeightedSubScores(cfg, entries);
    forall cat | cat in a ensures a[cat] <= b[cat] {
      SubScoreNeverRises(cfg, entries, e, cat);
      WeighMonotone(SubScore(cfg, entries + [e], cat), SubScore(cfg, entries, cat), cfg.categoryWeights[cat]);
    }
    TotalRealMonotone(a, b);
    var w := TotalReal(cfg.categoryWeights);
    if w > 0.0 {
      DivMonotone(TotalReal(a), TotalReal(b), w);
    }
  }

  /** With non-negative weights and penalties a further finding never raises the score. */
  lemma ScoreNeverRises(cfg: Config, entries: seq<Entry>, e: Entry)
    requires NonNegative(cfg)
    ensures ScoreOf(cfg, entries + [e]) <= ScoreOf(cfg, entries)
  {
    var all := entries + [e];
    MeanNeverRises(cfg, entries, e);
    if HasCritical(all) {
      CriticalScoresZero(cfg, all);
    } else {
      assert forall c :: c in entries ==> c in all;
      assert !HasCritical(entries);
    }
  }

  lemma WeighMonotone(x: int, y: int, w: real)
    requires x <= y && 0.0 <= w
    ensures Weigh(x, w) <= Weigh(y, w)
  {
  }

  lemma DivMonotone(x: real, y: real, w: real)
    requires x <= y && 0.0 < w
    ensures x / w <= y / w
  {
    var d := y - x;
    assert y / w == x / w + d / w;
  }

  ghost predicate Descending(bands: seq<GradeBand>) {
    forall i, j :: 0 <= i < j < |bands| ==> bands[i].minScore > bands[j].minScore
  }

  /** A better score never gets a worse band, and the band given is the best one the score reaches. */
  lemma GradeIsBestBand(lo: int, hi: int, bands: seq<GradeBand>)
    requires lo <= hi && Descending(bands)
    ensures BandIndex(hi, bands) <= BandIndex(lo, bands)
    ensures forall i :: 0 <= i < |bands| && lo >= bands[i].minScore ==>
      BandIndex(lo, bands) < |bands| && bands[i].minScore <= bands[BandIndex(lo, bands)].minScore
  {
    var k := BandIndex(lo, bands);
    assert k < |bands| ==> hi >= bands[k].minScore;
  }
}
