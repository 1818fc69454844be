/** What a finding costs: its tag's override where there is one, otherwise its level's penalty, weighted by its category.
    Everything here reads the configuration's own tables. */
module PenaltyRules {
  import opened Numbers
  import opened Sums
  import opened Text
  import opened Scoring
  import opened Attribution

  ghost predicate Overridden(cfg: Config, tag: string) {
    Upper(tag) in cfg.tagPenalties
  }

  /** A finding of this tag and level costs p. An absent level costs nothing. */
  ghost predicate Costs(cfg: Config, tag: string, level: string, p: int) {
    p == if Overridden(cfg, tag) then cfg.tagPenalties[Upper(tag)] else CountAt(cfg.severityPenalties, Upper(level))
  }

  ghost predicate MappedTo(cfg: Config, mod: string, cat: string) {
    Upper(mod) in cfg.moduleCategories && cfg.moduleCategories[Upper(mod)] == cat
  }

  // --- Overrides come first ---

  /** Where every tag has an override the severity table does not matter, neither to the outcomes nor to the score. */
  lemma OverridesShieldScore(cfg: Config, severities: map<string, int>, entries: seq<Entry>)
    requires forall e :: e in entries ==> Overridden(cfg, e.tag)
    ensures var other := cfg.(severityPenalties := severities);
      Outcomes(other, entries) == Outcomes(cfg, entries) && ScoreOf(other, entries) == ScoreOf(cfg, entries)
  {
    var other := cfg.(severityPenalties := severities);
    forall cat ensures CategoryOutcome(other, entries, cat) == CategoryOutcome(cfg, entries, cat) {
      SumByAgree(entries, Charge(other, cat), Charge(cfg, cat));
      SumByAgree(entries, Charged(other, cat), Charged(cfg, cat));
      SumByAgree(entries, Lands(other, cat), Lands(cfg, cat));
    }
    var a, b := WeightedSubScores(other, entries), WeightedSubScores(cfg, entries);
    forall cat | cat in a ensures a[cat] == b[cat] {
      assert CategoryOutcome(other, entries, cat).score == CategoryOutcome(cfg, entries, cat).score;
    }
    assert a == b;
  }

  /** Nor to the explanation of moves whose tags all have one. */
  lemma OverridesShieldExplained(cfg: Config, severities: map<string, int>, moves: seq<Move>)
    requires forall m :: m in moves ==> Overridden(cfg, m.tag)
    ensures Explained(cfg.(severityPenalties := severities), moves) == Explained(cfg, moves)
  {
    var other := cfg.(severityPenalties := severities);
    forall cat | cat in cfg.categoryWeights ensures NetWeighted(other, moves)[cat] == NetWeighted(cfg, moves)[cat] {
      SumByAgree(moves, NetCharge(other, cat), NetCharge(cfg, cat));
    }
    assert NetWeighted(other, moves) == NetWeighted(cfg, moves);
  }

  /** The findings of a category at one level whose tags have no override. */
  function Uncovered(cfg: Config, level: string, cat: string): Entry -> int {
    (e: Entry) =>
      if Upper(e.mod) in cfg.moduleCategories && cfg.moduleCategories[Upper(e.mod)] == cat
         && Upper(e.level) == level && Upper(e.tag) !in cfg.tagPenalties then 1 else 0
  }

  function Raised(cfg: Config, level: string, x: int): Config {
    cfg.(severityPenalties := cfg.severityPenalties[level := CountAt(cfg.severityPenalties, level) + x])
  }

  /** Raising one level's penalty by x costs a category x for each of its findings at that level without an override. */
  lemma {:induction false} RaisedLevel(cfg: Config, level: string, x: int, entries: seq<Entry>, cat: string)
    ensures CategoryOutcome(Raised(cfg, level, x), entries, cat).penalties
         == CategoryOutcome(cfg, entries, cat).penalties + x * SumBy(entries, Uncovered(cfg, level, cat))
  {
    if entries != [] {
      var front, e := entries[..|entries| - 1], entries[|entries| - 1];
      RaisedLevel(cfg, level, x, front, cat);
      RaisedCharge(cfg, level, x, e, cat);
      Distributes(x, SumBy(front, Uncovered(cfg, level, cat)), Uncovered(cfg, level, cat)(e));
    }
  }

  lemma RaisedCharge(cfg: Config, level: string, x: int, e: Entry, cat: string)
    ensures Charge(Raised(cfg, level, x), cat)(e) == Charge(cfg, cat)(e) + x * Uncovered(cfg, level, cat)(e)
  {}

  lemma Distributes(x: int, a: int, b: int)
    ensures x * (a + b) == x * a + x * b
  {}

  // --- One finding ---

  /** A run of one finding: its category has the finding's cost, every other one none; a CRITICAL one zeroes them all. */
  lemma OneFinding(cfg: Config, e: Entry, p: int, cat: string)
    requires Costs(cfg, e.tag, e.level, p) && cat in cfg.categoryWeights
    ensures Outcomes(cfg, [e])[cat] ==
      var here := MappedTo(cfg, e.mod, cat);
      CategoryResult(if Upper(e.level) == "CRITICAL" then 0 else if here then Max(100 - p, 0) else 100,
                     if here then p else 0, if here && p != 0 then 1 else 0, here)
  {
    SumByOne(e, Charge(cfg, cat));
    SumByOne(e, Charged(cfg, cat));
    SumByOne(e, Lands(cfg, cat));
    assert HasCritical([e]) <==> IsCritical(e) by {
      assert e in [e];
    }
  }

  lemma NothingFound(cfg: Config)
    requires TotalReal(cfg.categoryWeights) > 0.0
    ensures WeightedMean(cfg, []) == 100.0 && ScoreOf(cfg, []) == 100
  {
    var s := WeightedSubScores(cfg, []);
    forall cat | cat in s ensures s[cat] == 100.0 * cfg.categoryWeights[cat] {}
    TotalRealHundred(cfg.categoryWeights, s);
    Cancels(100.0, TotalReal(cfg.categoryWeights));
  }

  lemma Cancels(x: real, w: real)
    requires w > 0.0
    ensures x * w / w == x
  {}

  /** A further finding in this category, at cost p: nothing is CRITICAL, and the category has the points to lose. */
  ghost predicate Affordable(cfg: Config, entries: seq<Entry>, e: Entry, p: int, cat: string) {
    && cat in cfg.categoryWeights && MappedTo(cfg, e.mod, cat) && Costs(cfg, e.tag, e.level, p)
    && (forall x :: x in entries + [e] ==> Upper(x.level) != "CRITICAL")
    && CategoryOutcome(cfg, entries, cat).penalties <= 100 && CategoryOutcome(cfg, entries + [e], cat).penalties <= 100
  }

  /** It lowers the weighted mean by its cost times its category's share of the weights. */
  lemma FindingCosts(cfg: Config, entries: seq<Entry>, e: Entry, p: int, cat: string)
    requires TotalReal(cfg.categoryWeights) > 0.0 && Affordable(cfg, entries, e, p, cat)
    ensures WeightedMean(cfg, entries + [e]) ==
      WeightedMean(cfg, entries) - p as real * cfg.categoryWeights[cat] / TotalReal(cfg.categoryWeights)
  {
    SumFalls(cfg, entries, e, p, cat);
    MeanFalls(cfg, entries, entries + [e], Weigh(p, cfg.categoryWeights[cat]));
  }

  lemma MeanFalls(cfg: Config, was: seq<Entry>, now: seq<Entry>, x: real)
    requires TotalReal(cfg.categoryWeights) > 0.0
    requires TotalReal(WeightedSubScores(cfg, now)) == TotalReal(WeightedSubScores(cfg, was)) - x
    ensures WeightedMean(cfg, now) == WeightedMean(cfg, was) - x / TotalReal(cfg.categoryWeights)
  {
    Quotients(TotalReal(WeightedSubScores(cfg, was)), x, TotalReal(cfg.categoryWeights));
  }

  lemma SumFalls(cfg: Config, entries: seq<Entry>, e: Entry, p: int, cat: string)
    requires Affordable(cfg, entries, e, p, cat)
    ensures TotalReal(WeightedSubScores(cfg, entries + [e])) ==
      TotalReal(WeightedSubScores(cfg, entries)) - Weigh(p, cfg.categoryWeights[cat])
  {
    FindingSums(cfg, entries, e, p, cat);
    SumLess(WeightedSubScores(cfg, entries), WeightedSubScores(cfg, entries + [e]), cat,
            SubScore(cfg, entries, cat), p, cfg.categoryWeights[cat]);
  }

  lemma SumLess(a: map<string, real>, b: map<string, real>, cat: string, score: int, p: int, w: real)
    requires a.Keys == b.Keys && cat in a && forall c :: c in a && c != cat ==> a[c] == b[c]
    requires a[cat] == Weigh(score, w) && b[cat] == Weigh(score - p, w)
    ensures TotalReal(b) == TotalReal(a) - Weigh(p, w)
  {
    WeighLess(score, p, w);
    TotalRealDiffer(a, b, cat);
  }

  lemma FindingSums(cfg: Config, entries: seq<Entry>, e: Entry, p: int, cat: string)
    requires Affordable(cfg, entries, e, p, cat)
    ensures
      var a, b := WeightedSubScores(cfg, entries), WeightedSubScores(cfg, entries + [e]);
      && (forall c :: c in a && c != cat ==> a[c] == b[c])
      && a[cat] == Weigh(SubScore(cfg, entries, cat), cfg.categoryWeights[cat])
      && b[cat] == Weigh(SubScore(cfg, entries, cat) - p, cfg.categoryWeights[cat])
  {
    var a, b := WeightedSubScores(cfg, entries), WeightedSubScores(cfg, entries + [e]);
    forall c | c in a && c != cat ensures a[c] == b[c] {
      FindingScored(cfg, entries, e, p, cat, c);
    }
    FindingScored(cfg, entries, e, p, cat, cat);
  }

  lemma FindingScored(cfg: Config, entries: seq<Entry>, e: Entry, p: int, cat: string, c: string)
    requires Affordable(cfg, entries, e, p, cat)
    ensures SubScore(cfg, entries + [e], c) == SubScore(cfg, entries, c) - if c == cat then p else 0
  {
    var all := entries + [e];
    assert all[..|entries|] == entries;
    assert !HasCritical(all);
    assert forall x :: x in entries ==> x in all;
    assert !HasCritical(entries);
  }

  lemma WeighLess(score: int, p: int, w: real)
    ensures Weigh(score - p, w) == Weigh(score, w) - Weigh(p, w)
  {
    assert (score - p) as real == score as real - p as real;
  }

  lemma Quotients(a: real, b: real, w: real)
    requires w > 0.0
    ensures (a - b) / w == a / w - b / w
  {
    var i := 1.0 / w;
    assert (a - b) / w == (a - b) * i && a / w == a * i && b / w == b * i;
  }

  // --- One move ---

  /** The nearest integer, halves away from zero. */
  lemma RoundsToNearest(x: real)
    ensures var r := RoundHalfAway(x) as real;
      && -0.5 <= r - x <= 0.5
      && (r - x == 0.5 ==> x > 0.0) && (r - x == -0.5 ==> x < 0.0)
  {}

  /** A finding that appeared moves the explained score down by its cost times its category's share of the weights, to
      the nearest point; one that cleared moves it back up. */
  lemma OneMove(cfg: Config, m: Move, p: int, cat: string)
    requires TotalReal(cfg.categoryWeights) > 0.0 && cat in cfg.categoryWeights && MappedTo(cfg, m.mod, cat)
    requires (m.fromLevel == "") != (m.toLevel == "") && Costs(cfg, m.tag, m.fromLevel + m.toLevel, p)
    ensures var share := p as real * cfg.categoryWeights[cat] / TotalReal(cfg.categoryWeights);
      -0.5 <= Explained(cfg, [m]) as real - (if m.fromLevel == "" then -share else share) <= 0.5
  {
    var net, w := NetWeighted(cfg, [m]), TotalReal(cfg.categoryWeights);
    var x := p as real * cfg.categoryWeights[cat];
    OneMoveNets(cfg, m, p, cat);
    OnlyTotal(net, cat);
    Quotients(0.0, x, w);
    RoundsToNearest(TotalReal(net) / w);
  }

  lemma OnlyTotal(m: map<string, real>, k: string)
    requires k in m && forall j :: j in m && j != k ==> m[j] == 0.0
    ensures TotalReal(m) == m[k]
  {
    var none := map j | j in m :: 0.0;
    TotalRealPad(map[], none);
    TotalRealDiffer(none, m, k);
  }

  lemma OneMoveNets(cfg: Config, m: Move, p: int, cat: string)
    requires cat in cfg.categoryWeights && MappedTo(cfg, m.mod, cat)
    requires (m.fromLevel == "") != (m.toLevel == "") && Costs(cfg, m.tag, m.fromLevel + m.toLevel, p)
    ensures forall c :: c in cfg.categoryWeights && c != cat ==> NetWeighted(cfg, [m])[c] == 0.0
    ensures var x := p as real * cfg.categoryWeights[cat];
      NetWeighted(cfg, [m])[cat] == if m.fromLevel == "" then x else -x
  {
    assert "" + m.toLevel == m.toLevel && m.fromLevel + "" == m.fromLevel;
    forall c | c in cfg.categoryWeights {
      SumByOne(m, NetCharge(cfg, c));
    }
    WeighLess(0, p, cfg.categoryWeights[cat]);
  }

  // --- Disabled stacks ---

  /** The stacks named are those some entry reports as disabled. */
  lemma StacksNamed(entries: seq<Entry>)
    ensures "ipv4" in DisabledStacks(entries) <==>
      exists e :: e in entries && Upper(e.tag) in {"IPV4_DISABLED", "CN01_IPV4_DISABLED"}
    ensures "ipv6" in DisabledStacks(entries) <==>
      exists e :: e in entries && Upper(e.tag) in {"IPV6_DISABLED", "CN01_IPV6_DISABLED"}
  {
    StacksIn(Any(entries, DisablesIPv4), Any(entries, DisablesIPv6));
  }

  lemma StacksIn(ipv4: bool, ipv6: bool)
    ensures "ipv4" in StackNames(ipv4, ipv6) <==> ipv4
    ensures "ipv6" in StackNames(ipv4, ipv6) <==> ipv6
  {
    assert "ipv4"[3] != "ipv6"[3];
  }
}
