/** The report's domain rows: the movers with the score movement their findings explain. The vocabulary
    classification that gives a domain its category is a parameter. */
module ReportRows {
  import opened Sums
  import opened Sorting
  import opened Text
  import opened Scoring
  import opened Attribution
  import opened ScoreTracking
  import opened SnapshotViews

  type Categorise = (DomainView, DomainView) -> string

  /** The explained delta of two tag lists, whatever order their moves are listed in. */
  ghost function ExplainedBetween(cfg: Config, from: seq<ViewTag>, to: seq<ViewTag>): int {
    var w := TotalReal(cfg.categoryWeights);
    var net := map cat | cat in cfg.categoryWeights ::
      Weigh(Total(MoveCharges(cfg, cat, Index(from), Index(to))), cfg.categoryWeights[cat]);
    if w == 0.0 then 0 else -RoundHalfAway(TotalReal(net) / w)
  }

  lemma ExplainedListed(cfg: Config, from: seq<ViewTag>, to: seq<ViewTag>, moves: seq<Move>)
    requires Lists(moves, AllMoves(Index(from), Index(to)))
    ensures Explained(cfg, moves) == ExplainedBetween(cfg, from, to)
  {
    IndexIsKeyed(from);
    IndexIsKeyed(to);
    var net := map cat | cat in cfg.categoryWeights ::
      Weigh(Total(MoveCharges(cfg, cat, Index(from), Index(to))), cfg.categoryWeights[cat]);
    forall cat | cat in net ensures net[cat] == NetWeighted(cfg, moves)[cat] {
      MoveTotal(cfg, cat, Index(from), Index(to), moves);
    }
    assert net == NetWeighted(cfg, moves);
  }

  function ScoreDelta(f: DomainView, t: DomainView): Option<int> {
    if f.score.Some? && t.score.Some? then Some(t.score.value - f.score.value) else None
  }

  predicate DomainMoved(f: DomainView, t: DomainView) {
    f.score != t.score || f.grade != t.grade
  }

  function MakeRow(name: string, f: DomainView, t: DomainView, category: string, explained: int): ReportDomain {
    var delta := ScoreDelta(f, t);
    ReportDomain(name, f.score, t.score, delta, f.grade, t.grade, f.grade != t.grade, category, explained,
                 if delta.Some? then delta.value - explained else 0)
  }

  ghost function RowFor(name: string, f: DomainView, t: DomainView, cfg: Config, category: Categorise): ReportDomain {
    MakeRow(name, f, t, category(f, t), ExplainedBetween(cfg, f.tags, t.tags))
  }

  /** One row for each domain on both sides whose score or grade moved. */
  ghost function Rows(from: map<string, DomainView>, to: map<string, DomainView>, cfg: Config, category: Categorise)
    : set<ReportDomain>
  {
    set name | name in to && name in from && DomainMoved(from[name], to[name])
      :: RowFor(name, from[name], to[name], cfg, category)
  }

  function DeltaOr(row: ReportDomain, fallback: int): int {
    if row.scoreDelta.Some? then row.scoreDelta.value else fallback
  }

  /** The worst falls first, then by name. */
  predicate RowLe(a: ReportDomain, b: ReportDomain) {
    if DeltaOr(a, 0) != DeltaOr(b, 0) then DeltaOr(a, 0) < DeltaOr(b, 0) else StrLe(a.domain, b.domain)
  }

  lemma RowOrder()
    ensures Preorder(RowLe)
  {
    forall a: ReportDomain, b: ReportDomain ensures RowLe(a, b) || RowLe(b, a) {
      StrLeReaches(a.domain, b.domain);
    }
    forall a: ReportDomain, b: ReportDomain, c: ReportDomain | RowLe(a, b) && RowLe(b, c) ensures RowLe(a, c) {
      if DeltaOr(a, 0) == DeltaOr(b, 0) == DeltaOr(c, 0) {
        StrLeTransitive(a.domain, b.domain, c.domain);
      }
    }
  }

  method BuildRow(name: string, f: DomainView, t: DomainView, cfg: Config, category: Categorise) returns (row: ReportDomain)
    ensures row == RowFor(name, f, t, cfg, category)
  {
    var appeared, cleared, changed := DiffDomainTags(f.tags, t.tags);
    MovesListed(f.tags, t.tags, appeared, cleared, changed);
    ExplainedListed(cfg, f.tags, t.tags, appeared + cleared + changed);
    var explained := ExplainScoreDelta(cfg, appeared, cleared, changed);
    row := MakeRow(name, f, t, category(f, t), explained);
  }

  lemma RowsStep(from: map<string, DomainView>, to: map<string, DomainView>, cfg: Config, category: Categorise,
                 pending: set<string>, name: string)
    requires name in pending && name in to
    ensures
      var was, now := Rows(from, to - pending, cfg, category), Rows(from, to - (pending - {name}), cfg, category);
      if name in from && DomainMoved(from[name], to[name]) then
        var row := RowFor(name, from[name], to[name], cfg, category);
        row !in was && now == was + {row}
      else now == was
  {
    var before, after := to - pending, to - (pending - {name});
    assert after == before[name := to[name]];
  }

  method BuildReportDomains(from: map<string, DomainView>, to: map<string, DomainView>, cfg: Config, category: Categorise)
    returns (out: seq<ReportDomain>)
    ensures Lists(out, Rows(from, to, cfg, category)) && Sorted(RowLe, out)
  {
    out := [];
    var pending := to.Keys;
    assert to - pending == map[];
    while pending != {}
      invariant pending <= to.Keys
      invariant Lists(out, Rows(from, to - pending, cfg, category))
      decreases pending
    {
      var name :| name in pending;
      RowsStep(from, to, cfg, category, pending, name);
      if name in from {
        var scoreMoved, gradeMoved := from[name].score != to[name].score, from[name].grade != to[name].grade;
        if scoreMoved || gradeMoved {
          var row := BuildRow(name, from[name], to[name], cfg, category);
          ListsAppend(out, Rows(from, to - pending, cfg, category), row);
          out := out + [row];
        }
      }
      pending := pending - {name};
    }
    assert to - {} == to;
    RowOrder();
    SortSorts(RowLe, out);
    out := Sort(RowLe, out);
  }

  /** When both snapshots' scores are the computed ones, nothing but rounding is left unexplained. */
  lemma UnexplainedIsRounding(name: string, f: DomainView, t: DomainView, cfg: Config, category: Categorise)
    requires NonNegative(cfg) && TotalReal(cfg.categoryWeights) > 0.0
    requires Clean(f.tags) && Clean(t.tags) && ModulesAgree(Index(f.tags), Index(t.tags))
    requires f.score == Some(ScoreOf(cfg, Entries(f.tags))) && t.score == Some(ScoreOf(cfg, Entries(t.tags)))
    requires !HasCritical(Entries(f.tags)) && !HasCritical(Entries(t.tags))
    requires forall cat :: cat in cfg.categoryWeights ==>
      && SumBy(Entries(f.tags), Charge(cfg, cat)) <= 100 && SumBy(Entries(t.tags), Charge(cfg, cat)) <= 100
    ensures -1 <= RowFor(name, f, t, cfg, category).unexplainedDelta <= 1
  {
    var moves := ListAll(AllMoves(Index(f.tags), Index(t.tags)));
    ExplainedListed(cfg, f.tags, t.tags, moves);
    ExplainedWithinOnePoint(cfg, f.tags, t.tags, moves);
  }

  ghost function ListAll<T>(s: set<T>): (xs: seq<T>)
    ensures Lists(xs, s)
  {
    if s == {} then []
    else
      var x :| x in s;
      assert multiset(s) == multiset(s - {x}) + multiset{x};
      ListAll(s - {x}) + [x]
  }

  /** What a finished list says: each row shows its domain's two scores and grades in order of time, and rows run from the
      worst fall to the best rise, by name where they moved alike. */
  lemma RowsListed(from: map<string, DomainView>, to: map<string, DomainView>, cfg: Config, category: Categorise,
                   out: seq<ReportDomain>, i: nat, j: nat)
    requires Lists(out, Rows(from, to, cfg, category)) && Sorted(RowLe, out) && i < j < |out|
    ensures
      var a, b := out[i], out[j];
      var da, db := if a.scoreDelta.Some? then a.scoreDelta.value else 0, if b.scoreDelta.Some? then b.scoreDelta.value else 0;
      && a.domain in from && a.domain in to
      && (a.fromScore, a.toScore, a.fromGrade, a.toGrade) ==
           (from[a.domain].score, to[a.domain].score, from[a.domain].grade, to[a.domain].grade)
      && (a.scoreDelta.Some? <==> a.fromScore.Some? && a.toScore.Some?)
      && (a.scoreDelta.Some? ==> a.fromScore.value + a.scoreDelta.value == a.toScore.value)
      && da <= db && (da == db ==> StrLe(a.domain, b.domain))
  {
    ListsDistinct(out, Rows(from, to, cfg, category));
    assert out[i] in Rows(from, to, cfg, category) && RowLe(out[i], out[j]);
  }

  /** The domains listed are those on both sides whose score or grade differs, and a row's two parts add up to its delta. */
  lemma ListedIff(from: map<string, DomainView>, to: map<string, DomainView>, cfg: Config, category: Categorise,
                  out: seq<ReportDomain>, name: string)
    requires Lists(out, Rows(from, to, cfg, category))
    ensures (exists r :: r in out && r.domain == name) <==>
      name in from && name in to && (from[name].score != to[name].score || from[name].grade != to[name].grade)
    ensures forall r :: r in out && r.scoreDelta.Some? ==> r.explainedDelta + r.unexplainedDelta == r.scoreDelta.value
  {
    ListsDistinct(out, Rows(from, to, cfg, category));
    if name in from && name in to && (from[name].score != to[name].score || from[name].grade != to[name].grade) {
      assert RowFor(name, from[name], to[name], cfg, category) in Rows(from, to, cfg, category);
    }
  }
}
