/** Headline totals and transition tables: every domain on both sides is counted exactly once. */
module ReportTotals {
  import opened Sums
  import opened Sorting
  import opened Text
  import opened Scoring
  import opened SnapshotViews
  import opened ReportRows
  import opened ReportSpreads
  import opened Tallies

  // --- Totals ---

  datatype Totals = Totals(
    fromDomainCount: int, toDomainCount: int, bothDomainCount: int, added: int, removed: int,
    identicalScore: int, improved: int, regressed: int,
    fromGrades: map<string, int>, toGrades: map<string, int>, fromMeanScore: Option<real>, toMeanScore: Option<real>,
    domainCategories: map<string, int>)

  ghost function Both(from: map<string, DomainView>, to: map<string, DomainView>): set<string> {
    from.Keys * to.Keys
  }

  ghost function ImprovedNames(from: map<string, DomainView>, to: map<string, DomainView>): set<string> {
    set n | n in Both(from, to) && ScoreDelta(from[n], to[n]).Some? && ScoreDelta(from[n], to[n]).value > 0
  }

  ghost function RegressedNames(from: map<string, DomainView>, to: map<string, DomainView>): set<string> {
    set n | n in Both(from, to) && ScoreDelta(from[n], to[n]).Some? && ScoreDelta(from[n], to[n]).value < 0
  }

  /** Listed as movers with a score delta of zero: only the grade moved. */
  ghost function ZeroDeltaNames(from: map<string, DomainView>, to: map<string, DomainView>): set<string> {
    set n | n in Both(from, to) && ScoreDelta(from[n], to[n]) == Some(0) && from[n].grade != to[n].grade
  }

  ghost function IdenticalNames(from: map<string, DomainView>, to: map<string, DomainView>): set<string> {
    set n | n in Both(from, to) && n !in ZeroDeltaNames(from, to) && from[n].score == to[n].score
  }

  ghost function ScoredOnceNames(from: map<string, DomainView>, to: map<string, DomainView>): set<string> {
    set n | n in Both(from, to) && (from[n].score.Some? != to[n].score.Some?)
  }

  ghost predicate TotalsExact(totals: Totals, from: map<string, DomainView>, to: map<string, DomainView>) {
    && totals.fromDomainCount == |from| && totals.toDomainCount == |to|
    && totals.bothDomainCount == |Both(from, to)|
    && totals.added == |to.Keys - from.Keys| && totals.removed == |from.Keys - to.Keys|
    && totals.identicalScore == |IdenticalNames(from, to)|
    && totals.improved == |ImprovedNames(from, to)| && totals.regressed == |RegressedNames(from, to)|
  }

  /** The grades and mean scores of both sides, and the categories of the movers. */
  ghost predicate SpreadsExact(totals: Totals, from: map<string, DomainView>, to: map<string, DomainView>, category: Categorise) {
    && totals.fromGrades == CountsOf(Graded(from)) && totals.toGrades == CountsOf(Graded(to))
    && totals.fromMeanScore == MeanOf(Scores(from)) && totals.toMeanScore == MeanOf(Scores(to))
    && totals.domainCategories == CountsOf(MoverCategories(from, to, category))
  }

  ghost function Satisfying(names: set<string>, p: string -> bool): set<string> {
    set x | x in names && p(x)
  }

  /** How many of the names satisfy p, counted in arbitrary order. */
  method CountNames(names: set<string>, p: string -> bool) returns (n: int)
    ensures n == |Satisfying(names, p)|
  {
    n := 0;
    var pending := names;
    assert Satisfying(names - pending, p) == {};
    while pending != {}
      invariant pending <= names && n == |Satisfying(names - pending, p)|
      decreases pending
    {
      var name :| name in pending;
      ghost var was := Satisfying(names - pending, p);
      if p(name) {
        n := n + 1;
      }
      pending := pending - {name};
      assert Satisfying(names - pending, p) == if p(name) then was + {name} else was;
    }
    assert names - {} == names;
  }

  /** The domain names of the rows with a property. */
  ghost function NamesOf(rows: seq<ReportDomain>, p: ReportDomain -> bool): set<string> {
    set r | r in rows && p(r) :: r.domain
  }

  predicate Gained(row: ReportDomain) {
    row.scoreDelta.Some? && row.scoreDelta.value > 0
  }

  predicate Lost(row: ReportDomain) {
    row.scoreDelta.Some? && row.scoreDelta.value < 0
  }

  predicate HasDelta(row: ReportDomain) {
    row.scoreDelta.Some?
  }

  lemma NamesOfStep(rows: seq<ReportDomain>, i: nat, p: ReportDomain -> bool)
    requires i < |rows| && OneRowPerDomain(rows)
    ensures NamesOf(rows[..i + 1], p) == NamesOf(rows[..i], p) + if p(rows[i]) then {rows[i].domain} else {}
    ensures |NamesOf(rows[..i + 1], p)| == |NamesOf(rows[..i], p)| + if p(rows[i]) then 1 else 0
  {
    assert rows[..i + 1] == rows[..i] + [rows[i]];
    assert rows[i].domain !in NamesOf(rows[..i], p);
    assert NamesOf(rows[..i + 1], p) == NamesOf(rows[..i], p) + if p(rows[i]) then {rows[i].domain} else {};
  }

  method CountRows(rows: seq<ReportDomain>) returns (improved: int, regressed: int, moved: set<string>)
    requires OneRowPerDomain(rows)
    ensures improved == |NamesOf(rows, Gained)| && regressed == |NamesOf(rows, Lost)|
    ensures moved == NamesOf(rows, HasDelta)
  {
    improved, regressed, moved := 0, 0, {};
    for i := 0 to |rows|
      invariant improved == |NamesOf(rows[..i], Gained)| && regressed == |NamesOf(rows[..i], Lost)|
      invariant moved == NamesOf(rows[..i], HasDelta)
    {
      NamesOfStep(rows, i, Gained);
      NamesOfStep(rows, i, Lost);
      NamesOfStep(rows, i, HasDelta);
      var row := rows[i];
      if row.scoreDelta.None? {
        continue;
      }
      moved := moved + {row.domain};
      if row.scoreDelta.value > 0 {
        improved := improved + 1;
      } else if row.scoreDelta.value < 0 {
        regressed := regressed + 1;
      }
    }
    assert rows[..|rows|] == rows;
  }

  lemma RowsOnePerDomain(from: map<string, DomainView>, to: map<string, DomainView>, cfg: Config, category: Categorise,
                         rows: seq<ReportDomain>)
    requires Lists(rows, Rows(from, to, cfg, category))
    ensures OneRowPerDomain(rows)
    ensures forall r :: r in rows ==>
      r.domain in Both(from, to) && DomainMoved(from[r.domain], to[r.domain])
      && r == RowFor(r.domain, from[r.domain], to[r.domain], cfg, category)
  {
    ListsDistinct(rows, Rows(from, to, cfg, category));
    forall r | r in rows
      ensures r.domain in Both(from, to) && DomainMoved(from[r.domain], to[r.domain])
        && r == RowFor(r.domain, from[r.domain], to[r.domain], cfg, category)
    {
      assert r in Rows(from, to, cfg, category);
    }
    forall i, j | 0 <= i < j < |rows| ensures rows[i].domain != rows[j].domain {
      assert rows[i] in rows && rows[j] in rows && rows[i] != rows[j];
    }
  }

  /** A property that reads only the score delta picks out the domains with such a delta that moved. */
  lemma RowsNamed(from: map<string, DomainView>, to: map<string, DomainView>, cfg: Config, category: Categorise,
                  rows: seq<ReportDomain>, p: ReportDomain -> bool, n: string)
    requires Lists(rows, Rows(from, to, cfg, category))
    ensures n in NamesOf(rows, p) <==>
      n in Both(from, to) && DomainMoved(from[n], to[n]) && p(RowFor(n, from[n], to[n], cfg, category))
  {
    ListsDistinct(rows, Rows(from, to, cfg, category));
    RowsOnePerDomain(from, to, cfg, category, rows);
    if n in Both(from, to) && DomainMoved(from[n], to[n]) {
      assert RowFor(n, from[n], to[n], cfg, category) in Rows(from, to, cfg, category);
    }
  }

  lemma MovedNames(from: map<string, DomainView>, to: map<string, DomainView>, cfg: Config, category: Categorise,
                   rows: seq<ReportDomain>)
    requires Lists(rows, Rows(from, to, cfg, category))
    ensures NamesOf(rows, Gained) == ImprovedNames(from, to)
    ensures NamesOf(rows, Lost) == RegressedNames(from, to)
  {
    forall n ensures n in NamesOf(rows, Gained) <==> n in ImprovedNames(from, to) {
      RowsNamed(from, to, cfg, category, rows, Gained, n);
    }
    forall n ensures n in NamesOf(rows, Lost) <==> n in RegressedNames(from, to) {
      RowsNamed(from, to, cfg, category, rows, Lost, n);
    }
  }

  /** The rows' categories are those of the movers. */
  lemma MoverRows(from: map<string, DomainView>, to: map<string, DomainView>, cfg: Config, category: Categorise,
                  rows: seq<ReportDomain>)
    requires Lists(rows, Rows(from, to, cfg, category))
    ensures OneRowPerDomain(rows) && RowCategories(rows) == MoverCategories(from, to, category)
  {
    RowsOnePerDomain(from, to, cfg, category, rows);
    var c := RowCategories(rows);
    RowCategoriesExact(rows);
    forall n ensures n in c <==> n in MoverCategories(from, to, category) {
      RowsNamed(from, to, cfg, category, rows, r => true, n);
    }
  }

  predicate HeldScore(from: map<string, DomainView>, to: map<string, DomainView>, moved: set<string>, n: string) {
    n in from && n in to && n !in moved && from[n].score == to[n].score
  }

  lemma HeldNames(from: map<string, DomainView>, to: map<string, DomainView>, cfg: Config, category: Categorise,
                  rows: seq<ReportDomain>, moved: set<string>)
    requires Lists(rows, Rows(from, to, cfg, category)) && moved == NamesOf(rows, HasDelta)
    ensures Satisfying(to.Keys, n => HeldScore(from, to, moved, n)) == IdenticalNames(from, to)
  {
    forall n ensures HeldScore(from, to, moved, n) <==> n in IdenticalNames(from, to) {
      RowsNamed(from, to, cfg, category, rows, HasDelta, n);
    }
  }

  /** The counts over map keys: domains shared, added and removed. */
  method CountMembership(from: map<string, DomainView>, to: map<string, DomainView>)
    returns (both: int, added: int, removed: int)
    ensures both == |Both(from, to)| && added == |to.Keys - from.Keys| && removed == |from.Keys - to.Keys|
  {
    both := CountNames(to.Keys, n => n in from);
    added := CountNames(to.Keys, n => n !in from);
    removed := CountNames(from.Keys, n => n !in to);
    assert Satisfying(to.Keys, n => n in from) == Both(from, to);
    assert Satisfying(to.Keys, n => n !in from) == to.Keys - from.Keys;
    assert Satisfying(from.Keys, n => n !in to) == from.Keys - to.Keys;
  }

  method BuildReportTotals(from: map<string, DomainView>, to: map<string, DomainView>, rows: seq<ReportDomain>,
                           ghost cfg: Config, ghost category: Categorise)
    returns (totals: Totals)
    requires Lists(rows, Rows(from, to, cfg, category))
    ensures TotalsExact(totals, from, to) && SpreadsExact(totals, from, to, category)
  {
    RowsOnePerDomain(from, to, cfg, category, rows);
    MovedNames(from, to, cfg, category, rows);
    var both, added, removed := CountMembership(from, to);
    var improved, regressed, moved := CountRows(rows);
    HeldNames(from, to, cfg, category, rows, moved);
    var identical := CountNames(to.Keys, n => HeldScore(from, to, moved, n));
    var fromGrades := GradeCounts(from);
    var toGrades := GradeCounts(to);
    var fromMean := MeanScore(from);
    var toMean := MeanScore(to);
    MoverRows(from, to, cfg, category, rows);
    var categories := CategoryCounts(rows);
    totals := Totals(|from|, |to|, both, added, removed, identical, improved, regressed,
                     fromGrades, toGrades, fromMean, toMean, categories);
  }

  lemma ScoreCases(from: map<string, DomainView>, to: map<string, DomainView>)
    ensures
      var i, r, s := ImprovedNames(from, to), RegressedNames(from, to), IdenticalNames(from, to);
      var z, o := ZeroDeltaNames(from, to), ScoredOnceNames(from, to);
      && i !! r && (i + r) !! s && (i + r + s) !! z && (i + r + s + z) !! o
      && Both(from, to) == i + r + s + z + o
  {
  }

  lemma FiveParts(all: set<string>, a: set<string>, b: set<string>, c: set<string>, d: set<string>, e: set<string>)
    requires a !! b && (a + b) !! c && (a + b + c) !! d && (a + b + c + d) !! e
    requires all == a + b + c + d + e
    ensures |all| == |a| + |b| + |c| + |d| + |e|
  {
  }

  /** The totals partition both snapshots and the domains they share. */
  lemma TotalsPartition(totals: Totals, from: map<string, DomainView>, to: map<string, DomainView>)
    requires TotalsExact(totals, from, to)
    ensures totals.toDomainCount == totals.bothDomainCount + totals.added
    ensures totals.fromDomainCount == totals.bothDomainCount + totals.removed
    ensures totals.bothDomainCount == totals.improved + totals.regressed + totals.identicalScore
                                      + |ZeroDeltaNames(from, to)| + |ScoredOnceNames(from, to)|
  {
    SharedAndOther(to.Keys, from.Keys);
    SharedAndOther(from.Keys, to.Keys);
    assert to.Keys * from.Keys == from.Keys * to.Keys;
    ScoreSizes(from, to);
  }

  lemma SharedAndOther(a: set<string>, b: set<string>)
    ensures |a| == |a * b| + |a - b|
  {
    assert a == a * b + (a - b);
  }

  lemma ScoreSizes(from: map<string, DomainView>, to: map<string, DomainView>)
    ensures |Both(from, to)| == |ImprovedNames(from, to)| + |RegressedNames(from, to)| + |IdenticalNames(from, to)|
                                + |ZeroDeltaNames(from, to)| + |ScoredOnceNames(from, to)|
  {
    ScoreCases(from, to);
    FiveParts(Both(from, to), ImprovedNames(from, to), RegressedNames(from, to), IdenticalNames(from, to),
              ZeroDeltaNames(from, to), ScoredOnceNames(from, to));
  }

  // --- Transitions ---

  /** A held row has no category; a moving one carries its domains' category. */
  datatype Transition = Transition(from: string, to: string, category: string)

  datatype TransitionRow = TransitionRow(key: Transition, count: int)

  function SeverityBucket(level: string): string {
    var l := Upper(level);
    if l in {"CRITICAL", "ERROR", "WARNING", "NOTICE"} then l else "OK"
  }

  function TransitionOf(a: string, b: string, category: string): Transition {
    Transition(a, b, if a != b then category else "")
  }

  ghost function GradeMoves(from: map<string, DomainView>, to: map<string, DomainView>, category: Categorise)
    : map<string, Transition>
  {
    map n | n in Both(from, to) :: TransitionOf(from[n].grade, to[n].grade, category(from[n], to[n]))
  }

  ghost function LevelMoves(from: map<string, DomainView>, to: map<string, DomainView>, category: Categorise)
    : map<string, Transition>
  {
    map n | n in Both(from, to) ::
      TransitionOf(SeverityBucket(from[n].worstLevel), SeverityBucket(to[n].worstLevel), category(from[n], to[n]))
  }

  function SortKey(row: TransitionRow): seq<string> {
    [row.key.from, row.key.to, row.key.category]
  }

  predicate TransitionLe(a: TransitionRow, b: TransitionRow) {
    KeyLe(SortKey(a), SortKey(b))
  }

  lemma TransitionOrder()
    ensures Preorder(TransitionLe)
  {
    forall a: TransitionRow, b: TransitionRow ensures TransitionLe(a, b) || TransitionLe(b, a) {
      KeyLeReaches(SortKey(a), SortKey(b));
    }
    forall a: TransitionRow, b: TransitionRow, c: TransitionRow | TransitionLe(a, b) && TransitionLe(b, c)
      ensures TransitionLe(a, c)
    {
      KeyLeTransitive(SortKey(a), SortKey(b), SortKey(c));
    }
  }

  ghost function RowsOf(counts: map<Transition, int>): set<TransitionRow> {
    set k | k in counts :: TransitionRow(k, counts[k])
  }

  lemma RowsOfStep(counts: map<Transition, int>, pending: set<Transition>, k: Transition)
    requires k in pending && k in counts
    ensures TransitionRow(k, counts[k]) !in RowsOf(counts - pending)
    ensures RowsOf(counts - (pending - {k})) == RowsOf(counts - pending) + {TransitionRow(k, counts[k])}
  {
    var was, now := counts - pending, counts - (pending - {k});
    forall row | row in RowsOf(now) ensures row in RowsOf(was) + {TransitionRow(k, counts[k])} {
      assert row.key in now;
      assert row.key != k ==> row.key in was;
    }
    forall row | row in RowsOf(was) ensures row in RowsOf(now) {
      assert row.key in was && row.key in now;
    }
    assert k in now;
  }

  /** Rows list the counts with distinct keys in strictly ascending order. */
  method TransitionRows(counts: map<Transition, int>) returns (out: seq<TransitionRow>)
    ensures Lists(out, RowsOf(counts))
    ensures Sorted(TransitionLe, out)
    ensures forall i, j :: 0 <= i < j < |out| ==> out[i].key != out[j].key && !TransitionLe(out[j], out[i])
  {
    out := [];
    var pending := counts.Keys;
    assert counts - pending == map[];
    while pending != {}
      invariant pending <= counts.Keys && Lists(out, RowsOf(counts - pending))
      decreases pending
    {
      var k :| k in pending;
      var row := TransitionRow(k, counts[k]);
      RowsOfStep(counts, pending, k);
      ListsAppend(out, RowsOf(counts - pending), row);
      out := out + [row];
      pending := pending - {k};
    }
    assert counts - {} == counts;
    TransitionOrder();
    SortSorts(TransitionLe, out);
    out := Sort(TransitionLe, out);
    StrictlyOrdered(out, counts);
  }

  lemma StrictlyOrdered(out: seq<TransitionRow>, counts: map<Transition, int>)
    requires Lists(out, RowsOf(counts)) && Sorted(TransitionLe, out)
    ensures forall i, j :: 0 <= i < j < |out| ==> out[i].key != out[j].key && !TransitionLe(out[j], out[i])
  {
    ListsDistinct(out, RowsOf(counts));
    forall i, j | 0 <= i < j < |out| ensures out[i].key != out[j].key && !TransitionLe(out[j], out[i]) {
      assert out[i] in RowsOf(counts) && out[j] in RowsOf(counts) && out[i] != out[j];
      var a, b := SortKey(out[i]), SortKey(out[j]);
      KeyLeReaches(a, b);
      assert out[i].key == Transition(a[0], a[1], a[2]) && out[j].key == Transition(b[0], b[1], b[2]);
    }
  }

  /** The category of each domain: the row's when the domain is a mover, classified on demand otherwise. */
  ghost predicate CategoriesKnown(categories: map<string, string>, from: map<string, DomainView>, to: map<string, DomainView>,
                                  category: Categorise)
  {
    forall n :: n in categories ==> n in Both(from, to) && categories[n] == category(from[n], to[n])
  }

  method CategoriesOfRows(rows: seq<ReportDomain>, ghost from: map<string, DomainView>, ghost to: map<string, DomainView>,
                          ghost cfg: Config, category: Categorise)
    returns (categories: map<string, string>)
    requires Lists(rows, Rows(from, to, cfg, category))
    ensures CategoriesKnown(categories, from, to, category)
  {
    RowsOnePerDomain(from, to, cfg, category, rows);
    categories := map[];
    for i := 0 to |rows|
      invariant CategoriesKnown(categories, from, to, category)
    {
      assert rows[i] in rows;
      categories := categories[rows[i].domain := rows[i].category];
    }
  }

  method TransitionAt(a: string, b: string, name: string, f: DomainView, t: DomainView, categories0: map<string, string>,
                      category: Categorise)
    returns (key: Transition, categories: map<string, string>)
    requires name in categories0 ==> categories0[name] == category(f, t)
    ensures key == TransitionOf(a, b, category(f, t))
    ensures categories == categories0 || categories == categories0[name := category(f, t)]
  {
    categories := categories0;
    key := Transition(a, b, "");
    if a != b {
      if name !in categories {
        categories := categories[name := category(f, t)];
      }
      key := key.(category := categories[name]);
    }
  }

  /** The loop body: one shared domain's grade and worst-level transitions. */
  method TransitionsOf(name: string, from: map<string, DomainView>, to: map<string, DomainView>, category: Categorise,
                       categories0: map<string, string>)
    returns (g: Transition, l: Transition, categories: map<string, string>)
    requires name in Both(from, to) && CategoriesKnown(categories0, from, to, category)
    ensures g == GradeMoves(from, to, category)[name] && l == LevelMoves(from, to, category)[name]
    ensures CategoriesKnown(categories, from, to, category)
  {
    var f, t := from[name], to[name];
    g, categories := TransitionAt(f.grade, t.grade, name, f, t, categories0, category);
    l, categories := TransitionAt(SeverityBucket(f.worstLevel), SeverityBucket(t.worstLevel), name, f, t, categories, category);
  }

  method BuildReportTransitions(from: map<string, DomainView>, to: map<string, DomainView>, rows: seq<ReportDomain>,
                                ghost cfg: Config, category: Categorise)
    returns (grade: seq<TransitionRow>, level: seq<TransitionRow>)
    requires Lists(rows, Rows(from, to, cfg, category))
    ensures IsTable(grade, CountsOf(GradeMoves(from, to, category)))
    ensures IsTable(level, CountsOf(LevelMoves(from, to, category)))
  {
    var categories := CategoriesOfRows(rows, from, to, cfg, category);
    var gradeCounts: map<Transition, int>, levelCounts: map<Transition, int> := map[], map[];
    ghost var gs, ls := GradeMoves(from, to, category), LevelMoves(from, to, category);
    var pending := to.Keys;
    assert gs - pending == map[] && ls - pending == map[];
    while pending != {}
      invariant pending <= to.Keys && CategoriesKnown(categories, from, to, category)
      invariant Counts(gradeCounts, gs - pending) && Counts(levelCounts, ls - pending)
      decreases pending
    {
      var name :| name in pending;
      CountNext(gradeCounts, gs, pending, name);
      CountNext(levelCounts, ls, pending, name);
      if name in from {
        var g, l;
        g, l, categories := TransitionsOf(name, from, to, category, categories);
        gradeCounts, levelCounts := Bump(gradeCounts, g), Bump(levelCounts, l);
      }
      pending := pending - {name};
    }
    assert gs - {} == gs && ls - {} == ls;
    CountsExactly(gradeCounts, gs);
    CountsExactly(levelCounts, ls);
    grade := TransitionRows(gradeCounts);
    level := TransitionRows(levelCounts);
  }

  /** rows list the counts, each key once, in strictly ascending order. */
  ghost predicate IsTable(rows: seq<TransitionRow>, counts: map<Transition, int>) {
    && Lists(rows, RowsOf(counts)) && Sorted(TransitionLe, rows)
    && forall i, j :: 0 <= i < j < |rows| ==> rows[i].key != rows[j].key && !TransitionLe(rows[j], rows[i])
  }

  /** Every domain on both sides is in exactly one row of each table: the counts sum to their number. */
  lemma TransitionsSumToBoth(rows: seq<TransitionRow>, f: map<string, Transition>,
                             from: map<string, DomainView>, to: map<string, DomainView>)
    requires IsTable(rows, CountsOf(f)) && f.Keys == Both(from, to)
    ensures SumBy(rows, (r: TransitionRow) => r.count) == |Both(from, to)|
  {
    var counts := CountsOf(f);
    CountsExactly(counts, f);
    ListsDistinct(rows, RowsOf(counts));
    forall i | 0 <= i < |rows| ensures rows[i].key in counts && counts[rows[i].key] == rows[i].count {
      assert rows[i] in RowsOf(counts);
    }
    forall k | k in counts ensures exists i :: 0 <= i < |rows| && rows[i].key == k {
      assert TransitionRow(k, counts[k]) in RowsOf(counts);
    }
    ListTotal(rows, (r: TransitionRow) => r.key, (r: TransitionRow) => r.count, counts);
    CountsSum(counts, f);
    assert |f| == |f.Keys|;
  }

  /** The count of a grade transition is the number of shared domains that made it, in the moving domains' category. */
  lemma GradeRowCounts(rows: seq<TransitionRow>, from: map<string, DomainView>, to: map<string, DomainView>,
                       category: Categorise, row: TransitionRow)
    requires IsTable(rows, CountsOf(GradeMoves(from, to, category))) && row in rows
    ensures row.count == |set n | n in from && n in to && from[n].grade == row.key.from && to[n].grade == row.key.to
      && row.key.category == (if row.key.from == row.key.to then "" else category(from[n], to[n]))|
  {
    var f := GradeMoves(from, to, category);
    ListsDistinct(rows, RowsOf(CountsOf(f)));
    assert row in RowsOf(CountsOf(f));
    var made := set n | n in from && n in to && from[n].grade == row.key.from && to[n].grade == row.key.to
      && row.key.category == (if row.key.from == row.key.to then "" else category(from[n], to[n]));
    assert made == Having(f, row.key);
  }

  /** A table runs by what moved from, then by what it moved to, then by category. */
  lemma TableByMove(rows: seq<TransitionRow>, counts: map<Transition, int>, i: nat, j: nat)
    requires IsTable(rows, counts) && i < j < |rows|
    ensures
      var a, b := rows[i].key, rows[j].key;
      && StrLe(a.from, b.from) && (a.from == b.from ==> StrLe(a.to, b.to))
      && (a.from == b.from && a.to == b.to ==> StrLe(a.category, b.category))
  {
    var a, b := rows[i].key, rows[j].key;
    assert TransitionLe(rows[i], rows[j]);
    KeyLeThree(a.from, a.to, a.category, b.from, b.to, b.category);
    StrLeReaches(a.from, b.from);
    StrLeReaches(a.to, b.to);
  }

  /** The bucket a level is shown in. */
  ghost predicate ShownIn(level: string, bucket: string) {
    var graded := {"CRITICAL", "ERROR", "WARNING", "NOTICE"};
    if Upper(level) in graded then bucket == Upper(level) else bucket == "OK"
  }

  lemma ShownInBucket(level: string, bucket: string)
    ensures ShownIn(level, bucket) <==> bucket == SeverityBucket(level)
  {}

  /** The count of a level transition is the number of shared domains that made it. */
  lemma LevelRowCounts(rows: seq<TransitionRow>, from: map<string, DomainView>, to: map<string, DomainView>,
                       category: Categorise, row: TransitionRow)
    requires IsTable(rows, CountsOf(LevelMoves(from, to, category))) && row in rows
    ensures row.count == |set n | n in from && n in to
      && ShownIn(from[n].worstLevel, row.key.from) && ShownIn(to[n].worstLevel, row.key.to)
      && row.key.category == (if row.key.from == row.key.to then "" else category(from[n], to[n]))|
  {
    var f := LevelMoves(from, to, category);
    ListsDistinct(rows, RowsOf(CountsOf(f)));
    assert row in RowsOf(CountsOf(f));
    forall level, bucket ensures ShownIn(level, bucket) <==> bucket == SeverityBucket(level) {
      ShownInBucket(level, bucket);
    }
    var made := set n | n in from && n in to
      && ShownIn(from[n].worstLevel, row.key.from) && ShownIn(to[n].worstLevel, row.key.to)
      && row.key.category == (if row.key.from == row.key.to then "" else category(from[n], to[n]));
    assert made == Having(f, row.key);
  }
}
