/** The spread of a report's totals: grade counts, mean scores and mover categories. */
module ReportSpreads {
  import Attribution
  import opened ReportRows
  import opened SnapshotViews
  import opened Sums
  import opened Tallies
  import opened Text

  /** The grade of every domain that has one. */
  ghost function Graded(views: map<string, DomainView>): map<string, string> {
    map n | n in views && views[n].grade != "" :: views[n].grade
  }

  ghost function Scores(views: map<string, DomainView>): map<string, int> {
    map n | n in views && views[n].score.Some? :: views[n].score.value
  }

  ghost function MoverCategories(from: map<string, DomainView>, to: map<string, DomainView>, category: Categorise)
    : map<string, string>
  {
    map n | n in from && n in to && DomainMoved(from[n], to[n]) :: category(from[n], to[n])
  }

  /** The category each row names for its domain. */
  ghost function RowCategories(rows: seq<ReportDomain>): map<string, string> {
    if rows == [] then map[]
    else RowCategories(rows[..|rows| - 1])[rows[|rows| - 1].domain := rows[|rows| - 1].category]
  }

  lemma {:induction false} RowCategoriesExact(rows: seq<ReportDomain>)
    requires OneRowPerDomain(rows)
    ensures forall r :: r in rows ==> r.domain in RowCategories(rows) && RowCategories(rows)[r.domain] == r.category
    ensures forall n :: n in RowCategories(rows) ==> exists r :: r in rows && r.domain == n
  {
    if rows != [] {
      var front, row := rows[..|rows| - 1], rows[|rows| - 1];
      assert rows == front + [row];
      RowCategoriesExact(front);
    }
  }

  function Hundredths(x: real): real {
    Attribution.RoundHalfAway(x * 100.0) as real / 100.0
  }

  /** The mean of the scores there are, to two decimals. */
  ghost function MeanOf(scores: map<string, int>): Option<real> {
    if scores == map[] then None else Some(Hundredths(Total(scores) as real / |scores| as real))
  }

  method GradeCounts(views: map<string, DomainView>) returns (counts: map<string, int>)
    ensures counts == CountsOf(Graded(views))
  {
    ghost var f := Graded(views);
    counts := map[];
    var pending := views.Keys;
    assert f - pending == map[];
    while pending != {}
      invariant pending <= views.Keys && Counts(counts, f - pending)
      decreases pending
    {
      var name :| name in pending;
      CountNext(counts, f, pending, name);
      if views[name].grade != "" {
        counts := Bump(counts, views[name].grade);
      }
      pending := pending - {name};
    }
    assert f - {} == f;
    CountsExactly(counts, f);
  }

  /** The sum and the number of the scores no longer pending. */
  ghost predicate Summed(scores: map<string, int>, pending: set<string>, sum: int, count: int) {
    sum == Total(scores - pending) && count == |scores - pending|
  }

  ghost function ScoreAt(scores: map<string, int>, name: string): int {
    if name in scores then scores[name] else 0
  }

  ghost function OneIf(scores: map<string, int>, name: string): int {
    if name in scores then 1 else 0
  }

  lemma SizeWithout(m: map<string, int>, name: string)
    requires name in m
    ensures |m - {name}| == |m| - 1
  {
    assert (m - {name}).Keys == m.Keys - {name};
    assert |m.Keys - {name}| == |m.Keys| - 1;
  }

  lemma SummedStep(scores: map<string, int>, pending: set<string>, name: string, sum: int, count: int)
    requires Summed(scores, pending, sum, count) && name in pending
    ensures Summed(scores, pending - {name}, sum + ScoreAt(scores, name), count + OneIf(scores, name))
  {
    var before, after := scores - pending, scores - (pending - {name});
    if name in scores {
      TotalRemove(after, name);
      SizeWithout(after, name);
      assert after - {name} == before;
    } else {
      assert after == before;
    }
  }

  lemma SummedBounds(views: map<string, DomainView>)
    ensures Summed(Scores(views), views.Keys, 0, 0)
  {
    assert Scores(views) - views.Keys == map[];
  }

  method SumScores(views: map<string, DomainView>) returns (sum: int, count: int)
    ensures Summed(Scores(views), {}, sum, count)
  {
    ghost var scores := Scores(views);
    sum, count := 0, 0;
    var pending := views.Keys;
    SummedBounds(views);
    while pending != {}
      invariant pending <= views.Keys && Summed(scores, pending, sum, count)
      decreases pending
    {
      var name :| name in pending;
      SummedStep(scores, pending, name, sum, count);
      if views[name].score.Some? {
        sum := sum + views[name].score.value;
        count := count + 1;
      }
      pending := pending - {name};
    }
  }

  method MeanScore(views: map<string, DomainView>) returns (mean: Option<real>)
    ensures mean == MeanOf(Scores(views))
  {
    var sum, count := SumScores(views);
    assert Scores(views) - {} == Scores(views);
    if count == 0 {
      assert Scores(views).Keys == {};
      return None;
    }
    mean := Some(Hundredths(sum as real / count as real));
  }

  method CategoryCounts(rows: seq<ReportDomain>) returns (counts: map<string, int>)
    requires OneRowPerDomain(rows)
    ensures counts == CountsOf(RowCategories(rows))
  {
    counts := map[];
    for i := 0 to |rows|
      invariant Counts(counts, RowCategories(rows[..i]))
    {
      assert rows[..i + 1][..i] == rows[..i];
      RowCategoriesExact(rows[..i]);
      CountsBump(counts, RowCategories(rows[..i]), rows[i].domain, rows[i].category);
      counts := Bump(counts, rows[i].category);
    }
    assert rows[..|rows|] == rows;
    CountsExactly(counts, RowCategories(rows));
  }

  /** Every graded domain is in one grade count, every mover in one category count. */
  lemma SpreadsSum<K(!new)>(f: map<string, K>)
    ensures Total(CountsOf(f)) == |f|
  {
    CountsExactly(CountsOf(f), f);
    CountsSum(CountsOf(f), f);
  }

  /** The mean shown is within half a hundredth of the mean. */
  lemma MeanWithin(scores: map<string, int>)
    requires scores != map[]
    ensures MeanOf(scores).Some?
    ensures var mean := Total(scores) as real / |scores| as real;
      -0.005 <= MeanOf(scores).value - mean <= 0.005
  {}
}
