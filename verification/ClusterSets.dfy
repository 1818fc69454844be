/** When clusters have different member sets. They are collapsed by member list, and a domain is in a list once per
    label it shows the value under, so lists can differ where sets do not. */
module ClusterSets {
  import opened ClusterReport
  import opened ClusterLabels
  import opened Clusters
  import opened Numbers
  import opened SnapshotViews
  import opened Sorting
  import opened Sums
  import opened Text

  // --- How often a view carries a value ---

  /** The labels among these values of a key. */
  ghost function LabelsAmong(dims: seq<DimValue>, key: DimKey): set<string> {
    set dv | dv in dims && KeyOf(dv) == key :: dv.display
  }

  /** Under how many labels, the empty one included, a view shows a value. */
  ghost function LabelCount(v: DomainView, key: DimKey): int {
    if Blank(key.value) then 0 else |LabelsAmong(Candidates(v), key)|
  }

  lemma {:induction false} CarriesLabels(dims: seq<DimValue>, key: DimKey)
    requires Distinct(dims)
    ensures Carries(dims, key) == |LabelsAmong(dims, key)|
  {
    if dims == [] {
      assert LabelsAmong(dims, key) == {};
    } else {
      var front, dv := dims[..|dims| - 1], dims[|dims| - 1];
      assert dims == front + [dv];
      CarriesLabels(front, key);
      if KeyOf(dv) == key {
        assert dv.display !in LabelsAmong(front, key);
        assert LabelsAmong(dims, key) == LabelsAmong(front, key) + {dv.display};
      } else {
        assert LabelsAmong(dims, key) == LabelsAmong(front, key);
      }
    }
  }

  /** A view carries a value once per label it shows it under. */
  lemma CarriesCounts(v: DomainView, key: DimKey)
    ensures Carries(DimValues(v), key) == LabelCount(v, key)
  {
    DeduplicatedExact(Candidates(v));
    CarriesLabels(DimValues(v), key);
    if Blank(key.value) {
      assert LabelsAmong(DimValues(v), key) == {};
    } else {
      assert LabelsAmong(DimValues(v), key) == LabelsAmong(Candidates(v), key);
    }
  }

  // --- What a member list holds ---

  ghost predicate Moves(rows: seq<ReportDomain>, names: set<string>, name: string) {
    exists r :: r in rows && Mover(r, names) && r.domain == name
  }

  lemma {:induction false} RepeatTally(s: string, n: int, x: string)
    ensures multiset(Repeat(s, n))[x] == if x == s then Max(n, 0) else 0
  {
    if n > 0 {
      RepeatTally(s, n - 1, x);
    }
  }

  /** A member list holds each mover as often as it carries the value. */
  lemma {:induction false} MembersTally(rows: seq<ReportDomain>, d: map<string, seq<DimValue>>, key: DimKey, x: string)
    requires OneRowPerDomain(rows)
    ensures multiset(Members(rows, d, key))[x] == if Moves(rows, d.Keys, x) then Carries(d[x], key) else 0
  {
    if rows != [] {
      var front, row := rows[..|rows| - 1], rows[|rows| - 1];
      assert rows == front + [row];
      MembersTally(front, d, key, x);
      assert Moves(rows, d.Keys, x) <==> Moves(front, d.Keys, x) || (Mover(row, d.Keys) && row.domain == x);
      if Mover(row, d.Keys) {
        RepeatTally(row.domain, Carries(d[row.domain], key), x);
        CarriesTwice(d[row.domain], key);
        assert !Moves(front, d.Keys, row.domain);
      }
    }
  }

  lemma GroupTally(g: Groups, views: map<string, DomainView>, rows: seq<ReportDomain>, key: DimKey, x: string)
    requires GroupsOf(g, views, rows) && OneRowPerDomain(rows)
    ensures multiset(GetMembers(g.members, key))[x] == if Moves(rows, views.Keys, x) then LabelCount(views[x], key) else 0
  {
    var d := DimsOf(views);
    assert GetMembers(g.members, key) == Sort(StrLe, Members(rows, d, key));
    Orders();
    SortSorts(StrLe, Members(rows, d, key));
    MembersTally(rows, d, key, x);
    if Moves(rows, views.Keys, x) {
      CarriesCounts(views[x], key);
    }
  }

  // --- Equal lists and equal sets ---

  function MemberSet(ms: seq<string>): set<string> {
    set x | x in ms
  }

  /** The same movers carry both values. */
  ghost predicate SameCarriers(views: map<string, DomainView>, rows: seq<ReportDomain>, a: DimKey, b: DimKey) {
    forall r :: r in rows && Mover(r, views.Keys) ==>
      (LabelCount(views[r.domain], a) > 0 <==> LabelCount(views[r.domain], b) > 0)
  }

  /** Every mover shows both values under equally many labels. */
  ghost predicate SameLabelCounts(views: map<string, DomainView>, rows: seq<ReportDomain>, a: DimKey, b: DimKey) {
    forall r :: r in rows && Mover(r, views.Keys) ==> LabelCount(views[r.domain], a) == LabelCount(views[r.domain], b)
  }

  lemma SetsEqualIff(g: Groups, views: map<string, DomainView>, rows: seq<ReportDomain>, a: DimKey, b: DimKey)
    requires GroupsOf(g, views, rows) && OneRowPerDomain(rows)
    ensures MemberSet(GetMembers(g.members, a)) == MemberSet(GetMembers(g.members, b)) <==> SameCarriers(views, rows, a, b)
  {
    var p, q := GetMembers(g.members, a), GetMembers(g.members, b);
    forall x ensures x in MemberSet(p) <==> Moves(rows, views.Keys, x) && LabelCount(views[x], a) > 0 {
      GroupTally(g, views, rows, a, x);
      assert x in p <==> multiset(p)[x] > 0;
    }
    forall x ensures x in MemberSet(q) <==> Moves(rows, views.Keys, x) && LabelCount(views[x], b) > 0 {
      GroupTally(g, views, rows, b, x);
      assert x in q <==> multiset(q)[x] > 0;
    }
    if MemberSet(p) == MemberSet(q) {
      forall r | r in rows && Mover(r, views.Keys)
        ensures LabelCount(views[r.domain], a) > 0 <==> LabelCount(views[r.domain], b) > 0
      {
        assert Moves(rows, views.Keys, r.domain);
        assert r.domain in MemberSet(p) <==> r.domain in MemberSet(q);
      }
    }
  }

  lemma ListsEqualIff(g: Groups, views: map<string, DomainView>, rows: seq<ReportDomain>, a: DimKey, b: DimKey)
    requires GroupsOf(g, views, rows) && OneRowPerDomain(rows)
    ensures GetMembers(g.members, a) == GetMembers(g.members, b) <==> SameLabelCounts(views, rows, a, b)
  {
    var p, q := GetMembers(g.members, a), GetMembers(g.members, b);
    forall x
      ensures multiset(p)[x] == if Moves(rows, views.Keys, x) then LabelCount(views[x], a) else 0
      ensures multiset(q)[x] == if Moves(rows, views.Keys, x) then LabelCount(views[x], b) else 0
    {
      GroupTally(g, views, rows, a, x);
      GroupTally(g, views, rows, b, x);
    }
    if p == q {
      forall r | r in rows && Mover(r, views.Keys) ensures LabelCount(views[r.domain], a) == LabelCount(views[r.domain], b) {
        assert Moves(rows, views.Keys, r.domain);
      }
    }
    if SameLabelCounts(views, rows, a, b) {
      assert multiset(p) == multiset(q);
      GroupSorted(g, views, rows, a);
      GroupSorted(g, views, rows, b);
      Orders();
      SortedUnique(StrLe, p, q);
    }
  }

  lemma GroupSorted(g: Groups, views: map<string, DomainView>, rows: seq<ReportDomain>, key: DimKey)
    requires GroupsOf(g, views, rows)
    ensures Sorted(StrLe, GetMembers(g.members, key))
  {
    var d := DimsOf(views);
    assert GetMembers(g.members, key) == Sort(StrLe, Members(rows, d, key));
    Orders();
    SortSorts(StrLe, Members(rows, d, key));
  }

  // --- The clusters of a list ---

  ghost predicate SetsApart(out: seq<Cluster>) {
    forall i, j :: 0 <= i < j < |out| ==> MemberSet(out[i].domains) != MemberSet(out[j].domains)
  }

  ghost predicate Clustered(g: Groups, key: DimKey, minCluster: int, maxSpread: int)
    requires WellFormed(g)
  {
    key in g.members && Kept(g.members[key], g.deltas, minCluster, maxSpread)
  }

  /** Whenever the same movers carry two clustered values, each shows both under equally many labels. */
  ghost predicate CountsMatch(g: Groups, views: map<string, DomainView>, rows: seq<ReportDomain>, minCluster: int, maxSpread: int)
    requires WellFormed(g)
  {
    forall a, b | Clustered(g, a, minCluster, maxSpread) && Clustered(g, b, minCluster, maxSpread) ::
      SameCarriers(views, rows, a, b) ==> SameLabelCounts(views, rows, a, b)
  }

  lemma ListedUnder(out: seq<Cluster>, g: Groups, minCluster: int, maxSpread: int, i: nat)
    requires WellFormed(g) && ClusterList(out, g, minCluster, maxSpread) && i < |out|
    ensures exists key :: Clustered(g, key, minCluster, maxSpread) && g.members[key] == out[i].domains
  {
    assert ShapeOf(out[i]) in ClusterShapes(g, minCluster, maxSpread) by {
      assert out[i] in out;
    }
    var key :| key in g.members && Kept(g.members[key], g.deltas, minCluster, maxSpread)
      && ShapeOf(out[i]) == ShapeAmong(g, g.members.Keys, g.members[key]);
    assert Clustered(g, key, minCluster, maxSpread);
  }

  lemma ListedFor(out: seq<Cluster>, g: Groups, minCluster: int, maxSpread: int, key: DimKey)
    requires WellFormed(g) && ClusterList(out, g, minCluster, maxSpread) && Clustered(g, key, minCluster, maxSpread)
    ensures exists i :: 0 <= i < |out| && out[i].domains == g.members[key]
  {
    var shape := ShapeAmong(g, g.members.Keys, g.members[key]);
    assert shape in ClusterShapes(g, minCluster, maxSpread);
    var c :| c in out && ShapeOf(c) == shape;
    var i :| 0 <= i < |out| && out[i] == c;
    assert out[i].domains == g.members[key];
  }

  /** No two clusters of a list have the same member set if and only if movers that share two clustered values show
      both under equally many labels. */
  lemma SetsApartIff(out: seq<Cluster>, g: Groups, views: map<string, DomainView>, rows: seq<ReportDomain>,
                     minCluster: int, maxSpread: int)
    requires GroupsOf(g, views, rows) && WellFormed(g) && OneRowPerDomain(rows)
    requires ClusterList(out, g, minCluster, maxSpread)
    ensures SetsApart(out) <==> CountsMatch(g, views, rows, minCluster, maxSpread)
  {
    if CountsMatch(g, views, rows, minCluster, maxSpread) {
      forall i, j | 0 <= i < j < |out| ensures MemberSet(out[i].domains) != MemberSet(out[j].domains) {
        ListedUnder(out, g, minCluster, maxSpread, i);
        ListedUnder(out, g, minCluster, maxSpread, j);
        var a :| Clustered(g, a, minCluster, maxSpread) && g.members[a] == out[i].domains;
        var b :| Clustered(g, b, minCluster, maxSpread) && g.members[b] == out[j].domains;
        SetsEqualIff(g, views, rows, a, b);
        ListsEqualIff(g, views, rows, a, b);
      }
    }
    if SetsApart(out) {
      forall a, b | Clustered(g, a, minCluster, maxSpread) && Clustered(g, b, minCluster, maxSpread)
          && SameCarriers(views, rows, a, b)
        ensures SameLabelCounts(views, rows, a, b)
      {
        ListedFor(out, g, minCluster, maxSpread, a);
        ListedFor(out, g, minCluster, maxSpread, b);
        var i :| 0 <= i < |out| && out[i].domains == g.members[a];
        var j :| 0 <= j < |out| && out[j].domains == g.members[b];
        SetsEqualIff(g, views, rows, a, b);
        ListsEqualIff(g, views, rows, a, b);
        assert i == j;
      }
    }
  }

  /** One label per value in each mover's view is enough. */
  lemma SingleLabelsApart(out: seq<Cluster>, g: Groups, views: map<string, DomainView>, rows: seq<ReportDomain>,
                          minCluster: int, maxSpread: int)
    requires GroupsOf(g, views, rows) && WellFormed(g) && OneRowPerDomain(rows)
    requires ClusterList(out, g, minCluster, maxSpread)
    requires forall r, key :: r in rows && Mover(r, views.Keys) ==> !TwoLabels(views[r.domain], key)
    ensures SetsApart(out)
  {
    forall r, key | r in rows && Mover(r, views.Keys) ensures 0 <= LabelCount(views[r.domain], key) <= 1 {
      CarriesTwiceIff(views[r.domain], key);
      CarriesCounts(views[r.domain], key);
    }
    SetsApartIff(out, g, views, rows, minCluster, maxSpread);
  }

  // --- One mover, two clusters ---

  /** A mover alone that shows two values under different numbers of labels fills a cluster for each. */
  lemma OneMoverTwoClusters(g: Groups, views: map<string, DomainView>, row: ReportDomain, a: DimKey, b: DimKey)
    requires GroupsOf(g, views, [row]) && WellFormed(g) && Mover(row, views.Keys)
    requires LabelCount(views[row.domain], a) > LabelCount(views[row.domain], b) > 0
    ensures exists c, d ::
      && c in ClusterShapes(g, 1, 100) && d in ClusterShapes(g, 1, 100)
      && c.size == LabelCount(views[row.domain], a) && d.size == LabelCount(views[row.domain], b)
      && MemberSet(c.domains) == MemberSet(d.domains) == {row.domain}
  {
    var v := views[row.domain];
    CarriesCounts(v, a);
    CarriesCounts(v, b);
    OneMoverShape(g, views, row, a, 1, 100);
    OneMoverShape(g, views, row, b, 1, 100);
    RepeatSet(row.domain, LabelCount(v, a));
    RepeatSet(row.domain, LabelCount(v, b));
  }

  lemma RepeatSet(s: string, n: int)
    requires n > 0
    ensures |Repeat(s, n)| == n && MemberSet(Repeat(s, n)) == {s}
  {
    RepeatOnly(s, n);
    assert Repeat(s, n)[0] in Repeat(s, n);
  }

  /** Two addresses of one prefix in one autonomous system, named differently. */
  const TWO_NAMED := DomainView(None, "", "", [], [Address(Some(1), "x", "p"), Address(Some(1), "y", "p")], "", None, "", [])

  lemma TwoNamedCandidates()
    ensures Candidates(TWO_NAMED) == [DimValue(ASN, "1", "x"), DimValue(Prefix, "p", ""), DimValue(ASN, "1", "y"),
                                      DimValue(Prefix, "p", ""), DimValue(DNSSECPosture, "", ""), DimValue(SoftwareVersion, "", "")]
  {
    var rest := TWO_NAMED.addresses[1..];
    assert rest == [Address(Some(1), "y", "p")] && rest[1..] == [];
    assert AddressCandidates(rest) == [DimValue(ASN, Decimal(1), "y")] + [DimValue(Prefix, "p", "")] + [];
    assert Decimal(1) == "1";
  }

  lemma TwoNamedASN()
    ensures LabelCount(TWO_NAMED, DimKey(ASN, "1")) == 2
  {
    TwoNamedCandidates();
    var cs, key := Candidates(TWO_NAMED), DimKey(ASN, "1");
    assert KeyOf(cs[0]) == KeyOf(cs[2]) == key && cs[0].display == "x" && cs[2].display == "y";
    forall i | 0 <= i < 6 && KeyOf(cs[i]) == key ensures i == 0 || i == 2 {
      assert cs[i].dimension == ASN;
    }
    assert LabelsAmong(cs, key) == {"x", "y"};
    assert !IsSpace(key.value[0]);
  }

  lemma TwoNamedPrefix()
    ensures LabelCount(TWO_NAMED, DimKey(Prefix, "p")) == 1
  {
    TwoNamedCandidates();
    var cs, key := Candidates(TWO_NAMED), DimKey(Prefix, "p");
    assert KeyOf(cs[1]) == key;
    forall i | 0 <= i < 6 && KeyOf(cs[i]) == key ensures cs[i].display == "" {
      assert cs[i].dimension == Prefix;
    }
    assert LabelsAmong(cs, key) == {""};
    assert !IsSpace(key.value[0]);
  }

  /** At the loosest bounds a report of this one mover has a cluster of two and a cluster of one, of the same domain. */
  lemma SameSetTwice(g: Groups, row: ReportDomain)
    requires GroupsOf(g, map[row.domain := TWO_NAMED], [row]) && WellFormed(g) && Mover(row, {row.domain})
    ensures exists c, d ::
      && c in ClusterShapes(g, 1, 100) && d in ClusterShapes(g, 1, 100)
      && c.size == 2 && d.size == 1 && MemberSet(c.domains) == MemberSet(d.domains) == {row.domain}
  {
    var views := map[row.domain := TWO_NAMED];
    assert views.Keys == {row.domain};
    TwoNamedASN();
    TwoNamedPrefix();
    OneMoverTwoClusters(g, views, row, DimKey(ASN, "1"), DimKey(Prefix, "p"));
  }

  /** A list of clusters runs from the largest down, the tighter first among equals, then by first member. */
  lemma ClustersListed(out: seq<Cluster>, i: nat, j: nat)
    requires Sorted(ClusterLe, out) && i < j < |out|
    ensures
      var a, b := out[i], out[j];
      var spreadA, spreadB := a.maxDelta - a.minDelta, b.maxDelta - b.minDelta;
      && a.size >= b.size
      && (a.size == b.size ==> spreadA <= spreadB)
      && (a.size == b.size && spreadA == spreadB && a.domains != [] && b.domains != [] ==> StrLe(a.domains[0], b.domains[0]))
  {
    assert ClusterLe(out[i], out[j]);
  }

  /** Its dimensions run by name, then by value. */
  lemma DimensionsListed(dims: seq<ClusterDimension>, i: nat, j: nat)
    requires Sorted(DimensionLe, dims) && i < j < |dims|
    ensures
      var a, b := DimensionName(dims[i].dimension), DimensionName(dims[j].dimension);
      StrLe(a, b) && (a == b ==> StrLe(dims[i].value, dims[j].value))
  {
    var a, b := DimensionName(dims[i].dimension), DimensionName(dims[j].dimension);
    assert DimensionLe(dims[i], dims[j]);
    KeyLeTwo(a, dims[i].value, b, dims[j].value);
    StrLeReaches(a, b);
  }
}
