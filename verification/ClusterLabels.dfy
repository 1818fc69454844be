/** What labels do to clusters: a domain whose view shows one value under two labels is counted twice, and the label
    shown for a value depends on the order the views are read in. */
module ClusterLabels {
  import opened ClusterReport
  import opened Clusters
  import opened SnapshotViews
  import opened Sorting
  import opened Sums
  import opened Text

  // --- One value under two labels ---

  /** The view offers this dimension and value twice, under different labels. */
  ghost predicate TwoLabels(v: DomainView, key: DimKey) {
    !Blank(key.value) && exists a, b ::
      a in Candidates(v) && b in Candidates(v) && KeyOf(a) == key && KeyOf(b) == key && a.display != b.display
  }

  lemma {:induction false} CarriesTwice(dims: seq<DimValue>, key: DimKey)
    ensures Carries(dims, key) >= 0
    ensures Carries(dims, key) >= 1 <==> exists i :: 0 <= i < |dims| && KeyOf(dims[i]) == key
    ensures Carries(dims, key) >= 2 <==> exists i, j :: 0 <= i < j < |dims| && KeyOf(dims[i]) == key && KeyOf(dims[j]) == key
  {
    if dims != [] {
      var front, last := dims[..|dims| - 1], |dims| - 1;
      CarriesTwice(front, key);
      assert forall i :: 0 <= i < last ==> front[i] == dims[i];
      if Carries(front, key) >= 1 && KeyOf(dims[last]) == key {
        var i :| 0 <= i < |front| && KeyOf(front[i]) == key;
        assert KeyOf(dims[i]) == key && i < last;
      }
    }
  }

  /** A domain carries a key twice exactly when its view offers it under two labels: the duplicate check
      compares labels too. */
  lemma CarriesTwiceIff(v: DomainView, key: DimKey)
    ensures Carries(DimValues(v), key) >= 2 <==> TwoLabels(v, key)
  {
    if Carries(DimValues(v), key) >= 2 {
      TwiceHasTwoLabels(v, key);
    }
    if TwoLabels(v, key) {
      TwoLabelsTwice(v, key);
    }
  }

  lemma TwiceHasTwoLabels(v: DomainView, key: DimKey)
    requires Carries(DimValues(v), key) >= 2
    ensures TwoLabels(v, key)
  {
    var dims := DimValues(v);
    DeduplicatedExact(Candidates(v));
    CarriesTwice(dims, key);
    var i, j :| 0 <= i < j < |dims| && KeyOf(dims[i]) == key && KeyOf(dims[j]) == key;
    assert dims[i] in dims && dims[j] in dims && dims[i] != dims[j];
  }

  lemma TwoLabelsTwice(v: DomainView, key: DimKey)
    requires TwoLabels(v, key)
    ensures Carries(DimValues(v), key) >= 2
  {
    var dims := DimValues(v);
    DeduplicatedExact(Candidates(v));
    CarriesTwice(dims, key);
    var a, b :| a in Candidates(v) && b in Candidates(v) && KeyOf(a) == key && KeyOf(b) == key && a.display != b.display;
    assert a in dims && b in dims;
    var i :| 0 <= i < |dims| && dims[i] == a;
    var j :| 0 <= j < |dims| && dims[j] == b;
    assert i < j || j < i;
  }

  /** A member list names each domain once if and only if no mover shows the value under two labels. */
  lemma MembersDistinctIff(rows: seq<ReportDomain>, views: map<string, DomainView>, key: DimKey)
    requires OneRowPerDomain(rows)
    ensures Distinct(Members(rows, DimsOf(views), key)) <==>
      forall r :: r in rows && Mover(r, views.Keys) ==> !TwoLabels(views[r.domain], key)
  {
    var d := DimsOf(views);
    MembersOnceIff(rows, d, key);
    forall r | r in rows && Mover(r, views.Keys)
      ensures Carries(d[r.domain], key) <= 1 <==> !TwoLabels(views[r.domain], key)
    {
      CarriesTwiceIff(views[r.domain], key);
    }
  }

  /** Two addresses in one autonomous system, named differently, are enough. */
  lemma TwoNamesForOneASN(v: DomainView, i: nat, j: nat)
    requires i < j < |v.addresses| && v.addresses[i].asn.Some? && v.addresses[i].asn == v.addresses[j].asn
    requires v.addresses[i].asnLabel != v.addresses[j].asnLabel
    ensures TwoLabels(v, DimKey(ASN, Decimal(v.addresses[i].asn.value)))
  {
    var asn := v.addresses[i].asn.value;
    AddressOffers(v.addresses, i);
    AddressOffers(v.addresses, j);
    DecimalShows(asn);
    var a, b := DimValue(ASN, Decimal(asn), v.addresses[i].asnLabel), DimValue(ASN, Decimal(asn), v.addresses[j].asnLabel);
    assert a in Candidates(v) && b in Candidates(v);
    assert KeyOf(a) == KeyOf(b) == DimKey(ASN, Decimal(asn));
  }

  lemma {:induction false} AddressOffers(addresses: seq<Address>, i: nat)
    requires i < |addresses| && addresses[i].asn.Some?
    ensures DimValue(ASN, Decimal(addresses[i].asn.value), addresses[i].asnLabel) in AddressCandidates(addresses)
  {
    if i > 0 {
      AddressOffers(addresses[1..], i - 1);
    }
  }

  lemma DecimalShows(n: int)
    ensures !Blank(Decimal(n))
  {
    DigitsAreDigits(if n < 0 then -n else n);
    assert !IsSpace(Decimal(n)[0]);
  }

  lemma {:induction false} RepeatSorts(s: string, n: nat)
    ensures Sort(StrLe, Repeat(s, n)) == Repeat(s, n)
  {
    Orders();
    RepeatOnly(s, n);
    StrLeReaches(s, s);
    forall i | 0 <= i < |Repeat(s, n)| ensures Repeat(s, n)[i] == s {
      assert Repeat(s, n)[i] in Repeat(s, n);
    }
    SortSorts(StrLe, Repeat(s, n));
    SortedUnique(StrLe, Sort(StrLe, Repeat(s, n)), Repeat(s, n));
  }

  /** The only mover that carries a value is, as often as it carries it, a cluster by itself. */
  lemma OneMoverShape(g: Groups, views: map<string, DomainView>, row: ReportDomain, key: DimKey, minCluster: int, maxSpread: int)
    requires GroupsOf(g, views, [row]) && WellFormed(g) && Mover(row, views.Keys)
    requires Carries(DimValues(views[row.domain]), key) >= 1 && Carries(DimValues(views[row.domain]), key) >= minCluster
    requires maxSpread >= 0
    ensures exists c ::
      && c in ClusterShapes(g, minCluster, maxSpread)
      && c.domains == Repeat(row.domain, Carries(DimValues(views[row.domain]), key))
      && c.size == |c.domains|
  {
    var d := DimsOf(views);
    var n := Carries(d[row.domain], key);
    assert Members([], d, key) == [] && [row][..0] == [];
    assert Members([row], d, key) == [] + Repeat(row.domain, n) == Repeat(row.domain, n);
    RepeatOnly(row.domain, n);
    RepeatSorts(row.domain, n);
    assert GetMembers(g.members, key) == Sort(StrLe, Members([row], d, key));
    var ms := g.members[key];
    assert ms == Repeat(row.domain, n);
    forall i | 0 <= i < |ms| ensures ms[i] == row.domain {
      assert ms[i] in ms;
    }
    ExtremesExact(ms, g.deltas);
    assert Kept(ms, g.deltas, minCluster, maxSpread);
    assert ShapeAmong(g, g.members.Keys, ms) in ClusterShapes(g, minCluster, maxSpread);
  }

  /** The duplicates count towards the size: a single mover that shows a value under two labels fills a cluster
      of size two or more by itself. */
  lemma OneDomainFillsCluster(g: Groups, views: map<string, DomainView>, row: ReportDomain, key: DimKey)
    requires GroupsOf(g, views, [row]) && WellFormed(g) && Mover(row, views.Keys) && TwoLabels(views[row.domain], key)
    ensures exists c :: c in ClusterShapes(g, 2, 0) && c.size >= 2 && forall x :: x in c.domains ==> x == row.domain
  {
    CarriesTwiceIff(views[row.domain], key);
    OneMoverShape(g, views, row, key, 2, 0);
    RepeatOnly(row.domain, Carries(DimValues(views[row.domain]), key));
  }

  // --- Two builds of one report ---

  function Unlabelled(d: ClusterDimension): ClusterDimension {
    d.(display := "")
  }

  ghost function WithoutLabels(c: Shape): Shape {
    c.(dimensions := set d | d in c.dimensions :: Unlabelled(d))
  }

  /** Two builds from the same rows and views agree on everything but the labels. */
  lemma BuildsAgree(g: Groups, h: Groups, views: map<string, DomainView>, rows: seq<ReportDomain>)
    requires GroupsOf(g, views, rows) && GroupsOf(h, views, rows)
    ensures g.deltas == h.deltas && g.members == h.members
    ensures forall key :: Unlabelled(DimensionAt(g, key)) == Unlabelled(DimensionAt(h, key))
  {
    forall key ensures GetMembers(g.members, key) == GetMembers(h.members, key) && CountAt(g.totals, key) == CountAt(h.totals, key) {
      assert GetMembers(g.members, key) == Sort(StrLe, Members(rows, DimsOf(views), key));
      assert CountAt(g.totals, key) == Total(CarriedBy(DimsOf(views), key)) == CountAt(h.totals, key);
    }
    forall key ensures key in g.members <==> key in h.members {
      assert GetMembers(g.members, key) == GetMembers(h.members, key);
    }
    forall key | key in g.members ensures g.members[key] == h.members[key] {
      assert GetMembers(g.members, key) == GetMembers(h.members, key);
    }
  }

  lemma ShapeAgrees(g: Groups, h: Groups, views: map<string, DomainView>, rows: seq<ReportDomain>, ms: seq<string>)
    requires GroupsOf(g, views, rows) && GroupsOf(h, views, rows) && ms != [] && Known(ms, g.deltas) && Known(ms, h.deltas)
    ensures WithoutLabels(ShapeAmong(g, g.members.Keys, ms)) == WithoutLabels(ShapeAmong(h, h.members.Keys, ms))
  {
    BuildsAgree(g, h, views, rows);
    var a, b := ShapeAmong(g, g.members.Keys, ms), ShapeAmong(h, h.members.Keys, ms);
    forall x ensures x in WithoutLabels(a).dimensions <==> x in WithoutLabels(b).dimensions {
      if x in WithoutLabels(a).dimensions {
        var key :| key in g.members && g.members[key] == ms && x == Unlabelled(DimensionAt(g, key));
        assert DimensionAt(h, key) in b.dimensions;
      }
      if x in WithoutLabels(b).dimensions {
        var key :| key in h.members && h.members[key] == ms && x == Unlabelled(DimensionAt(h, key));
        assert DimensionAt(g, key) in a.dimensions;
      }
    }
  }

  ghost function BareShapes(g: Groups, minCluster: int, maxSpread: int): set<Shape>
    requires WellFormed(g)
  {
    set c | c in ClusterShapes(g, minCluster, maxSpread) :: WithoutLabels(c)
  }

  /** Whatever labels two builds choose, their clusters are the same but for the labels. */
  lemma ShapesUpToLabels(g: Groups, h: Groups, views: map<string, DomainView>, rows: seq<ReportDomain>, minCluster: int, maxSpread: int)
    requires GroupsOf(g, views, rows) && GroupsOf(h, views, rows) && WellFormed(g) && WellFormed(h)
    ensures BareShapes(g, minCluster, maxSpread) == BareShapes(h, minCluster, maxSpread)
  {
    BuildsAgree(g, h, views, rows);
    forall x | x in BareShapes(g, minCluster, maxSpread) ensures x in BareShapes(h, minCluster, maxSpread) {
      BareShapeFound(g, h, views, rows, minCluster, maxSpread, x);
    }
    forall x | x in BareShapes(h, minCluster, maxSpread) ensures x in BareShapes(g, minCluster, maxSpread) {
      BareShapeFound(h, g, views, rows, minCluster, maxSpread, x);
    }
  }

  lemma BareShapeFound(g: Groups, h: Groups, views: map<string, DomainView>, rows: seq<ReportDomain>,
                       minCluster: int, maxSpread: int, x: Shape)
    requires GroupsOf(g, views, rows) && GroupsOf(h, views, rows) && WellFormed(g) && WellFormed(h)
    requires x in BareShapes(g, minCluster, maxSpread)
    ensures x in BareShapes(h, minCluster, maxSpread)
  {
    BuildsAgree(g, h, views, rows);
    var key :| key in g.members && Kept(g.members[key], g.deltas, minCluster, maxSpread)
      && x == WithoutLabels(ShapeAmong(g, g.members.Keys, g.members[key]));
    ShapeAgrees(g, h, views, rows, g.members[key]);
    assert ShapeAmong(h, h.members.Keys, h.members[key]) in ClusterShapes(h, minCluster, maxSpread);
  }

  /** This is the label some domain leaves for the value: the last one its view shows that is not empty. */
  ghost predicate Leaves(views: map<string, DomainView>, key: DimKey, display: string) {
    exists name :: name in views && LastLabel(DimValues(views[name]), key) == Some(display)
  }

  /** No two domains leave different labels for a value that a cluster names. */
  ghost predicate LabelsSettled(g: Groups, views: map<string, DomainView>, minCluster: int, maxSpread: int)
    requires WellFormed(g)
  {
    forall key, a, b | key in g.members && Kept(g.members[key], g.deltas, minCluster, maxSpread) ::
      Leaves(views, key, a) && Leaves(views, key, b) ==> a == b
  }

  lemma {:induction false} LabelRead(d: map<string, seq<DimValue>>, order: seq<string>, key: DimKey)
    requires forall name :: name in order ==> name in d
    ensures LabelIn(d, order, key).None? <==> forall name :: name in order ==> LastLabel(d[name], key).None?
    ensures LabelIn(d, order, key).Some? ==> exists name :: name in order && LastLabel(d[name], key) == LabelIn(d, order, key)
  {
    if order != [] {
      var front, last := order[..|order| - 1], order[|order| - 1];
      assert order == front + [last];
      LabelRead(d, front, key);
    }
  }

  /** The label of a value is one that some domain leaves, and every value with such a label has one. */
  lemma LabelLeft(g: Groups, views: map<string, DomainView>, rows: seq<ReportDomain>, key: DimKey)
    requires GroupsOf(g, views, rows)
    ensures key in g.labels ==> Leaves(views, key, g.labels[key])
    ensures forall display :: Leaves(views, key, display) ==> key in g.labels
  {
    var d := DimsOf(views);
    var order :| LabelsRead(g.labels, d, order);
    LabelRead(d, order, key);
    assert LabelAt(g.labels, key) == LabelIn(d, order, key);
    forall name | name in views ensures name in order && d[name] == DimValues(views[name]) {}
  }

  lemma SettledDimension(g: Groups, h: Groups, views: map<string, DomainView>, rows: seq<ReportDomain>,
                         minCluster: int, maxSpread: int, key: DimKey)
    requires GroupsOf(g, views, rows) && GroupsOf(h, views, rows) && WellFormed(g)
    requires LabelsSettled(g, views, minCluster, maxSpread)
    requires key in g.members && Kept(g.members[key], g.deltas, minCluster, maxSpread)
    ensures DimensionAt(g, key) == DimensionAt(h, key)
  {
    BuildsAgree(g, h, views, rows);
    LabelLeft(g, views, rows, key);
    LabelLeft(h, views, rows, key);
    assert Unlabelled(DimensionAt(g, key)) == Unlabelled(DimensionAt(h, key));
  }

  lemma SettledShape(g: Groups, h: Groups, views: map<string, DomainView>, rows: seq<ReportDomain>,
                     minCluster: int, maxSpread: int, key: DimKey)
    requires GroupsOf(g, views, rows) && GroupsOf(h, views, rows) && WellFormed(g) && WellFormed(h)
    requires LabelsSettled(g, views, minCluster, maxSpread)
    requires key in g.members && Kept(g.members[key], g.deltas, minCluster, maxSpread)
    ensures key in h.members && ShapeAmong(g, g.members.Keys, g.members[key]) == ShapeAmong(h, h.members.Keys, h.members[key])
  {
    BuildsAgree(g, h, views, rows);
    var ms := g.members[key];
    forall k | k in g.members && g.members[k] == ms ensures DimensionAt(g, k) == DimensionAt(h, k) {
      SettledDimension(g, h, views, rows, minCluster, maxSpread, k);
    }
    assert DimensionsWith(g, g.members.Keys, ms) == DimensionsWith(h, h.members.Keys, ms);
  }

  lemma {:induction false} Enumerated(names: set<string>) returns (order: seq<string>)
    ensures Distinct(order) && forall name :: name in order <==> name in names
  {
    order := [];
    if name :| name in names {
      var rest := Enumerated(names - {name});
      order := rest + [name];
    }
  }

  lemma {:induction false} DomainRead(dims: seq<DimValue>, labels0: map<DimKey, string>) returns (labels: map<DimKey, string>)
    ensures Relabels(labels, labels0, dims)
  {
    labels := labels0;
    if dims != [] {
      var dv := dims[|dims| - 1];
      labels := DomainRead(dims[..|dims| - 1], labels0);
      if dv.display != "" {
        labels := labels[KeyOf(dv) := dv.display];
      }
    }
  }

  lemma {:induction false} AllRead(d: map<string, seq<DimValue>>, order: seq<string>) returns (labels: map<DimKey, string>)
    requires forall name :: name in order ==> name in d
    ensures forall key :: LabelAt(labels, key) == LabelIn(d, order, key)
  {
    labels := map[];
    if order != [] {
      labels := AllRead(d, order[..|order| - 1]);
      labels := DomainRead(d[order[|order| - 1]], labels);
    }
  }

  /** The domain read last decides, and any can be. */
  lemma LastReadStays(d: map<string, seq<DimValue>>, name: string, key: DimKey)
    requires name in d && LastLabel(d[name], key).Some?
    ensures exists labels :: ValidLabels(labels, d) && LabelAt(labels, key) == LastLabel(d[name], key)
  {
    var before := Enumerated(d.Keys - {name});
    var order := before + [name];
    var labels := AllRead(d, order);
    assert LabelsRead(labels, d, order);
    assert LabelAt(labels, key) == LabelIn(d, order, key) == LastLabel(d[name], key);
  }

  /** Any label some domain leaves for a value is the one some build shows. */
  lemma ReadLast(views: map<string, DomainView>, key: DimKey, display: string)
    requires Leaves(views, key, display)
    ensures exists labels :: ValidLabels(labels, DimsOf(views)) && LabelAt(labels, key) == Some(display)
  {
    var name :| name in views && LastLabel(DimValues(views[name]), key) == Some(display);
    LastReadStays(DimsOf(views), name, key);
  }

  /** Every build of the report shows the clusters of this one, labels included. */
  ghost predicate SameEverywhere(g: Groups, views: map<string, DomainView>, rows: seq<ReportDomain>, minCluster: int, maxSpread: int)
    requires WellFormed(g)
  {
    forall h :: GroupsOf(h, views, rows) && WellFormed(h) ==>
      ClusterShapes(h, minCluster, maxSpread) == ClusterShapes(g, minCluster, maxSpread)
  }

  /** A key kept in a cluster for which domains leave two labels: another build shows the other one. */
  lemma OtherLabel(g: Groups, views: map<string, DomainView>, rows: seq<ReportDomain>, minCluster: int, maxSpread: int,
                   key: DimKey, display: string)
    requires GroupsOf(g, views, rows) && WellFormed(g)
    requires key in g.members && Kept(g.members[key], g.deltas, minCluster, maxSpread)
    requires Leaves(views, key, display) && LabelAt(g.labels, key) != Some(display)
    ensures !SameEverywhere(g, views, rows, minCluster, maxSpread)
  {
    ReadLast(views, key, display);
    LabelLeft(g, views, rows, key);
    var labels :| ValidLabels(labels, DimsOf(views)) && LabelAt(labels, key) == Some(display);
    OtherBuild(g, views, rows, minCluster, maxSpread, key, labels);
  }

  lemma OtherBuild(g: Groups, views: map<string, DomainView>, rows: seq<ReportDomain>, minCluster: int, maxSpread: int,
                   key: DimKey, labels: map<DimKey, string>)
    requires GroupsOf(g, views, rows) && WellFormed(g) && ValidLabels(labels, DimsOf(views))
    requires key in g.members && Kept(g.members[key], g.deltas, minCluster, maxSpread)
    requires key in g.labels && key in labels && labels[key] != g.labels[key]
    ensures !SameEverywhere(g, views, rows, minCluster, maxSpread)
  {
    var h := g.(labels := labels);
    assert GroupsOf(h, views, rows);
    DimensionGone(g, h, minCluster, maxSpread, key);
  }

  lemma DimensionGone(g: Groups, h: Groups, minCluster: int, maxSpread: int, key: DimKey)
    requires WellFormed(g) && WellFormed(h) && key in g.members && Kept(g.members[key], g.deltas, minCluster, maxSpread)
    requires DimensionAt(h, key) != DimensionAt(g, key)
    ensures ClusterShapes(h, minCluster, maxSpread) != ClusterShapes(g, minCluster, maxSpread)
  {
    var c := ShapeAmong(g, g.members.Keys, g.members[key]);
    assert c in ClusterShapes(g, minCluster, maxSpread) && DimensionAt(g, key) in c.dimensions;
    forall s | s in ClusterShapes(h, minCluster, maxSpread) ensures DimensionAt(g, key) !in s.dimensions {
      var other :| other in h.members && Kept(h.members[other], h.deltas, minCluster, maxSpread)
        && s == ShapeAmong(h, h.members.Keys, h.members[other]);
      forall k ensures DimensionAt(h, k) != DimensionAt(g, key) {
        assert k != key ==> k.dimension != key.dimension || k.value != key.value;
      }
    }
  }

  /** All builds of a report at these bounds show the same clusters, labels included, if and only if no two domains
      leave different labels for a value that a cluster names. */
  lemma ShapesEqualIff(g: Groups, views: map<string, DomainView>, rows: seq<ReportDomain>, minCluster: int, maxSpread: int)
    requires GroupsOf(g, views, rows) && WellFormed(g)
    ensures LabelsSettled(g, views, minCluster, maxSpread) <==> SameEverywhere(g, views, rows, minCluster, maxSpread)
  {
    if LabelsSettled(g, views, minCluster, maxSpread) {
      forall h | GroupsOf(h, views, rows) && WellFormed(h)
        ensures ClusterShapes(h, minCluster, maxSpread) == ClusterShapes(g, minCluster, maxSpread)
      {
        SettledShapes(g, h, views, rows, minCluster, maxSpread);
      }
    } else {
      var key, a, b :| key in g.members && Kept(g.members[key], g.deltas, minCluster, maxSpread)
        && Leaves(views, key, a) && Leaves(views, key, b) && a != b;
      OtherLabel(g, views, rows, minCluster, maxSpread, key, if key in g.labels && g.labels[key] == a then b else a);
    }
  }

  lemma SettledShapes(g: Groups, h: Groups, views: map<string, DomainView>, rows: seq<ReportDomain>, minCluster: int, maxSpread: int)
    requires GroupsOf(g, views, rows) && GroupsOf(h, views, rows) && WellFormed(g) && WellFormed(h)
    requires LabelsSettled(g, views, minCluster, maxSpread)
    ensures ClusterShapes(h, minCluster, maxSpread) == ClusterShapes(g, minCluster, maxSpread)
  {
    BuildsAgree(g, h, views, rows);
    forall key | key in g.members && Kept(g.members[key], g.deltas, minCluster, maxSpread)
      ensures ShapeAmong(g, g.members.Keys, g.members[key]) == ShapeAmong(h, h.members.Keys, h.members[key])
    {
      SettledShape(g, h, views, rows, minCluster, maxSpread, key);
    }
  }
}
