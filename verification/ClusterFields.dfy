/** What a view's own fields say about clusters: which values it carries, under which labels, and that movers sharing
    one of them are reported together. */
module ClusterFields {
  import opened ClusterLabels
  import opened ClusterReport
  import opened ClusterSets
  import opened Clusters
  import opened Numbers
  import opened SnapshotViews
  import opened Sorting
  import opened Sums
  import opened Text

  // --- The values of a view ---

  /** The view's fields show the value under this label. */
  ghost predicate Shows(v: DomainView, key: DimKey, display: string) {
    match key.dimension
    case Nameserver => key.value in v.nameservers && display == ""
    case ASN => exists a :: a in v.addresses && a.asn.Some? && key.value == Decimal(a.asn.value) && display == a.asnLabel
    case Prefix => display == "" && exists a :: a in v.addresses && key.value == a.prefix
    case DNSSECPosture => key.value == v.dnssecPosture && display == ""
    case DNSKEYAlgoWeakest =>
      v.algoWeakest.Some? && key.value == Decimal(v.algoWeakest.value.number) && display == v.algoWeakest.value.display
    case SoftwareVersion => key.value == v.softwareVersion && display == ""
  }

  ghost predicate AddressShows(a: Address, key: DimKey, display: string) {
    || (key.dimension == ASN && a.asn.Some? && key.value == Decimal(a.asn.value) && display == a.asnLabel)
    || (key.dimension == Prefix && key.value == a.prefix && display == "")
  }

  lemma {:induction false} AddressesShow(addresses: seq<Address>, key: DimKey, display: string)
    ensures DimValue(key.dimension, key.value, display) in AddressCandidates(addresses) <==>
      exists a :: a in addresses && AddressShows(a, key, display)
  {
    if addresses != [] {
      var a, rest := addresses[0], addresses[1..];
      AddressesShow(rest, key, display);
      assert addresses == [a] + rest;
      var dv := DimValue(key.dimension, key.value, display);
      var here := (if a.asn.Some? then [DimValue(ASN, Decimal(a.asn.value), a.asnLabel)] else []) + [DimValue(Prefix, a.prefix, "")];
      assert AddressCandidates(addresses) == here + AddressCandidates(rest);
      assert dv in here <==> AddressShows(a, key, display);
    }
  }

  /** The candidates are exactly what the fields show. */
  lemma CandidatesExact(v: DomainView, key: DimKey, display: string)
    ensures DimValue(key.dimension, key.value, display) in Candidates(v) <==> Shows(v, key, display)
  {
    var dv := DimValue(key.dimension, key.value, display);
    AddressesShow(v.addresses, key, display);
    var names := seq(|v.nameservers|, i requires 0 <= i < |v.nameservers| => DimValue(Nameserver, v.nameservers[i], ""));
    assert dv in names <==> key.dimension == Nameserver && key.value in v.nameservers && display == "" by {
      if i :| 0 <= i < |v.nameservers| && v.nameservers[i] == key.value {
        assert names[i] == DimValue(Nameserver, key.value, "");
      }
    }
  }

  /** A view carries a value, whichever dimension it is in, if and only if it is not blank and the view's fields show
      it; it carries it once per label they show. */
  lemma CarriedIff(v: DomainView, key: DimKey)
    ensures Carries(DimValues(v), key) > 0 <==> !Blank(key.value) && exists display :: Shows(v, key, display)
    ensures !Blank(key.value) ==> forall display :: display in LabelsAmong(Candidates(v), key) <==> Shows(v, key, display)
  {
    var labels := LabelsAmong(Candidates(v), key);
    forall display ensures display in labels <==> Shows(v, key, display) {
      CandidatesExact(v, key, display);
      assert KeyOf(DimValue(key.dimension, key.value, display)) == key;
      if display in labels {
        var dv :| dv in Candidates(v) && KeyOf(dv) == key && dv.display == display;
        assert dv == DimValue(key.dimension, key.value, display);
      }
    }
    CarriesCounts(v, key);
    if |labels| > 0 {
      var display :| display in labels;
    }
    if display :| display in labels {
      assert |labels| >= |{display}|;
    }
  }

  /** A nameserver is carried once by the views that list it. */
  lemma NameserverCarried(v: DomainView, ns: string)
    requires !Blank(ns)
    ensures Carries(DimValues(v), DimKey(Nameserver, ns)) == if ns in v.nameservers then 1 else 0
  {
    var key := DimKey(Nameserver, ns);
    CarriedIff(v, key);
    CarriesCounts(v, key);
    var labels := LabelsAmong(Candidates(v), key);
    assert labels == if ns in v.nameservers then {""} else {};
  }

  // --- Movers that share a nameserver ---

  ghost function Sharing(views: map<string, DomainView>, ns: string): set<string> {
    set name | name in views && ns in views[name].nameservers
  }

  /** The movers among them. */
  ghost function SharingMovers(rows: seq<ReportDomain>, views: map<string, DomainView>, ns: string): set<string> {
    set r | r in rows && r.scoreDelta.Some? && r.scoreDelta.value != 0 && r.domain in Sharing(views, ns) :: r.domain
  }

  /** They all moved the same way, and no two of them by more than maxSpread apart. */
  ghost predicate MovedTogether(rows: seq<ReportDomain>, names: set<string>, maxSpread: int) {
    forall a, b :: a in rows && b in rows && a.domain in names && b.domain in names && a.scoreDelta.Some? && b.scoreDelta.Some? ==>
      (a.scoreDelta.value > 0 <==> b.scoreDelta.value > 0) && a.scoreDelta.value - b.scoreDelta.value <= maxSpread
  }

  lemma {:induction false} DeltaOfRow(rows: seq<ReportDomain>, names: set<string>, x: string)
    requires OneRowPerDomain(rows)
    ensures x in Deltas(rows, names) <==> Moves(rows, names, x)
    ensures forall r :: r in rows && Mover(r, names) ==>
      r.domain in Deltas(rows, names) && Deltas(rows, names)[r.domain] == r.scoreDelta.value
  {
    if rows != [] {
      var front, row := rows[..|rows| - 1], rows[|rows| - 1];
      assert rows == front + [row];
      DeltaOfRow(front, names, x);
      forall r | r in front ensures r.domain != row.domain {}
      assert Moves(rows, names, x) <==> Moves(front, names, x) || (Mover(row, names) && row.domain == x);
    }
  }

  /** The group of a nameserver: its movers, each once. */
  lemma NameserverGroup(g: Groups, views: map<string, DomainView>, rows: seq<ReportDomain>, ns: string)
    requires GroupsOf(g, views, rows) && OneRowPerDomain(rows) && !Blank(ns)
    ensures
      var ms := GetMembers(g.members, DimKey(Nameserver, ns));
      MemberSet(ms) == SharingMovers(rows, views, ns) && |ms| == |SharingMovers(rows, views, ns)|
  {
    var key := DimKey(Nameserver, ns);
    var ms, names := GetMembers(g.members, key), SharingMovers(rows, views, ns);
    forall x ensures multiset(ms)[x] == if x in names then 1 else 0 {
      GroupTally(g, views, rows, key, x);
      if Moves(rows, views.Keys, x) {
        NameserverCarried(views[x], ns);
        CarriesCounts(views[x], key);
      }
    }
    assert multiset(ms) == multiset(names);
    ListsDistinct(ms, names);
  }

  /** The total next to it: every domain that lists it, moved or not. */
  lemma NameserverTotal(g: Groups, views: map<string, DomainView>, rows: seq<ReportDomain>, ns: string)
    requires GroupsOf(g, views, rows) && !Blank(ns)
    ensures CountAt(g.totals, DimKey(Nameserver, ns)) == |Sharing(views, ns)|
  {
    var key := DimKey(Nameserver, ns);
    var carried := CarriedBy(DimsOf(views), key);
    forall name | name in carried ensures carried[name] == if name in Sharing(views, ns) then 1 else 0 {
      NameserverCarried(views[name], ns);
    }
    TotalOfOnes(carried, Sharing(views, ns));
  }

  /** Nameservers are never labelled. */
  lemma NameserverUnlabelled(g: Groups, views: map<string, DomainView>, rows: seq<ReportDomain>, ns: string)
    requires GroupsOf(g, views, rows)
    ensures DimKey(Nameserver, ns) !in g.labels
  {
    var key := DimKey(Nameserver, ns);
    LabelLeft(g, views, rows, key);
    if key in g.labels {
      var name :| name in views && LastLabel(DimValues(views[name]), key) == Some(g.labels[key]);
      var dims := DimValues(views[name]);
      LastLabelExact(dims, key);
      var i :| 0 <= i < |dims| && LabelsLast(dims, key, i) && dims[i].display == g.labels[key];
      DeduplicatedExact(Candidates(views[name]));
      assert dims[i] in dims && dims[i] == DimValue(Nameserver, ns, dims[i].display);
      CandidatesExact(views[name], key, dims[i].display);
      assert false;
    }
  }

  lemma {:induction false} TotalOfOnes(m: map<string, int>, names: set<string>)
    requires names <= m.Keys && forall k :: k in m ==> m[k] == if k in names then 1 else 0
    ensures Total(m) == |names|
  {
    if m != map[] {
      var k :| k in m;
      TotalRemove(m, k);
      TotalOfOnes(m - {k}, names - {k});
    }
  }

  lemma GroupKept(g: Groups, views: map<string, DomainView>, rows: seq<ReportDomain>, key: DimKey, minCluster: int, maxSpread: int)
    requires GroupsOf(g, views, rows) && WellFormed(g) && OneRowPerDomain(rows) && key in g.members
    requires |g.members[key]| >= minCluster && MovedTogether(rows, MemberSet(g.members[key]), maxSpread)
    ensures Kept(g.members[key], g.deltas, minCluster, maxSpread)
  {
    var ms := g.members[key];
    forall i | 0 <= i < |ms|
      ensures exists r :: r in rows && Mover(r, views.Keys) && r.domain == ms[i] && r.scoreDelta.value == g.deltas[ms[i]]
    {
      DeltaOfRow(rows, views.Keys, ms[i]);
    }
    forall i, j | 0 <= i < |ms| && 0 <= j < |ms|
      ensures (g.deltas[ms[i]] > 0 <==> g.deltas[ms[j]] > 0) && g.deltas[ms[i]] - g.deltas[ms[j]] <= maxSpread
    {
      var a :| a in rows && Mover(a, views.Keys) && a.domain == ms[i] && a.scoreDelta.value == g.deltas[ms[i]];
      var b :| b in rows && Mover(b, views.Keys) && b.domain == ms[j] && b.scoreDelta.value == g.deltas[ms[j]];
    }
    ExtremesExact(ms, g.deltas);
  }

  /** Movers that share a nameserver, moved the same way within the spread and are numerous enough make up a listed
      cluster that names it, next to the number of all domains listing it. */
  lemma SharedNameserverListed(out: seq<Cluster>, g: Groups, views: map<string, DomainView>, rows: seq<ReportDomain>,
                               ns: string, minCluster: int, maxSpread: int)
    requires GroupsOf(g, views, rows) && WellFormed(g) && OneRowPerDomain(rows)
    requires ClusterList(out, g, minCluster, maxSpread) && !Blank(ns)
    requires
      var names := SharingMovers(rows, views, ns);
      names != {} && |names| >= minCluster && MovedTogether(rows, names, maxSpread)
    ensures exists c ::
      && c in out && c.size == |SharingMovers(rows, views, ns)| && MemberSet(c.domains) == SharingMovers(rows, views, ns)
      && ClusterDimension(Nameserver, ns, "", |Sharing(views, ns)|) in c.dimensions
  {
    var key := DimKey(Nameserver, ns);
    NameserverGroup(g, views, rows, ns);
    NameserverTotal(g, views, rows, ns);
    NameserverUnlabelled(g, views, rows, ns);
    assert key in g.members;
    GroupKept(g, views, rows, key, minCluster, maxSpread);
    var shape := ShapeAmong(g, g.members.Keys, g.members[key]);
    assert shape in ClusterShapes(g, minCluster, maxSpread) && DimensionAt(g, key) in shape.dimensions;
    var c :| c in out && ShapeOf(c) == shape;
  }
}
