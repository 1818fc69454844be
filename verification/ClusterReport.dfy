/** Building, filtering and reading the report's clusters. */
module ClusterReport {
  import opened Numbers
  import opened Sums
  import opened Sorting
  import opened Text
  import opened SnapshotViews
  import opened Clusters

  /** What the clusters of one report are made of: each key's sorted members, the movers' deltas,
      how many domains carry each key, and the chosen labels. */
  datatype Groups = Groups(
    members: map<DimKey, seq<string>>, deltas: map<string, int>, totals: map<DimKey, int>, labels: map<DimKey, string>)

  /** A cluster with its dimension list as a set. */
  datatype Shape = Shape(
    dimensions: set<ClusterDimension>, domains: seq<string>, size: int, minDelta: int, maxDelta: int, direction: Direction)

  function ShapeOf(c: Cluster): Shape {
    Shape((set x | x in c.dimensions), c.domains, c.size, c.minDelta, c.maxDelta, c.direction)
  }

  ghost predicate Known(ms: seq<string>, deltas: map<string, int>) {
    forall i :: 0 <= i < |ms| ==> ms[i] in deltas
  }

  ghost function Lowest(ms: seq<string>, deltas: map<string, int>): int
    requires ms != [] && Known(ms, deltas)
  {
    if |ms| == 1 then deltas[ms[0]] else Min(Lowest(ms[..|ms| - 1], deltas), deltas[ms[|ms| - 1]])
  }

  ghost function Highest(ms: seq<string>, deltas: map<string, int>): int
    requires ms != [] && Known(ms, deltas)
  {
    if |ms| == 1 then deltas[ms[0]] else Max(Highest(ms[..|ms| - 1], deltas), deltas[ms[|ms| - 1]])
  }

  /** All members moved the same way. */
  ghost predicate OneWay(ms: seq<string>, deltas: map<string, int>)
    requires Known(ms, deltas)
  {
    forall i, j :: 0 <= i < |ms| && 0 <= j < |ms| ==> (deltas[ms[i]] > 0 <==> deltas[ms[j]] > 0)
  }

  lemma {:induction false} ExtremesExact(ms: seq<string>, deltas: map<string, int>)
    requires ms != [] && Known(ms, deltas)
    ensures forall i :: 0 <= i < |ms| ==> Lowest(ms, deltas) <= deltas[ms[i]] <= Highest(ms, deltas)
    ensures exists i :: 0 <= i < |ms| && deltas[ms[i]] == Lowest(ms, deltas)
    ensures exists i :: 0 <= i < |ms| && deltas[ms[i]] == Highest(ms, deltas)
  {
    if |ms| > 1 {
      var front := ms[..|ms| - 1];
      ExtremesExact(front, deltas);
      var i :| 0 <= i < |front| && deltas[front[i]] == Lowest(front, deltas);
      var j :| 0 <= j < |front| && deltas[front[j]] == Highest(front, deltas);
      assert ms[i] == front[i] && ms[j] == front[j];
      forall k | 0 <= k < |ms| ensures Lowest(ms, deltas) <= deltas[ms[k]] <= Highest(ms, deltas) {
        if k < |front| {
          assert ms[k] == front[k];
        }
      }
      assert ms[|ms| - 1] in deltas;
    } else {
      assert deltas[ms[0]] == Lowest(ms, deltas) == Highest(ms, deltas);
    }
  }

  /** The scan over one group; it stops at the first member that moved the other way. */
  method Extremes(ms: seq<string>, deltas: map<string, int>) returns (sameDirection: bool, minDelta: int, maxDelta: int)
    requires ms != [] && Known(ms, deltas)
    ensures sameDirection == OneWay(ms, deltas)
    ensures sameDirection ==> minDelta == Lowest(ms, deltas) && maxDelta == Highest(ms, deltas)
  {
    minDelta, maxDelta := deltas[ms[0]], deltas[ms[0]];
    assert ms[..1] == [ms[0]];
    for i := 0 to |ms|
      invariant i == 0 ==> minDelta == maxDelta == deltas[ms[0]]
      invariant i > 0 ==> minDelta == Lowest(ms[..i], deltas) && maxDelta == Highest(ms[..i], deltas)
      invariant forall j :: 0 <= j < i ==> (deltas[ms[j]] > 0 <==> minDelta > 0)
      invariant minDelta > 0 <==> deltas[ms[0]] > 0
    {
      var d := deltas[ms[i]];
      if (d > 0) != (minDelta > 0) {
        return false, minDelta, maxDelta;
      }
      assert ms[..i + 1][..i] == ms[..i];
      minDelta := Min(minDelta, d);
      maxDelta := Max(maxDelta, d);
    }
    assert ms[..|ms|] == ms;
    sameDirection := true;
  }

  ghost predicate WellFormed(g: Groups) {
    forall key :: key in g.members ==> g.members[key] != [] && Known(g.members[key], g.deltas)
  }

  /** A group is kept when it is large enough, moved one way and stayed within the spread. */
  ghost predicate Kept(ms: seq<string>, deltas: map<string, int>, minCluster: int, maxSpread: int)
    requires ms != [] && Known(ms, deltas)
  {
    |ms| >= minCluster && OneWay(ms, deltas) && Highest(ms, deltas) - Lowest(ms, deltas) <= maxSpread
  }

  function DimensionAt(g: Groups, key: DimKey): ClusterDimension {
    ClusterDimension(key.dimension, key.value, if key in g.labels then g.labels[key] else "", CountAt(g.totals, key))
  }

  /** Every dimension value whose members are exactly ms. */
  ghost function DimensionsWith(g: Groups, among: set<DimKey>, ms: seq<string>): set<ClusterDimension> {
    set key | key in among && key in g.members && g.members[key] == ms :: DimensionAt(g, key)
  }

  ghost function ShapeAmong(g: Groups, among: set<DimKey>, ms: seq<string>): Shape
    requires ms != [] && Known(ms, g.deltas)
  {
    var lo := Lowest(ms, g.deltas);
    Shape(DimensionsWith(g, among, ms), ms, |ms|, lo, Highest(ms, g.deltas), if lo > 0 then Improved else Regressed)
  }

  /** The clusters of a report: one per distinct kept member list, naming every value that produced it. */
  ghost function ClusterShapes(g: Groups, minCluster: int, maxSpread: int): set<Shape>
    requires WellFormed(g)
  {
    set key | key in g.members && Kept(g.members[key], g.deltas, minCluster, maxSpread)
      :: ShapeAmong(g, g.members.Keys, g.members[key])
  }

  /** Building at the loosest bounds and filtering gives the clusters of a direct build. The handler
      builds once at (1, 100), caches, and filters per request; parameters stop at 100. */
  lemma FilterLooseEqualsFresh(g: Groups, minCluster: int, maxSpread: int)
    requires WellFormed(g) && maxSpread <= 100
    ensures ClusterShapes(g, minCluster, maxSpread)
         == set c | c in ClusterShapes(g, 1, 100) && c.size >= minCluster && c.maxDelta - c.minDelta <= maxSpread
  {
    var direct, loose := ClusterShapes(g, minCluster, maxSpread), ClusterShapes(g, 1, 100);
    forall c | c in direct ensures c in loose && c.size >= minCluster && c.maxDelta - c.minDelta <= maxSpread {
      var key :| key in g.members && Kept(g.members[key], g.deltas, minCluster, maxSpread)
        && c == ShapeAmong(g, g.members.Keys, g.members[key]);
      assert Kept(g.members[key], g.deltas, 1, 100);
    }
    forall c | c in loose && c.size >= minCluster && c.maxDelta - c.minDelta <= maxSpread ensures c in direct {
      var key :| key in g.members && Kept(g.members[key], g.deltas, 1, 100)
        && c == ShapeAmong(g, g.members.Keys, g.members[key]);
      assert Kept(g.members[key], g.deltas, minCluster, maxSpread);
    }
  }

  // --- Orders ---

  function DimensionName(d: Dimension): string {
    match d
    case Nameserver => "nameserver"
    case ASN => "asn"
    case Prefix => "prefix"
    case DNSSECPosture => "dnssec_posture"
    case DNSKEYAlgoWeakest => "dnskey_algo_weakest"
    case SoftwareVersion => "software_version"
  }

  predicate DimensionLe(a: ClusterDimension, b: ClusterDimension) {
    KeyLe([DimensionName(a.dimension), a.value], [DimensionName(b.dimension), b.value])
  }

  function Head(c: Cluster): string {
    if c.domains == [] then "" else c.domains[0]
  }

  /** Larger clusters first, then tighter ones, then by first member. */
  predicate ClusterLe(a: Cluster, b: Cluster) {
    if a.size != b.size then a.size > b.size
    else if a.maxDelta - a.minDelta != b.maxDelta - b.minDelta then a.maxDelta - a.minDelta < b.maxDelta - b.minDelta
    else StrLe(Head(a), Head(b))
  }

  lemma Orders()
    ensures Preorder(DimensionLe) && Preorder(ClusterLe) && TotalOrder(StrLe)
  {
    assert TotalOrder(StrLe) by {
      forall a: string, b: string ensures (StrLe(a, b) || StrLe(b, a)) && (StrLe(a, b) && StrLe(b, a) ==> a == b) {
        StrLeReaches(a, b);
      }
      forall a: string, b: string, c: string | StrLe(a, b) && StrLe(b, c) ensures StrLe(a, c) {
        StrLeTransitive(a, b, c);
      }
    }
    assert Preorder(DimensionLe) by {
      forall a: ClusterDimension, b: ClusterDimension ensures DimensionLe(a, b) || DimensionLe(b, a) {
        KeyLeReaches([DimensionName(a.dimension), a.value], [DimensionName(b.dimension), b.value]);
      }
      forall a: ClusterDimension, b: ClusterDimension, c: ClusterDimension | DimensionLe(a, b) && DimensionLe(b, c)
        ensures DimensionLe(a, c)
      {
        KeyLeTransitive([DimensionName(a.dimension), a.value], [DimensionName(b.dimension), b.value],
                        [DimensionName(c.dimension), c.value]);
      }
    }
  }

  // --- Collapsing groups with the same members ---

  function Signature(ms: seq<string>): string {
    Join(ms, '\n')
  }

  ghost predicate NoNewlines(ms: seq<string>) {
    forall i :: 0 <= i < |ms| ==> '\n' !in ms[i]
  }

  ghost predicate Printable(g: Groups) {
    forall key :: key in g.members ==> NoNewlines(g.members[key])
  }

  /** A cluster entry agrees with the groups seen so far. */
  ghost predicate Agrees(c: Cluster, g: Groups, done: set<DimKey>, minCluster: int, maxSpread: int) {
    && c.domains != [] && Known(c.domains, g.deltas) && Kept(c.domains, g.deltas, minCluster, maxSpread)
    && (exists key :: key in done && key in g.members && g.members[key] == c.domains)
    && Lists(c.dimensions, DimensionsWith(g, done, c.domains))
    && c.size == |c.domains|
    && c.minDelta == Lowest(c.domains, g.deltas) && c.maxDelta == Highest(c.domains, g.deltas)
    && c.direction == (if c.minDelta > 0 then Improved else Regressed)
  }

  ghost predicate Collapsed(byMembers: map<string, Cluster>, g: Groups, done: set<DimKey>, minCluster: int, maxSpread: int)
    requires WellFormed(g)
  {
    && (forall sig :: sig in byMembers ==>
         sig == Signature(byMembers[sig].domains) && Agrees(byMembers[sig], g, done, minCluster, maxSpread))
    && (forall key :: key in done && key in g.members && Kept(g.members[key], g.deltas, minCluster, maxSpread) ==>
         var sig := Signature(g.members[key]);
         sig in byMembers && byMembers[sig].domains == g.members[key])
  }

  lemma AgreesLater(c: Cluster, g: Groups, done: set<DimKey>, key: DimKey, minCluster: int, maxSpread: int)
    requires Agrees(c, g, done, minCluster, maxSpread) && key in g.members && g.members[key] != c.domains
    ensures Agrees(c, g, done + {key}, minCluster, maxSpread)
  {
    assert DimensionsWith(g, done + {key}, c.domains) == DimensionsWith(g, done, c.domains);
  }

  lemma AgreesMore(c: Cluster, g: Groups, done: set<DimKey>, key: DimKey, minCluster: int, maxSpread: int)
    requires Agrees(c, g, done, minCluster, maxSpread) && key in g.members && g.members[key] == c.domains && key !in done
    ensures Agrees(c.(dimensions := c.dimensions + [DimensionAt(g, key)]), g, done + {key}, minCluster, maxSpread)
  {
    var was := DimensionsWith(g, done, c.domains);
    ListsAppend(c.dimensions, was, DimensionAt(g, key));
    assert DimensionsWith(g, done + {key}, c.domains) == was + {DimensionAt(g, key)};
  }

  lemma AgreesFirst(g: Groups, done: set<DimKey>, key: DimKey, c: Cluster, minCluster: int, maxSpread: int)
    requires WellFormed(g) && key in g.members && c.domains == g.members[key]
    requires Kept(c.domains, g.deltas, minCluster, maxSpread)
    requires forall other :: other in done && other in g.members ==> g.members[other] != c.domains
    requires c.dimensions == [DimensionAt(g, key)] && c.size == |c.domains|
    requires c.minDelta == Lowest(c.domains, g.deltas) && c.maxDelta == Highest(c.domains, g.deltas)
    requires c.direction == (if c.minDelta > 0 then Improved else Regressed)
    ensures Agrees(c, g, done + {key}, minCluster, maxSpread)
  {
    assert DimensionsWith(g, done + {key}, c.domains) == {DimensionAt(g, key)};
  }

  lemma SignatureFaithful(a: seq<string>, b: seq<string>)
    requires a != [] && b != [] && NoNewlines(a) && NoNewlines(b)
    ensures Signature(a) == Signature(b) <==> a == b
  {
    if Signature(a) == Signature(b) {
      JoinInjective(a, b, '\n');
    }
  }

  /** What one more group does to the collapsed clusters. */
  ghost function GroupAdded(byMembers: map<string, Cluster>, g: Groups, key: DimKey, minCluster: int, maxSpread: int): map<string, Cluster>
    requires WellFormed(g) && key in g.members
  {
    var ms := g.members[key];
    var sig := Signature(ms);
    if !Kept(ms, g.deltas, minCluster, maxSpread) then byMembers
    else if sig in byMembers then
      byMembers[sig := byMembers[sig].(dimensions := byMembers[sig].dimensions + [DimensionAt(g, key)])]
    else
      var lo := Lowest(ms, g.deltas);
      byMembers[sig := Cluster([DimensionAt(g, key)], ms, |ms|, lo, Highest(ms, g.deltas),
                               if lo > 0 then Improved else Regressed)]
  }

  lemma CollapseStep(byMembers: map<string, Cluster>, g: Groups, done: set<DimKey>, key: DimKey,
                     minCluster: int, maxSpread: int)
    requires WellFormed(g) && Printable(g) && key in g.members && key !in done && done <= g.members.Keys
    requires Collapsed(byMembers, g, done, minCluster, maxSpread)
    ensures Collapsed(GroupAdded(byMembers, g, key, minCluster, maxSpread), g, done + {key}, minCluster, maxSpread)
  {
    var ms, now := g.members[key], GroupAdded(byMembers, g, key, minCluster, maxSpread);
    var sig := Signature(ms);
    forall s | s in byMembers ensures NoNewlines(byMembers[s].domains) {
      var k :| k in done && k in g.members && g.members[k] == byMembers[s].domains;
    }
    forall s | s in now
      ensures s == Signature(now[s].domains) && Agrees(now[s], g, done + {key}, minCluster, maxSpread)
    {
      if s in byMembers {
        SignatureFaithful(byMembers[s].domains, ms);
        if byMembers[s].domains == ms {
          AgreesMore(byMembers[s], g, done, key, minCluster, maxSpread);
        } else {
          AgreesLater(byMembers[s], g, done, key, minCluster, maxSpread);
        }
      } else {
        AgreesFirst(g, done, key, now[s], minCluster, maxSpread);
      }
    }
    if sig in byMembers {
      SignatureFaithful(byMembers[sig].domains, ms);
    }
  }

  method AddGroup(byMembers: map<string, Cluster>, g: Groups, key: DimKey, minCluster: int, maxSpread: int)
    returns (now: map<string, Cluster>)
    requires WellFormed(g) && key in g.members
    ensures now == GroupAdded(byMembers, g, key, minCluster, maxSpread)
  {
    now := byMembers;
    var members := g.members[key];
    if |members| < minCluster {
      return;
    }
    var sameDirection, minDelta, maxDelta := Extremes(members, g.deltas);
    if !sameDirection || maxDelta - minDelta > maxSpread {
      return;
    }
    var dimension, signature := DimensionAt(g, key), Signature(members);
    if signature in byMembers {
      var existing := byMembers[signature];
      now := byMembers[signature := existing.(dimensions := existing.dimensions + [dimension])];
    } else {
      var direction := if minDelta > 0 then Improved else Regressed;
      now := byMembers[signature := Cluster([dimension], members, |members|, minDelta, maxDelta, direction)];
    }
  }

  method CollapseGroups(g: Groups, minCluster: int, maxSpread: int) returns (byMembers: map<string, Cluster>)
    requires WellFormed(g) && Printable(g)
    ensures Collapsed(byMembers, g, g.members.Keys, minCluster, maxSpread)
  {
    byMembers := map[];
    var pending := g.members.Keys;
    while pending != {}
      invariant pending <= g.members.Keys
      invariant Collapsed(byMembers, g, g.members.Keys - pending, minCluster, maxSpread)
      decreases pending
    {
      var key :| key in pending;
      ghost var done := g.members.Keys - pending;
      CollapseStep(byMembers, g, done, key, minCluster, maxSpread);
      byMembers := AddGroup(byMembers, g, key, minCluster, maxSpread);
      pending := pending - {key};
      assert done + {key} == g.members.Keys - pending;
    }
    assert g.members.Keys - {} == g.members.Keys;
  }

  function Finished(c: Cluster): Cluster {
    c.(dimensions := Sort(DimensionLe, c.dimensions))
  }

  ghost function FinishedClusters(byMembers: map<string, Cluster>): set<Cluster> {
    set sig | sig in byMembers :: Finished(byMembers[sig])
  }

  /** The finished clusters: the specified shapes, one cluster per member list, dimensions in order. */
  ghost predicate ClusterList(out: seq<Cluster>, g: Groups, minCluster: int, maxSpread: int)
    requires WellFormed(g)
  {
    && (set c | c in out :: ShapeOf(c)) == ClusterShapes(g, minCluster, maxSpread)
    && (forall i, j :: 0 <= i < j < |out| ==> out[i].domains != out[j].domains)
    && (forall i :: 0 <= i < |out| ==> Sorted(DimensionLe, out[i].dimensions) && Distinct(out[i].dimensions))
  }

  lemma FinishedShape(c: Cluster, g: Groups, minCluster: int, maxSpread: int)
    requires WellFormed(g) && Agrees(c, g, g.members.Keys, minCluster, maxSpread)
    ensures ShapeOf(Finished(c)) == ShapeAmong(g, g.members.Keys, c.domains)
    ensures ShapeOf(Finished(c)) in ClusterShapes(g, minCluster, maxSpread)
    ensures Sorted(DimensionLe, Finished(c).dimensions) && Distinct(Finished(c).dimensions)
  {
    Orders();
    var dims := DimensionsWith(g, g.members.Keys, c.domains);
    SortSorts(DimensionLe, c.dimensions);
    assert Lists(Finished(c).dimensions, dims);
    ListsDistinct(Finished(c).dimensions, dims);
    assert ShapeOf(Finished(c)).dimensions == dims;
  }

  lemma FinishedSound(out: seq<Cluster>, byMembers: map<string, Cluster>, g: Groups, minCluster: int, maxSpread: int, i: nat)
    requires WellFormed(g) && Collapsed(byMembers, g, g.members.Keys, minCluster, maxSpread)
    requires Lists(out, FinishedClusters(byMembers)) && i < |out|
    ensures ShapeOf(out[i]) in ClusterShapes(g, minCluster, maxSpread)
    ensures Sorted(DimensionLe, out[i].dimensions) && Distinct(out[i].dimensions)
  {
    ListsDistinct(out, FinishedClusters(byMembers));
    assert out[i] in FinishedClusters(byMembers);
    var sig :| sig in byMembers && out[i] == Finished(byMembers[sig]);
    FinishedShape(byMembers[sig], g, minCluster, maxSpread);
  }

  lemma FinishedComplete(out: seq<Cluster>, byMembers: map<string, Cluster>, g: Groups, minCluster: int, maxSpread: int, key: DimKey)
    requires WellFormed(g) && Collapsed(byMembers, g, g.members.Keys, minCluster, maxSpread)
    requires Lists(out, FinishedClusters(byMembers))
    requires key in g.members && Kept(g.members[key], g.deltas, minCluster, maxSpread)
    ensures exists c :: c in out && ShapeOf(c) == ShapeAmong(g, g.members.Keys, g.members[key])
  {
    ListsDistinct(out, FinishedClusters(byMembers));
    var c := byMembers[Signature(g.members[key])];
    FinishedShape(c, g, minCluster, maxSpread);
    assert Finished(c) in FinishedClusters(byMembers);
  }

  lemma FinishedApart(out: seq<Cluster>, byMembers: map<string, Cluster>, i: nat, j: nat)
    requires forall sig :: sig in byMembers ==> sig == Signature(byMembers[sig].domains)
    requires Lists(out, FinishedClusters(byMembers)) && i < j < |out|
    ensures out[i].domains != out[j].domains
  {
    ListsDistinct(out, FinishedClusters(byMembers));
    assert out[i] in FinishedClusters(byMembers) && out[j] in FinishedClusters(byMembers);
    var a :| a in byMembers && out[i] == Finished(byMembers[a]);
    var b :| b in byMembers && out[j] == Finished(byMembers[b]);
    assert out[i] != out[j];
  }

  /** Whatever the order they are listed in, the finished clusters are the specified ones. */
  lemma FinishedExact(out: seq<Cluster>, byMembers: map<string, Cluster>, g: Groups, minCluster: int, maxSpread: int)
    requires WellFormed(g) && Collapsed(byMembers, g, g.members.Keys, minCluster, maxSpread)
    requires Lists(out, FinishedClusters(byMembers))
    ensures ClusterList(out, g, minCluster, maxSpread)
  {
    forall i | 0 <= i < |out|
      ensures ShapeOf(out[i]) in ClusterShapes(g, minCluster, maxSpread)
      ensures Sorted(DimensionLe, out[i].dimensions) && Distinct(out[i].dimensions)
    {
      FinishedSound(out, byMembers, g, minCluster, maxSpread, i);
    }
    var listed := set c | c in out :: ShapeOf(c);
    forall shape | shape in ClusterShapes(g, minCluster, maxSpread) ensures shape in listed {
      var key :| key in g.members && Kept(g.members[key], g.deltas, minCluster, maxSpread)
        && shape == ShapeAmong(g, g.members.Keys, g.members[key]);
      FinishedComplete(out, byMembers, g, minCluster, maxSpread, key);
    }
    forall i, j | 0 <= i < j < |out| ensures out[i].domains != out[j].domains {
      FinishedApart(out, byMembers, i, j);
    }
  }

  lemma FinishStep(byMembers: map<string, Cluster>, pending: set<string>, sig: string)
    requires forall s :: s in byMembers ==> s == Signature(byMembers[s].domains)
    requires sig in pending && sig in byMembers
    ensures
      var was, c := FinishedClusters(byMembers - pending), Finished(byMembers[sig]);
      c !in was && FinishedClusters(byMembers - (pending - {sig})) == was + {c}
  {
    var was, now := byMembers - pending, byMembers - (pending - {sig});
    assert now == was[sig := byMembers[sig]];
    forall s | s in was ensures Finished(was[s]).domains != byMembers[sig].domains {
      assert s == Signature(byMembers[s].domains);
    }
    forall c | c in FinishedClusters(now) ensures c in FinishedClusters(was) + {Finished(byMembers[sig])} {
      var s :| s in now && c == Finished(now[s]);
      if s != sig {
        assert s in was && c == Finished(was[s]);
      }
    }
    forall c | c in FinishedClusters(was) ensures c in FinishedClusters(now) {
      var s :| s in was && c == Finished(was[s]);
      assert s in now && c == Finished(now[s]);
    }
    assert sig in now;
  }

  method FinishClusters(byMembers: map<string, Cluster>) returns (out: seq<Cluster>)
    requires forall sig :: sig in byMembers ==> sig == Signature(byMembers[sig].domains)
    ensures Lists(out, FinishedClusters(byMembers)) && Sorted(ClusterLe, out)
  {
    out := [];
    var pending := byMembers.Keys;
    assert byMembers - pending == map[];
    while pending != {}
      invariant pending <= byMembers.Keys
      invariant Lists(out, FinishedClusters(byMembers - pending))
      decreases pending
    {
      var sig :| sig in pending;
      FinishStep(byMembers, pending, sig);
      ListsAppend(out, FinishedClusters(byMembers - pending), Finished(byMembers[sig]));
      out := out + [Finished(byMembers[sig])];
      pending := pending - {sig};
    }
    assert byMembers - {} == byMembers;
    Orders();
    SortSorts(ClusterLe, out);
    out := Sort(ClusterLe, out);
  }

  /** g holds the groups of these movers over these views. */
  ghost predicate GroupsOf(g: Groups, views: map<string, DomainView>, rows: seq<ReportDomain>) {
    var d := DimsOf(views);
    && g.deltas == Deltas(rows, views.Keys)
    && NoEmptyGroup(g.members)
    && (forall key :: GetMembers(g.members, key) == Sort(StrLe, Members(rows, d, key)))
    && TotalsRead(g.totals, d)
    && ValidLabels(g.labels, d)
  }

  lemma {:induction false} MembersKnown(rows: seq<ReportDomain>, d: map<string, seq<DimValue>>, key: DimKey)
    ensures forall x :: x in Members(rows, d, key) ==>
      x in Deltas(rows, d.Keys) && exists r :: r in rows && Mover(r, d.Keys) && r.domain == x
  {
    if rows != [] {
      var front, row := rows[..|rows| - 1], rows[|rows| - 1];
      MembersKnown(front, d, key);
      assert rows == front + [row];
      if Mover(row, d.Keys) {
        RepeatOnly(row.domain, Carries(d[row.domain], key));
      }
    }
  }

  lemma {:induction false} RepeatOnly(s: string, n: int)
    ensures |Repeat(s, n)| == Max(n, 0)
    ensures forall x :: x in Repeat(s, n) ==> x == s
  {
    if n > 0 {
      RepeatOnly(s, n - 1);
    }
  }

  /** Domain names contain no line break; the member signature relies on it. */
  ghost predicate NamesPrintable(rows: seq<ReportDomain>) {
    forall r :: r in rows ==> '\n' !in r.domain
  }

  lemma GroupsReady(g: Groups, views: map<string, DomainView>, rows: seq<ReportDomain>)
    requires GroupsOf(g, views, rows)
    ensures WellFormed(g)
    ensures NamesPrintable(rows) ==> Printable(g)
  {
    Orders();
    forall key, i | key in g.members && 0 <= i < |g.members[key]|
      ensures g.members[key][i] in g.deltas
      ensures NamesPrintable(rows) ==> '\n' !in g.members[key][i]
    {
      var ms := Members(rows, DimsOf(views), key);
      SortSorts(StrLe, ms);
      assert GetMembers(g.members, key) == Sort(StrLe, ms);
      assert g.members[key][i] in multiset(ms);
      MembersKnown(rows, DimsOf(views), key);
      assert DimsOf(views).Keys == views.Keys;
    }
  }

  method BuildReportClusters(views: map<string, DomainView>, rows: seq<ReportDomain>, minCluster: int, maxSpread: int)
    returns (out: seq<Cluster>, ghost g: Groups)
    requires NamesPrintable(rows)
    ensures GroupsOf(g, views, rows) && WellFormed(g)
    ensures ClusterList(out, g, minCluster, maxSpread) && Sorted(ClusterLe, out)
  {
    var totals, labels := CountDimensions(views);
    var deltas, membersByKey := GroupMovers(rows, views);
    var groups := Groups(map key | key in membersByKey :: Sort(StrLe, membersByKey[key]), deltas, totals, labels);
    g := groups;
    Orders();
    forall key ensures GetMembers(g.members, key) == Sort(StrLe, Members(rows, DimsOf(views), key))
      && (key in g.members ==> g.members[key] != [])
    {
      assert GetMembers(membersByKey, key) == Members(rows, DimsOf(views), key);
      SortSorts(StrLe, GetMembers(membersByKey, key));
    }
    GroupsReady(g, views, rows);
    var byMembers := CollapseGroups(groups, minCluster, maxSpread);
    out := FinishClusters(byMembers);
    FinishedExact(out, byMembers, g, minCluster, maxSpread);
  }

  predicate Within(c: Cluster, minCluster: int, maxSpread: int) {
    c.size >= minCluster && c.maxDelta - c.minDelta <= maxSpread
  }

  method WithClusterBounds(clusters: seq<Cluster>, minCluster: int, maxSpread: int) returns (out: seq<Cluster>)
    ensures forall c :: c in out <==> c in clusters && Within(c, minCluster, maxSpread)
    ensures multiset(out) <= multiset(clusters)
    ensures forall le :: Sorted(le, clusters) ==> Sorted(le, out)
  {
    out := [];
    ghost var at: seq<nat> := [];
    for i := 0 to |clusters|
      invariant |at| == |out|
      invariant forall j :: 0 <= j < |at| ==> at[j] < i && out[j] == clusters[at[j]]
      invariant forall j, k :: 0 <= j < k < |at| ==> at[j] < at[k]
      invariant forall c :: c in out <==> c in clusters[..i] && Within(c, minCluster, maxSpread)
      invariant multiset(out) <= multiset(clusters[..i])
    {
      assert clusters[..i + 1] == clusters[..i] + [clusters[i]];
      if clusters[i].size >= minCluster && clusters[i].maxDelta - clusters[i].minDelta <= maxSpread {
        out := out + [clusters[i]];
        at := at + [i];
      }
    }
    assert clusters[..|clusters|] == clusters;
  }

  /** The handler: one build at the loosest bounds, filtered to the requested ones, lists exactly the
      clusters a build at the requested bounds would. */
  method ReportClusters(views: map<string, DomainView>, rows: seq<ReportDomain>, minCluster: int, maxSpread: int)
    returns (out: seq<Cluster>, ghost g: Groups)
    requires NamesPrintable(rows) && maxSpread <= 100
    ensures GroupsOf(g, views, rows) && WellFormed(g)
    ensures ClusterList(out, g, minCluster, maxSpread) && Sorted(ClusterLe, out)
  {
    var cached;
    cached, g := BuildReportClusters(views, rows, 1, 100);
    out := WithClusterBounds(cached, minCluster, maxSpread);
    FilteredList(cached, out, g, minCluster, maxSpread);
    assert Sorted(ClusterLe, out);
  }

  lemma FilteredList(cached: seq<Cluster>, out: seq<Cluster>, g: Groups, minCluster: int, maxSpread: int)
    requires WellFormed(g) && ClusterList(cached, g, 1, 100) && maxSpread <= 100
    requires forall c :: c in out <==> c in cached && Within(c, minCluster, maxSpread)
    requires multiset(out) <= multiset(cached)
    ensures ClusterList(out, g, minCluster, maxSpread)
  {
    FilterLooseEqualsFresh(g, minCluster, maxSpread);
    var loose := set c | c in cached :: ShapeOf(c);
    var listed := set c | c in out :: ShapeOf(c);
    forall shape | shape in ClusterShapes(g, minCluster, maxSpread) ensures shape in listed {
      assert shape in loose;
      var c :| c in cached && ShapeOf(c) == shape;
      assert c in out;
    }
    forall i | 0 <= i < |out| ensures out[i] in cached {
      assert out[i] in out;
    }
    forall i, j | 0 <= i < j < |out| ensures out[i].domains != out[j].domains {
      FilteredApart(cached, out, i, j);
    }
  }

  lemma FilteredApart(cached: seq<Cluster>, out: seq<Cluster>, i: nat, j: nat)
    requires forall a, b :: 0 <= a < b < |cached| ==> cached[a].domains != cached[b].domains
    requires multiset(out) <= multiset(cached) && i < j < |out|
    ensures out[i].domains != out[j].domains
  {
    assert out[i] in multiset(out) && out[j] in multiset(out);
    assert out[i] in cached && out[j] in cached;
    if out[i] == out[j] {
      assert out == out[..j] + out[j..];
      assert out[i] in multiset(out[..j]) && out[j] in multiset(out[j..]);
      assert multiset(out)[out[j]] >= 2;
      UniqueCount(cached, out[j]);
    }
  }

  lemma {:induction false} UniqueCount(cs: seq<Cluster>, c: Cluster)
    requires forall a, b :: 0 <= a < b < |cs| ==> cs[a].domains != cs[b].domains
    ensures multiset(cs)[c] <= 1
  {
    if cs != [] {
      var front := cs[..|cs| - 1];
      assert cs == front + [cs[|cs| - 1]];
      UniqueCount(front, c);
      assert cs[|cs| - 1] !in multiset(front);
    }
  }

  // --- What a cluster says ---

  /** A mover's delta is never zero. */
  lemma {:induction false} DeltasMove(rows: seq<ReportDomain>, names: set<string>)
    ensures forall x :: x in Deltas(rows, names) ==> Deltas(rows, names)[x] != 0
  {
    if rows != [] {
      DeltasMove(rows[..|rows| - 1], names);
    }
  }

  /** Every cluster is exact: its members all moved in its direction, its extremes are attained by
      members, its size is the member count and its spread is within bounds. */
  lemma ClusterExact(g: Groups, views: map<string, DomainView>, rows: seq<ReportDomain>, c: Shape, minCluster: int, maxSpread: int)
    requires GroupsOf(g, views, rows) && WellFormed(g) && c in ClusterShapes(g, minCluster, maxSpread)
    ensures c.domains != [] && Known(c.domains, g.deltas) && c.size == |c.domains| >= minCluster
    ensures forall i :: 0 <= i < |c.domains| ==>
      && (if c.direction == Improved then g.deltas[c.domains[i]] > 0 else g.deltas[c.domains[i]] < 0)
      && c.minDelta <= g.deltas[c.domains[i]] <= c.maxDelta
    ensures exists i :: 0 <= i < |c.domains| && g.deltas[c.domains[i]] == c.minDelta
    ensures exists i :: 0 <= i < |c.domains| && g.deltas[c.domains[i]] == c.maxDelta
    ensures c.maxDelta - c.minDelta <= maxSpread
  {
    var key :| key in g.members && Kept(g.members[key], g.deltas, minCluster, maxSpread)
      && c == ShapeAmong(g, g.members.Keys, g.members[key]);
    ExtremesExact(c.domains, g.deltas);
    DeltasMove(rows, views.Keys);
    var i :| 0 <= i < |c.domains| && g.deltas[c.domains[i]] == c.minDelta;
  }

  /** Every group that qualifies is named by exactly one cluster, and clusters name nothing else. */
  lemma GroupInOneCluster(g: Groups, key: DimKey, minCluster: int, maxSpread: int)
    requires WellFormed(g)
    ensures
      var naming := set c | c in ClusterShapes(g, minCluster, maxSpread)
        && exists d :: d in c.dimensions && d.dimension == key.dimension && d.value == key.value;
      if key in g.members && Kept(g.members[key], g.deltas, minCluster, maxSpread)
      then naming == {ShapeAmong(g, g.members.Keys, g.members[key])}
      else naming == {}
  {
    var naming := set c | c in ClusterShapes(g, minCluster, maxSpread)
      && exists d :: d in c.dimensions && d.dimension == key.dimension && d.value == key.value;
    forall c | c in naming
      ensures key in g.members && Kept(g.members[key], g.deltas, minCluster, maxSpread)
      ensures c == ShapeAmong(g, g.members.Keys, g.members[key])
    {
      var d :| d in c.dimensions && d.dimension == key.dimension && d.value == key.value;
      var k :| k in g.members && Kept(g.members[k], g.deltas, minCluster, maxSpread)
        && c == ShapeAmong(g, g.members.Keys, g.members[k]);
      var other :| other in g.members && g.members[other] == g.members[k] && d == DimensionAt(g, other);
      assert other == key;
    }
    if key in g.members && Kept(g.members[key], g.deltas, minCluster, maxSpread) {
      var c := ShapeAmong(g, g.members.Keys, g.members[key]);
      assert DimensionAt(g, key) in c.dimensions;
      assert c in naming;
    }
  }

  /** Rows name each domain once, as the report builds them. */
  ghost function RowNames(rows: seq<ReportDomain>): set<string> {
    set r | r in rows :: r.domain
  }

  ghost function CarriedIn(d: map<string, seq<DimValue>>, names: set<string>, key: DimKey): map<string, int> {
    map name | name in d && name in names :: Carries(d[name], key)
  }

  lemma {:induction false} MembersWithinCarried(rows: seq<ReportDomain>, d: map<string, seq<DimValue>>, key: DimKey)
    requires OneRowPerDomain(rows)
    ensures |Members(rows, d, key)| <= Total(CarriedIn(d, RowNames(rows), key))
  {
    if rows == [] {
      assert CarriedIn(d, RowNames(rows), key) == map[];
    } else {
      var front, row := rows[..|rows| - 1], rows[|rows| - 1];
      MembersWithinCarried(front, d, key);
      assert rows == front + [row];
      assert row.domain !in RowNames(front) && RowNames(rows) == RowNames(front) + {row.domain};
      CarriedGrows(d, RowNames(front), row.domain, key);
      if row.domain in d {
        SumByBounds(d[row.domain], HasKey(key));
        RepeatOnly(row.domain, Carries(d[row.domain], key));
      }
    }
  }

  lemma CarriedGrows(d: map<string, seq<DimValue>>, names: set<string>, name: string, key: DimKey)
    requires name !in names
    ensures Total(CarriedIn(d, names + {name}, key)) ==
      Total(CarriedIn(d, names, key)) + if name in d then Carries(d[name], key) else 0
  {
    var was, now := CarriedIn(d, names, key), CarriedIn(d, names + {name}, key);
    if name in d {
      TotalRemove(now, name);
      assert now - {name} == was;
    } else {
      assert now == was;
    }
  }

  /** No cluster claims more members than there are domains carrying the value. */
  lemma ClusterWithinTotal(g: Groups, views: map<string, DomainView>, rows: seq<ReportDomain>, key: DimKey)
    requires GroupsOf(g, views, rows) && OneRowPerDomain(rows) && key in g.members
    ensures |g.members[key]| <= DimensionAt(g, key).totalDomains
  {
    Orders();
    var d := DimsOf(views);
    assert GetMembers(g.members, key) == Sort(StrLe, Members(rows, d, key));
    SortSorts(StrLe, Members(rows, d, key));
    MembersWithinCarried(rows, d, key);
    forall name | name in d ensures 0 <= Carries(d[name], key) {
      SumByBounds(d[name], HasKey(key));
    }
    TotalMonotone(CarriedIn(d, RowNames(rows), key), CarriedBy(d, key));
  }

  /** A member list names each domain once exactly when no mover carries the key more than once. */
  lemma {:induction false} MembersOnceIff(rows: seq<ReportDomain>, d: map<string, seq<DimValue>>, key: DimKey)
    requires OneRowPerDomain(rows)
    ensures Distinct(Members(rows, d, key)) <==>
      forall r :: r in rows && Mover(r, d.Keys) ==> Carries(d[r.domain], key) <= 1
  {
    if rows != [] {
      var front, row := rows[..|rows| - 1], rows[|rows| - 1];
      assert rows == front + [row];
      MembersOnceIff(front, d, key);
      MembersKnown(front, d, key);
      if Mover(row, d.Keys) {
        var before, again := Members(front, d, key), Repeat(row.domain, Carries(d[row.domain], key));
        RepeatOnly(row.domain, Carries(d[row.domain], key));
        assert row.domain !in before;
        var all := Members(rows, d, key);
        assert all == before + again;
        assert forall i :: 0 <= i < |before| ==> all[i] == before[i];
        if |again| > 1 {
          assert all[|all| - 2] == again[|again| - 2] == all[|all| - 1];
        }
      }
    }
  }

  /** The line break in the signature matters: these two member lists would collapse into one cluster. */
  lemma SignatureCollides()
    ensures Signature(["a\nb"]) == Signature(["a", "b"]) && ["a\nb"] != ["a", "b"]
  {
    assert Join(["b"], '\n') == "b";
    assert Join(["a", "b"], '\n') == "a" + ['\n'] + Join(["a", "b"][1..], '\n');
    assert ["a", "b"][1..] == ["b"];
    assert |["a\nb"]| != |["a", "b"]|;
  }
}
