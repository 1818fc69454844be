/** Clusters: groups of movers that share a dimension value and moved together. */
module Clusters {
  import opened Sums
  import opened Sorting
  import opened Text
  import opened SnapshotViews

  datatype Dimension = Nameserver | ASN | Prefix | DNSSECPosture | DNSKEYAlgoWeakest | SoftwareVersion

  datatype DimValue = DimValue(dimension: Dimension, value: string, display: string)

  datatype DimKey = DimKey(dimension: Dimension, value: string)

  datatype ClusterDimension = ClusterDimension(dimension: Dimension, value: string, display: string, totalDomains: int)

  datatype Direction = Improved | Regressed

  datatype Cluster = Cluster(
    dimensions: seq<ClusterDimension>, domains: seq<string>, size: int, minDelta: int, maxDelta: int, direction: Direction)

  // --- The dimensions one domain carries ---

  function AddressCandidates(addresses: seq<Address>): seq<DimValue> {
    if addresses == [] then []
    else
      var a := addresses[0];
      (if a.asn.Some? then [DimValue(ASN, Decimal(a.asn.value), a.asnLabel)] else [])
      + [DimValue(Prefix, a.prefix, "")] + AddressCandidates(addresses[1..])
  }

  function Candidates(v: DomainView): seq<DimValue> {
    seq(|v.nameservers|, i requires 0 <= i < |v.nameservers| => DimValue(Nameserver, v.nameservers[i], ""))
    + AddressCandidates(v.addresses)
    + [DimValue(DNSSECPosture, v.dnssecPosture, "")]
    + (if v.algoWeakest.Some? then
         [DimValue(DNSKEYAlgoWeakest, Decimal(v.algoWeakest.value.number), v.algoWeakest.value.display)]
       else [])
    + [DimValue(SoftwareVersion, v.softwareVersion, "")]
  }

  ghost function Deduplicated(candidates: seq<DimValue>): seq<DimValue> {
    if candidates == [] then []
    else
      var out, item := Deduplicated(candidates[..|candidates| - 1]), candidates[|candidates| - 1];
      if Blank(item.value) || item in out then out else out + [item]
  }

  ghost function DimValues(v: DomainView): seq<DimValue> {
    Deduplicated(Candidates(v))
  }

  method ReportDimensionValues(v: DomainView) returns (out: seq<DimValue>)
    ensures out == DimValues(v)
  {
    var candidates := Candidates(v);
    var seen: set<DimValue> := {};
    out := [];
    for i := 0 to |candidates|
      invariant out == Deduplicated(candidates[..i]) && seen == set x | x in out
    {
      assert candidates[..i + 1][..i] == candidates[..i];
      var item := candidates[i];
      if Blank(item.value) || item in seen {
        continue;
      }
      seen := seen + {item};
      out := out + [item];
    }
    assert candidates[..|candidates|] == candidates;
  }

  /** A domain's values are non-blank, not repeated, and all its candidates are among them. */
  lemma {:induction false} DeduplicatedExact(candidates: seq<DimValue>)
    ensures Distinct(Deduplicated(candidates))
    ensures forall x :: x in Deduplicated(candidates) <==> x in candidates && !Blank(x.value)
  {
    if candidates != [] {
      DeduplicatedExact(candidates[..|candidates| - 1]);
      assert candidates == candidates[..|candidates| - 1] + [candidates[|candidates| - 1]];
    }
  }

  function KeyOf(dv: DimValue): DimKey {
    DimKey(dv.dimension, dv.value)
  }

  function HasKey(key: DimKey): DimValue -> int {
    (dv: DimValue) => if KeyOf(dv) == key then 1 else 0
  }

  /** Every domain's dimension values. */
  ghost function DimsOf(views: map<string, DomainView>): map<string, seq<DimValue>> {
    map name | name in views :: DimValues(views[name])
  }

  /** How many of the values have this key; more than one only when they give it several labels. */
  ghost function Carries(dims: seq<DimValue>, key: DimKey): int {
    SumBy(dims, HasKey(key))
  }

  ghost function CarriedBy(d: map<string, seq<DimValue>>, key: DimKey): map<string, int> {
    map name | name in d :: Carries(d[name], key)
  }

  // --- First pass: totals and labels over every domain ---

  function LabelAt(labels: map<DimKey, string>, key: DimKey): Option<string> {
    if key in labels then Some(labels[key]) else None
  }

  /** The label a domain leaves for a key: the last one it shows that is not empty, if any. */
  ghost function LastLabel(dims: seq<DimValue>, key: DimKey): Option<string> {
    if dims == [] then None
    else
      var dv := dims[|dims| - 1];
      if KeyOf(dv) == key && dv.display != "" then Some(dv.display) else LastLabel(dims[..|dims| - 1], key)
  }

  /** It is shown, and nothing after it in the view is another label for the key. */
  lemma {:induction false} LastLabelExact(dims: seq<DimValue>, key: DimKey)
    ensures LastLabel(dims, key).None? <==> forall i :: 0 <= i < |dims| && KeyOf(dims[i]) == key ==> dims[i].display == ""
    ensures forall display :: LastLabel(dims, key) == Some(display) <==>
      exists i :: 0 <= i < |dims| && LabelsLast(dims, key, i) && dims[i].display == display
  {
    if dims != [] {
      var front, last := dims[..|dims| - 1], |dims| - 1;
      LastLabelExact(front, key);
      forall i | 0 <= i < last
        ensures LabelsLast(dims, key, i) <==> LabelsLast(front, key, i) && (KeyOf(dims[last]) == key ==> dims[last].display == "")
      {
        LabelsLastStep(dims, key, i);
      }
    }
  }

  lemma LabelsLastStep(dims: seq<DimValue>, key: DimKey, i: nat)
    requires i < |dims| - 1
    ensures
      var front, last := dims[..|dims| - 1], dims[|dims| - 1];
      LabelsLast(dims, key, i) <==> LabelsLast(front, key, i) && (KeyOf(last) == key ==> last.display == "")
  {
    assert forall j :: 0 <= j < |dims| - 1 ==> dims[..|dims| - 1][j] == dims[j];
  }

  ghost predicate LabelsLast(dims: seq<DimValue>, key: DimKey, i: nat)
    requires i < |dims|
  {
    && KeyOf(dims[i]) == key && dims[i].display != ""
    && (forall j :: i < j < |dims| && KeyOf(dims[j]) == key ==> dims[j].display == "")
  }

  ghost function OrElse(first: Option<string>, otherwise: Option<string>): Option<string> {
    if first.Some? then first else otherwise
  }

  /** The label of a key once the domains have been read in this order: later domains replace earlier ones. */
  ghost function LabelIn(d: map<string, seq<DimValue>>, order: seq<string>, key: DimKey): Option<string>
    requires forall name :: name in order ==> name in d
  {
    if order == [] then None
    else OrElse(LastLabel(d[order[|order| - 1]], key), LabelIn(d, order[..|order| - 1], key))
  }

  /** The labels are those of reading the domains, each once, in this order. */
  ghost predicate LabelsRead(labels: map<DimKey, string>, d: map<string, seq<DimValue>>, order: seq<string>) {
    && Distinct(order) && (forall name :: name in order <==> name in d)
    && (forall key :: LabelAt(labels, key) == LabelIn(d, order, key))
  }

  /** Go reads the domains in any order. */
  ghost predicate ValidLabels(labels: map<DimKey, string>, d: map<string, seq<DimValue>>) {
    exists order :: LabelsRead(labels, d, order)
  }

  /** How many times the domains carry each key in all. */
  ghost predicate TotalsRead(totals: map<DimKey, int>, d: map<string, seq<DimValue>>) {
    forall key :: CountAt(totals, key) == Total(CarriedBy(d, key))
  }

  /** Every key counts as often more as the domain carries it. */
  ghost predicate CountsMore(now: map<DimKey, int>, was: map<DimKey, int>, dims: seq<DimValue>) {
    forall key :: CountAt(now, key) == CountAt(was, key) + Carries(dims, key)
  }

  /** Every key has the last label the domain shows for it, or else the label it had. */
  ghost predicate Relabels(now: map<DimKey, string>, was: map<DimKey, string>, dims: seq<DimValue>) {
    forall key :: LabelAt(now, key) == OrElse(LastLabel(dims, key), LabelAt(was, key))
  }

  method CountDomain(dims: seq<DimValue>, totals0: map<DimKey, int>) returns (totals: map<DimKey, int>)
    ensures CountsMore(totals, totals0, dims)
  {
    totals := totals0;
    for i := 0 to |dims|
      invariant forall key :: CountAt(totals, key) == CountAt(totals0, key) + Carries(dims[..i], key)
    {
      forall key ensures Carries(dims[..i + 1], key) == Carries(dims[..i], key) + HasKey(key)(dims[i]) {
        SumByStep(dims, HasKey(key), i);
      }
      totals := totals[KeyOf(dims[i]) := CountAt(totals, KeyOf(dims[i])) + 1];
    }
    assert dims[..|dims|] == dims;
  }

  method LabelDomain(dims: seq<DimValue>, labels0: map<DimKey, string>) returns (labels: map<DimKey, string>)
    ensures Relabels(labels, labels0, dims)
  {
    labels := labels0;
    for i := 0 to |dims|
      invariant forall key :: LabelAt(labels, key) == OrElse(LastLabel(dims[..i], key), LabelAt(labels0, key))
    {
      assert dims[..i + 1][..i] == dims[..i];
      if dims[i].display != "" {
        labels := labels[KeyOf(dims[i]) := dims[i].display];
      }
    }
    assert dims[..|dims|] == dims;
  }

  method ReadDomain(view: DomainView, totals0: map<DimKey, int>, labels0: map<DimKey, string>)
    returns (totals: map<DimKey, int>, labels: map<DimKey, string>)
    ensures CountsMore(totals, totals0, DimValues(view)) && Relabels(labels, labels0, DimValues(view))
  {
    var dims := ReportDimensionValues(view);
    totals := CountDomain(dims, totals0);
    labels := LabelDomain(dims, labels0);
  }

  method CountDimensions(views: map<string, DomainView>) returns (totals: map<DimKey, int>, labels: map<DimKey, string>)
    ensures TotalsRead(totals, DimsOf(views)) && ValidLabels(labels, DimsOf(views))
  {
    totals, labels := map[], map[];
    ghost var d := DimsOf(views);
    var pending := views.Keys;
    ghost var order: seq<string> := [];
    assert d - pending == map[];
    NothingRead();
    while pending != {}
      invariant pending <= views.Keys
      invariant TotalsRead(totals, d - pending)
      invariant LabelsRead(labels, d - pending, order)
      decreases pending
    {
      var name :| name in pending;
      ghost var totals0, labels0 := totals, labels;
      totals, labels := ReadDomain(views[name], totals, labels);
      ReadStep(d, pending, name, totals0, totals, labels0, labels, order);
      order := order + [name];
      pending := pending - {name};
    }
    assert d - pending == d;
  }

  lemma NothingRead()
    ensures TotalsRead(map[], map[]) && LabelsRead(map[], map[], [])
  {
    forall key ensures Total(CarriedBy(map[], key)) == 0 {
      assert CarriedBy(map[], key) == map[];
    }
  }

  lemma ReadStep(d: map<string, seq<DimValue>>, pending: set<string>, name: string, totals0: map<DimKey, int>,
                 totals: map<DimKey, int>, labels0: map<DimKey, string>, labels: map<DimKey, string>, order: seq<string>)
    requires name in pending && name in d && TotalsRead(totals0, d - pending) && LabelsRead(labels0, d - pending, order)
    requires CountsMore(totals, totals0, d[name]) && Relabels(labels, labels0, d[name])
    ensures TotalsRead(totals, d - (pending - {name})) && LabelsRead(labels, d - (pending - {name}), order + [name])
  {
    TotalsStep(d, pending, name, totals0, totals);
    LabelsStep(d, pending, name, labels0, labels, order);
  }

  lemma TotalsStep(d: map<string, seq<DimValue>>, pending: set<string>, name: string,
                   was: map<DimKey, int>, now: map<DimKey, int>)
    requires name in pending && name in d && TotalsRead(was, d - pending)
    requires CountsMore(now, was, d[name])
    ensures TotalsRead(now, d - (pending - {name}))
  {
    forall key {
      CarriedStep(d, pending, name, key);
    }
  }

  lemma CarriedStep(d: map<string, seq<DimValue>>, pending: set<string>, name: string, key: DimKey)
    requires name in pending && name in d
    ensures Total(CarriedBy(d - (pending - {name}), key)) == Total(CarriedBy(d - pending, key)) + Carries(d[name], key)
  {
    var now := CarriedBy(d - (pending - {name}), key);
    TotalRemove(now, name);
    assert now - {name} == CarriedBy(d - pending, key);
  }

  lemma LabelsStep(d: map<string, seq<DimValue>>, pending: set<string>, name: string,
                   was: map<DimKey, string>, now: map<DimKey, string>, order: seq<string>)
    requires name in pending && name in d && LabelsRead(was, d - pending, order)
    requires Relabels(now, was, d[name])
    ensures LabelsRead(now, d - (pending - {name}), order + [name])
  {
    var before, after := d - pending, d - (pending - {name});
    assert name !in order;
    forall key ensures LabelAt(now, key) == LabelIn(after, order + [name], key) {
      assert (order + [name])[..|order|] == order;
      SameLabels(before, after, order, key);
    }
  }

  lemma {:induction false} SameLabels(d: map<string, seq<DimValue>>, e: map<string, seq<DimValue>>, order: seq<string>, key: DimKey)
    requires forall name :: name in order ==> name in d && name in e && d[name] == e[name]
    ensures LabelIn(d, order, key) == LabelIn(e, order, key)
  {
    if order != [] {
      SameLabels(d, e, order[..|order| - 1], key);
    }
  }

  // --- Second pass: the movers by dimension value ---

  predicate Mover(row: ReportDomain, names: set<string>) {
    row.scoreDelta.Some? && row.scoreDelta.value != 0 && row.domain in names
  }

  ghost function Repeat(s: string, n: int): seq<string> {
    if n <= 0 then [] else Repeat(s, n - 1) + [s]
  }

  /** The movers that carry a key, in row order, once per label they carry it under. */
  ghost function Members(rows: seq<ReportDomain>, d: map<string, seq<DimValue>>, key: DimKey): seq<string> {
    if rows == [] then []
    else
      var front, row := Members(rows[..|rows| - 1], d, key), rows[|rows| - 1];
      if Mover(row, d.Keys) then front + Repeat(row.domain, Carries(d[row.domain], key)) else front
  }

  ghost function Deltas(rows: seq<ReportDomain>, names: set<string>): map<string, int> {
    if rows == [] then map[]
    else
      var front, row := Deltas(rows[..|rows| - 1], names), rows[|rows| - 1];
      if Mover(row, names) then front[row.domain := row.scoreDelta.value] else front
  }

  function GetMembers(m: map<DimKey, seq<string>>, key: DimKey): seq<string> {
    if key in m then m[key] else []
  }

  ghost predicate NoEmptyGroup(m: map<DimKey, seq<string>>) {
    forall key :: key in m ==> m[key] != []
  }

  /** A group has grown by the domain, once per dimension value with its key. */
  ghost predicate JoinedAt(m: map<DimKey, seq<string>>, m0: map<DimKey, seq<string>>, domain: string, dims: seq<DimValue>, key: DimKey) {
    GetMembers(m, key) == GetMembers(m0, key) + Repeat(domain, Carries(dims, key))
  }

  ghost predicate Joined(m: map<DimKey, seq<string>>, m0: map<DimKey, seq<string>>, domain: string, dims: seq<DimValue>) {
    NoEmptyGroup(m) && forall key :: JoinedAt(m, m0, domain, dims, key)
  }

  lemma JoinedStep(m: map<DimKey, seq<string>>, m0: map<DimKey, seq<string>>, domain: string, dims: seq<DimValue>, i: nat)
    requires i < |dims| && Joined(m, m0, domain, dims[..i])
    ensures Joined(m[KeyOf(dims[i]) := GetMembers(m, KeyOf(dims[i])) + [domain]], m0, domain, dims[..i + 1])
  {
    var now, grown := m[KeyOf(dims[i]) := GetMembers(m, KeyOf(dims[i])) + [domain]], dims[..i + 1];
    forall key ensures JoinedAt(now, m0, domain, grown, key) {
      JoinedAtStep(m, m0, domain, dims, i, key);
    }
  }

  lemma JoinedAtStep(m: map<DimKey, seq<string>>, m0: map<DimKey, seq<string>>, domain: string, dims: seq<DimValue>, i: nat, key: DimKey)
    requires i < |dims| && JoinedAt(m, m0, domain, dims[..i], key)
    ensures JoinedAt(m[KeyOf(dims[i]) := GetMembers(m, KeyOf(dims[i])) + [domain]], m0, domain, dims[..i + 1], key)
  {
    CarriesStep(dims, i, key);
    if key == KeyOf(dims[i]) {
      RepeatMore(GetMembers(m0, key), domain, Carries(dims[..i], key));
    }
  }

  lemma CarriesStep(dims: seq<DimValue>, i: nat, key: DimKey)
    requires i < |dims|
    ensures Carries(dims[..i + 1], key) == Carries(dims[..i], key) + (if key == KeyOf(dims[i]) then 1 else 0)
    ensures 0 <= Carries(dims[..i], key)
  {
    SumByStep(dims, HasKey(key), i);
    SumByBounds(dims[..i], HasKey(key));
  }

  lemma RepeatMore(before: seq<string>, s: string, n: nat)
    ensures before + Repeat(s, n) + [s] == before + Repeat(s, n + 1)
  {}

  method AddMember(dims: seq<DimValue>, domain: string, m0: map<DimKey, seq<string>>) returns (m: map<DimKey, seq<string>>)
    requires NoEmptyGroup(m0)
    ensures Joined(m, m0, domain, dims)
  {
    m := m0;
    for i := 0 to |dims|
      invariant Joined(m, m0, domain, dims[..i])
    {
      JoinedStep(m, m0, domain, dims, i);
      var key := KeyOf(dims[i]);
      m := m[key := GetMembers(m, key) + [domain]];
    }
    assert dims[..|dims|] == dims;
  }

  method GroupMovers(rows: seq<ReportDomain>, views: map<string, DomainView>)
    returns (deltas: map<string, int>, membersByKey: map<DimKey, seq<string>>)
    ensures deltas == Deltas(rows, views.Keys)
    ensures NoEmptyGroup(membersByKey)
    ensures forall key :: GetMembers(membersByKey, key) == Members(rows, DimsOf(views), key)
  {
    deltas, membersByKey := map[], map[];
    ghost var d := DimsOf(views);
    for i := 0 to |rows|
      invariant deltas == Deltas(rows[..i], views.Keys)
      invariant NoEmptyGroup(membersByKey)
      invariant forall key :: GetMembers(membersByKey, key) == Members(rows[..i], d, key)
    {
      assert rows[..i + 1][..i] == rows[..i];
      var row := rows[i];
      if row.scoreDelta.None? || row.scoreDelta.value == 0 || row.domain !in views {
        continue;
      }
      deltas := deltas[row.domain := row.scoreDelta.value];
      var dims := ReportDimensionValues(views[row.domain]);
      ghost var was := membersByKey;
      membersByKey := AddMember(dims, row.domain, membersByKey);
      forall key ensures GetMembers(membersByKey, key) == Members(rows[..i + 1], d, key) {
        assert JoinedAt(membersByKey, was, row.domain, dims, key);
      }
    }
    assert rows[..|rows|] == rows;
  }
}
