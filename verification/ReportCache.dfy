/** The first-in first-out memo cache behind the cohort report and the snapshot views, and its keys. */
module ReportCache {
  import opened Text

  /** A cache as a value: size is the cap, order the keys by insertion. */
  datatype Cache<T> = Cache(entries: map<string, T>, order: seq<string>, size: nat)

  ghost predicate WellFormed<T>(c: Cache<T>) {
    && (forall i, j :: 0 <= i < j < |c.order| ==> c.order[i] != c.order[j])
    && (forall k :: k in c.entries <==> k in c.order)
    && |c.order| <= c.size
  }

  ghost function Members(keys: seq<string>): set<string> {
    set k | k in keys
  }

  /** How many keys, from the front of the order, no longer fit. */
  function Excess(n: nat, size: nat): nat {
    if n > size then n - size else 0
  }

  ghost function Stored<T>(c: Cache<T>, key: string, value: T): Cache<T> {
    var order := if key in c.entries then c.order else c.order + [key];
    var drop := Excess(|order|, c.size);
    Cache(c.entries[key := value] - Members(order[..drop]), order[drop..], c.size)
  }

  function Dropped<T>(c: Cache<T>): Cache<T> {
    Cache(map[], [], c.size)
  }

  lemma MembersSplit(order: seq<string>, i: nat)
    requires i <= |order| && forall j, k :: 0 <= j < k < |order| ==> order[j] != order[k]
    ensures Members(order[i..]) == Members(order) - Members(order[..i])
  {
    forall k | k in order[i..] ensures k !in order[..i] {
      var j :| i <= j < |order| && order[j] == k;
    }
    assert order == order[..i] + order[i..];
  }

  /** The order list stays duplicate-free with exactly the map's keys, and within the cap. */
  lemma StoredKeeps<T>(c: Cache<T>, key: string, value: T)
    requires WellFormed(c)
    ensures WellFormed(Stored(c, key, value))
  {
    var order := if key in c.entries then c.order else c.order + [key];
    var drop := Excess(|order|, c.size);
    MembersSplit(order, drop);
    var after := Stored(c, key, value);
    forall k ensures k in after.entries <==> k in after.order {
      assert k in Members(order[drop..]) <==> k in Members(order) && k !in Members(order[..drop]);
      assert k in Members(order) <==> k in c.entries[key := value];
    }
  }

  /** The stored value is found again, other values are untouched, and at most the longest-held key goes:
      only for a new key, and only from a full cache. */
  lemma StoredContents<T>(c: Cache<T>, key: string, value: T)
    requires WellFormed(c)
    ensures var after := Stored(c, key, value);
      && (forall k :: k in after.entries ==>
            if k == key then after.entries[k] == value else k in c.entries && after.entries[k] == c.entries[k])
      && (c.size > 0 ==>
            after.entries.Keys == if key in c.entries || |c.order| < c.size then c.entries.Keys + {key}
                                  else c.entries.Keys - {c.order[0]} + {key})
  {
    if key !in c.entries && |c.order| == c.size > 0 {
      assert (c.order + [key])[..1] == [c.order[0]];
      assert Members([c.order[0]]) == {c.order[0]};
      assert c.order[0] in c.entries;
    } else {
      assert Members(c.order[..0]) == {} && Members((c.order + [key])[..0]) == {};
    }
  }

  /** Values that a build would return now. */
  ghost predicate Agrees<T>(entries: map<string, T>, build: string -> T) {
    forall k :: k in entries ==> entries[k] == build(k)
  }

  class AnalysisCache<T> {
    var entries: map<string, T>
    var order: seq<string>
    const size: nat

    ghost function State(): Cache<T>
      reads this
    {
      Cache(entries, order, size)
    }

    ghost predicate Valid()
      reads this
    {
      WellFormed(State())
    }

    constructor (size: nat)
      ensures Valid() && entries == map[] && this.size == size
    {
      entries, order := map[], [];
      this.size := size;
    }

    method Get(key: string) returns (value: Option<T>)
      ensures value == if key in entries then Some(entries[key]) else None
    {
      value := if key in entries then Some(entries[key]) else None;
    }

    method Put(key: string, value: T)
      requires Valid()
      modifies this
      ensures Valid() && State() == Stored(old(State()), key, value)
    {
      if key !in entries {
        order := order + [key];
      }
      entries := entries[key := value];
      ghost var all, full := order, entries;
      ghost var dropped: nat := 0;
      while |order| > size
        invariant dropped <= Excess(|all|, size) && order == all[dropped..]
        invariant entries == full - Members(all[..dropped])
        decreases |order|
      {
        assert all[..dropped + 1] == all[..dropped] + [order[0]];
        assert Members(all[..dropped + 1]) == Members(all[..dropped]) + {order[0]};
        entries := entries - {order[0]};
        order := order[1..];
        dropped := dropped + 1;
      }
      StoredKeeps(old(State()), key, value);
    }

    method Reset()
      modifies this
      ensures Valid() && State() == Dropped(old(State()))
    {
      entries := map[];
      order := [];
    }

    /** One caller at a time: the concurrent protocol is in CacheRuns. */
    method Compute(key: string, build: () -> T) returns (value: T)
      requires Valid()
      modifies this
      ensures Valid()
      ensures if key in old(entries) then value == old(entries)[key] && State() == old(State())
              else value == build() && State() == Stored(old(State()), key, value)
    {
      var hit := Get(key);
      if hit.Some? {
        return hit.value;
      }
      value := build();
      Put(key, value);
    }
  }

  /** A memo of a fixed build always answers with the build, and keeps doing so. */
  lemma StoringAgrees<T>(c: Cache<T>, key: string, build: string -> T)
    requires WellFormed(c) && Agrees(c.entries, build)
    ensures Agrees(Stored(c, key, build(key)).entries, build)
  {
    StoredContents(c, key, build(key));
  }

  datatype Snapshot = Snapshot(id: int, updatedAtNanos: int)

  function SnapshotKey(s: Snapshot): string {
    Decimal(s.id) + ":" + Decimal(s.updatedAtNanos)
  }

  function SnapshotPairKey(from: Snapshot, to: Snapshot): string {
    SnapshotKey(from) + ":" + SnapshotKey(to)
  }

  /** Different versions of a snapshot never share a key. */
  lemma SnapshotKeyInjective(a: Snapshot, b: Snapshot)
    ensures SnapshotKey(a) == SnapshotKey(b) <==> a == b
  {
    if SnapshotKey(a) == SnapshotKey(b) {
      DecimalInjective(a.id, b.id);
      DecimalInjective(b.id, a.id);
      DecimalInjective(a.updatedAtNanos, b.updatedAtNanos);
      SplitUnique(Decimal(a.id), Decimal(a.updatedAtNanos), Decimal(b.id), Decimal(b.updatedAtNanos), ':');
    }
  }

  /** Nor do different pairs: the key determines both ids and both update times. */
  lemma SnapshotPairKeyInjective(a: Snapshot, b: Snapshot, c: Snapshot, d: Snapshot)
    ensures SnapshotPairKey(a, b) == SnapshotPairKey(c, d) <==> a == c && b == d
  {
    if SnapshotPairKey(a, b) == SnapshotPairKey(c, d) {
      var restA, restC := Decimal(a.updatedAtNanos) + ":" + SnapshotKey(b), Decimal(c.updatedAtNanos) + ":" + SnapshotKey(d);
      assert SnapshotPairKey(a, b) == Decimal(a.id) + ":" + restA;
      assert SnapshotPairKey(c, d) == Decimal(c.id) + ":" + restC;
      DecimalInjective(a.id, c.id);
      DecimalInjective(c.id, a.id);
      SplitUnique(Decimal(a.id), restA, Decimal(c.id), restC, ':');
      DecimalInjective(a.updatedAtNanos, c.updatedAtNanos);
      DecimalInjective(c.updatedAtNanos, a.updatedAtNanos);
      SplitUnique(Decimal(a.updatedAtNanos), SnapshotKey(b), Decimal(c.updatedAtNanos), SnapshotKey(d), ':');
      SnapshotKeyInjective(b, d);
    }
  }

  /** Only non-empty reads are kept, so an empty read is retried by the next caller. */
  method CachedViews<T>(c: AnalysisCache<seq<T>>, snap: Snapshot, load: () -> seq<T>) returns (rows: seq<T>)
    requires c.Valid()
    modifies c
    ensures c.Valid()
    ensures var key := SnapshotKey(snap);
      if key in old(c.entries) then rows == old(c.entries)[key] && c.State() == old(c.State())
      else rows == load() && c.State() == if rows == [] then old(c.State()) else Stored(old(c.State()), key, rows)
  {
    var key := SnapshotKey(snap);
    var hit := c.Get(key);
    if hit.Some? {
      return hit.value;
    }
    rows := load();
    if |rows| > 0 {
      c.Put(key, rows);
    }
  }

  /** Keys are held in the order they came: a new one goes behind, and what is left of the others keeps its order. */
  lemma StoredOrder<T>(c: Cache<T>, key: string, value: T)
    requires WellFormed(c) && c.size > 0
    ensures var after := Stored(c, key, value);
      if key in c.entries then after.order == c.order
      else after.order == (if |c.order| == c.size then c.order[1..] else c.order) + [key]
  {
    assert |c.order| == c.size ==> (c.order + [key])[1..] == c.order[1..] + [key];
  }
}
