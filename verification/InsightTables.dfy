/** What the batch and the domain insight tables share: a capped map of records that folds its oldest
    record into the "other" record to make room, and why no count is lost on the way. */
module InsightTables {
  import opened Sums

  datatype Table<E> = Table(entries: map<string, E>, other: E)

  /** The record an observation writes to: a lookup in the source hands it out by reference. */
  datatype Slot = Entry(key: string) | Other

  function Read<E>(t: Table<E>, s: Slot): E
    requires s.Entry? ==> s.key in t.entries
  {
    match s
    case Entry(key) => t.entries[key]
    case Other => t.other
  }

  function Write<E>(t: Table<E>, s: Slot, e: E): Table<E> {
    match s
    case Entry(key) => t.(entries := t.entries[key := e])
    case Other => t.(other := e)
  }

  ghost predicate Oldest<E>(entries: map<string, E>, updated: E -> int, key: string) {
    key in entries && forall k :: k in entries ==> updated(entries[key]) <= updated(entries[k])
  }

  /** One of the oldest records has been folded into "other" and deleted. */
  ghost predicate Evicted<E>(t: Table<E>, updated: E -> int, merge: (E, E) -> E, u: Table<E>) {
    exists v :: Oldest(t.entries, updated, v) && u == Table(t.entries - {v}, merge(t.other, t.entries[v]))
  }

  /** Finding the record of a key, or making one, with at most one eviction. */
  ghost predicate Opened<E(!new)>(t: Table<E>, limit: int, key: string, blank: E, updated: E -> int, merge: (E, E) -> E,
                            u: Table<E>, s: Slot)
  {
    if key in t.entries then u == t && s == Entry(key)
    else if limit <= 0 then u == t.(other := merge(t.other, blank)) && s == Other
    else if |t.entries| < limit then u == t.(entries := t.entries[key := blank]) && s == Entry(key)
    else exists w: Table<E> :: Evicted(t, updated, merge, w) && u == w.(entries := w.entries[key := blank]) && s == Entry(key)
  }

  ghost function Column<E>(entries: map<string, E>, count: E -> int): map<string, int> {
    map k | k in entries :: count(entries[k])
  }

  /** One count over the whole table: all live records and the "other" record. */
  ghost function Kept<E>(t: Table<E>, count: E -> int): int {
    Total(Column(t.entries, count)) + count(t.other)
  }

  /** The count of a record survives a merge, and a new record holds nothing. */
  ghost predicate Additive<E(!new)>(count: E -> int, merge: (E, E) -> E, blank: E) {
    count(blank) == 0 && forall a, b :: count(merge(a, b)) == count(a) + count(b)
  }

  lemma WriteKept<E>(t: Table<E>, s: Slot, e: E, count: E -> int)
    requires s.Entry? ==> s.key in t.entries
    ensures Kept(Write(t, s, e), count) == Kept(t, count) - count(Read(t, s)) + count(e)
    ensures |Write(t, s, e).entries| == |t.entries|
  {
    if s.Entry? {
      PutTotal(t.entries, s.key, e, count);
      assert t.entries[s.key := e].Keys == t.entries.Keys;
      assert |t.entries[s.key := e].Keys| == |t.entries.Keys|;
    }
  }

  lemma PutTotal<E>(entries: map<string, E>, key: string, e: E, count: E -> int)
    ensures Total(Column(entries[key := e], count)) ==
      Total(Column(entries, count)) - (if key in entries then count(entries[key]) else 0) + count(e)
  {
    TotalUpdate(Column(entries, count), key, count(e));
    assert Column(entries[key := e], count) == Column(entries, count)[key := count(e)];
  }

  /** Evicting moves counts without losing any, and frees one place. */
  lemma EvictionKeeps<E(!new)>(t: Table<E>, updated: E -> int, merge: (E, E) -> E, blank: E, u: Table<E>, count: E -> int)
    requires Evicted(t, updated, merge, u) && Additive(count, merge, blank)
    ensures Kept(u, count) == Kept(t, count)
    ensures |u.entries| == |t.entries| - 1
  {
    var v :| Oldest(t.entries, updated, v) && u == Table(t.entries - {v}, merge(t.other, t.entries[v]));
    TotalRemove(Column(t.entries, count), v);
    assert Column(u.entries, count) == Column(t.entries, count) - {v};
    assert u.entries.Keys == t.entries.Keys - {v};
    assert |u.entries.Keys| == |t.entries.Keys| - 1;
  }

  /** Looking a record up keeps every count and the bound, whatever is evicted for it. */
  lemma OpeningKeeps<E(!new)>(t: Table<E>, limit: int, key: string, blank: E, updated: E -> int, merge: (E, E) -> E,
                              u: Table<E>, s: Slot, count: E -> int)
    requires Opened(t, limit, key, blank, updated, merge, u, s) && Additive(count, merge, blank)
    requires limit > 0 ==> |t.entries| <= limit
    ensures Kept(u, count) == Kept(t, count)
    ensures limit > 0 ==> |u.entries| <= limit
    ensures s.Entry? ==> s.key == key && key in u.entries
    ensures limit > 0 ==> s.Entry?
  {
    if key !in t.entries && limit > 0 {
      if |t.entries| < limit {
        PutTotal(t.entries, key, blank, count);
        PutGrows(t.entries, key, blank);
      } else {
        var w: Table<E> :| Evicted(t, updated, merge, w) && u == w.(entries := w.entries[key := blank]);
        EvictionKeeps(t, updated, merge, blank, w, count);
        assert key !in w.entries;
        PutTotal(w.entries, key, blank, count);
        PutGrows(w.entries, key, blank);
      }
    }
  }

  lemma PutGrows<E>(entries: map<string, E>, key: string, e: E)
    ensures |entries[key := e]| <= |entries| + 1
  {
    assert entries[key := e].Keys == entries.Keys + {key};
    assert |entries[key := e].Keys| <= |entries.Keys| + 1;
  }

  /** The scan for the record to evict: map order is arbitrary, so ties fall anywhere. */
  method OldestKey<E>(entries: map<string, E>, updated: E -> int) returns (key: string)
    requires entries != map[]
    ensures Oldest(entries, updated, key)
  {
    var pending := entries.Keys;
    key :| key in pending;
    pending := pending - {key};
    while pending != {}
      invariant pending <= entries.Keys
      invariant key in entries && forall k :: k in entries && k !in pending ==> updated(entries[key]) <= updated(entries[k])
      decreases |pending|
    {
      var k :| k in pending;
      if updated(entries[k]) < updated(entries[key]) {
        key := k;
      }
      pending := pending - {k};
    }
  }
}
