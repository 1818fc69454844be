/** Counting how many names of a map have each value, one name at a time in any order. */
module Tallies {
  import opened Sums

  function Bump<K>(counts: map<K, int>, k: K): map<K, int> {
    counts[k := CountAt(counts, k) + 1]
  }

  ghost function Having<K(!new)>(f: map<string, K>, k: K): set<string> {
    set name | name in f && f[name] == k
  }

  /** counts says how many names have each value. */
  ghost predicate Counts<K(!new)>(counts: map<K, int>, f: map<string, K>) {
    && (forall k :: k in counts ==> counts[k] > 0)
    && (forall k :: CountAt(counts, k) == |Having(f, k)|)
  }

  /** Every value with the number of names that have it. */
  ghost function CountsOf<K(!new)>(f: map<string, K>): map<K, int> {
    map k | k in (set name | name in f :: f[name]) :: |Having(f, k)|
  }

  /** Counts determines the whole table of counts. */
  lemma CountsExactly<K(!new)>(counts: map<K, int>, f: map<string, K>)
    ensures Counts(counts, f) <==> counts == CountsOf(f)
  {
    forall k ensures k in CountsOf(f) <==> Having(f, k) != {} {
      if k in CountsOf(f) {
        var name :| name in f && f[name] == k;
        assert name in Having(f, k);
      }
      if name :| name in Having(f, k) {
        assert f[name] == k;
      }
    }
    if Counts(counts, f) {
      forall k ensures k in counts <==> k in CountsOf(f) {
        assert CountAt(counts, k) == |Having(f, k)|;
      }
      assert counts.Keys == CountsOf(f).Keys;
    }
  }

  lemma CountsBump<K(!new)>(counts: map<K, int>, f: map<string, K>, name: string, k: K)
    requires Counts(counts, f) && name !in f
    ensures Counts(Bump(counts, k), f[name := k])
  {
    forall x ensures CountAt(Bump(counts, k), x) == |Having(f[name := k], x)| {
      assert Having(f[name := k], x) == if x == k then Having(f, x) + {name} else Having(f, x);
      assert CountAt(counts, x) == |Having(f, x)|;
    }
  }

  function Drop<K>(counts: map<K, int>, k: K): map<K, int>
    requires k in counts
  {
    if counts[k] == 1 then counts - {k} else counts[k := counts[k] - 1]
  }

  lemma CountsDrop<K(!new)>(counts: map<K, int>, f: map<string, K>, name: string)
    requires Counts(counts, f) && name in f
    ensures f[name] in counts && Counts(Drop(counts, f[name]), f - {name})
  {
    var k := f[name];
    assert name in Having(f, k);
    assert CountAt(counts, k) == |Having(f, k)| && |Having(f, k)| >= |{name}|;
    forall x ensures CountAt(Drop(counts, k), x) == |Having(f - {name}, x)| {
      assert Having(f - {name}, x) == if x == k then Having(f, x) - {name} else Having(f, x);
      assert CountAt(counts, x) == |Having(f, x)|;
    }
  }

  /** The counts of all values add up to the number of names. */
  lemma {:induction false} CountsSum<K(!new)>(counts: map<K, int>, f: map<string, K>)
    requires Counts(counts, f)
    ensures Total(counts) == |f|
  {
    if f == map[] {
      CountsExactly(counts, f);
      assert CountsOf(f) == map[];
    } else {
      var name :| name in f;
      var k := f[name];
      CountsDrop(counts, f, name);
      CountsSum(Drop(counts, k), f - {name});
      DropTotal(counts, k);
      assert (f - {name}).Keys == f.Keys - {name};
      assert |f.Keys - {name}| == |f.Keys| - 1;
    }
  }

  lemma DropTotal<K>(counts: map<K, int>, k: K)
    requires k in counts
    ensures Total(Drop(counts, k)) == Total(counts) - 1
  {
    TotalRemove(counts, k);
    if counts[k] != 1 {
      TotalUpdate(counts, k, counts[k] - 1);
    }
  }

  /** Taking one more name out of the pending ones counts its value. */
  lemma CountNext<K(!new)>(counts: map<K, int>, f: map<string, K>, pending: set<string>, name: string)
    requires Counts(counts, f - pending) && name in pending
    ensures name in f ==> Counts(Bump(counts, f[name]), f - (pending - {name}))
    ensures name !in f ==> Counts(counts, f - (pending - {name}))
  {
    if name in f {
      CountsBump(counts, f - pending, name, f[name]);
      assert f - (pending - {name}) == (f - pending)[name := f[name]];
    } else {
      assert f - (pending - {name}) == f - pending;
    }
  }
}
