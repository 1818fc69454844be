/** Totals of finite maps. Go's map iteration order is arbitrary, so every sum the
    server takes over a map is specified by one of these order-free totals. */
module Sums {

  /** A map read: an absent key counts zero. */
  function CountAt<K>(counts: map<K, int>, k: K): int {
    if k in counts then counts[k] else 0
  }

  ghost function Total<K>(m: map<K, int>): int {
    if m == map[] then 0
    else
      var k :| k in m;
      m[k] + Total(m - {k})
  }

  ghost function TotalReal<K>(m: map<K, real>): real {
    if m == map[] then 0.0
    else
      var k :| k in m;
      m[k] + TotalReal(m - {k})
  }

  lemma {:induction false} TotalRemove<K>(m: map<K, int>, k: K)
    requires k in m
    ensures Total(m) == m[k] + Total(m - {k})
  {
    var p :| p in m && Total(m) == m[p] + Total(m - {p});
    if p != k {
      TotalRemove(m - {p}, k);
      TotalRemove(m - {k}, p);
      assert m - {p} - {k} == m - {k} - {p};
    }
  }

  lemma TotalUpdate<K>(m: map<K, int>, k: K, v: int)
    ensures Total(m[k := v]) == Total(m) - (if k in m then m[k] else 0) + v
  {
    var u := m[k := v];
    TotalRemove(u, k);
    assert u - {k} == m - {k};
    if k in m {
      TotalRemove(m, k);
    } else {
      assert m - {k} == m;
    }
  }

  lemma {:induction false} TotalLinear<K>(a: map<K, int>, b: map<K, int>, c: map<K, int>)
    requires a.Keys == b.Keys == c.Keys
    requires forall k :: k in c ==> c[k] == a[k] + b[k]
    ensures Total(c) == Total(a) + Total(b)
  {
    if c == map[] {
      assert c.Keys == {};
      assert a == map[] && b == map[];
    } else {
      var k :| k in c;
      TotalRemove(a, k);
      TotalRemove(b, k);
      TotalRemove(c, k);
      TotalLinear(a - {k}, b - {k}, c - {k});
    }
  }

  lemma {:induction false} TotalMonotone<K>(a: map<K, int>, b: map<K, int>)
    requires a.Keys <= b.Keys
    requires forall k :: k in a ==> a[k] <= b[k]
    requires forall k :: k in b && k !in a ==> 0 <= b[k]
    ensures Total(a) <= Total(b)
  {
    if b == map[] {
      assert b.Keys == {};
      assert a == map[];
    } else {
      var k :| k in b;
      TotalRemove(b, k);
      if k in a {
        TotalRemove(a, k);
        TotalMonotone(a - {k}, b - {k});
      } else {
        TotalMonotone(a, b - {k});
      }
    }
  }

  /** Keys holding zero do not change a total. */
  lemma {:induction false} TotalPad<K>(a: map<K, int>, b: map<K, int>)
    requires a.Keys <= b.Keys
    requires forall k :: k in b ==> b[k] == if k in a then a[k] else 0
    ensures Total(a) == Total(b)
  {
    TotalMonotone(a, b);
    var na, nb := map k | k in a :: -a[k], map k | k in b :: -b[k];
    TotalMonotone(na, nb);
    var za, zb := map k | k in a :: 0, map k | k in b :: 0;
    TotalLinear(a, na, za);
    TotalLinear(b, nb, zb);
    TotalZero(za);
    TotalZero(zb);
  }

  lemma {:induction false} TotalZero<K>(m: map<K, int>)
    requires forall k :: k in m ==> m[k] == 0
    ensures Total(m) == 0
  {
    if m != map[] {
      var k :| k in m && Total(m) == m[k] + Total(m - {k});
      TotalZero(m - {k});
    }
  }

  /** The sum of f over a list, entry by entry in list order. */
  ghost function SumBy<T>(xs: seq<T>, f: T -> int): int {
    if xs == [] then 0 else SumBy(xs[..|xs| - 1], f) + f(xs[|xs| - 1])
  }

  lemma SumByStep<T>(xs: seq<T>, f: T -> int, i: nat)
    requires i < |xs|
    ensures SumBy(xs[..i + 1], f) == SumBy(xs[..i], f) + f(xs[i])
  {
    assert xs[..i + 1][..i] == xs[..i];
  }

  lemma {:induction false} SumByConcat<T>(a: seq<T>, b: seq<T>, f: T -> int)
    ensures SumBy(a + b, f) == SumBy(a, f) + SumBy(b, f)
  {
    if b == [] {
      assert a + b == a;
    } else {
      assert (a + b)[..|a + b| - 1] == a + b[..|b| - 1];
      SumByConcat(a, b[..|b| - 1], f);
    }
  }

  lemma SumByOne<T>(x: T, f: T -> int)
    ensures SumBy([x], f) == f(x)
  {
    assert [x][..0] == [];
  }

  lemma {:induction false} SumByAgree<T>(xs: seq<T>, f: T -> int, g: T -> int)
    requires forall x :: x in xs ==> f(x) == g(x)
    ensures SumBy(xs, f) == SumBy(xs, g)
  {
    if xs != [] {
      SumByAgree(xs[..|xs| - 1], f, g);
      assert xs[|xs| - 1] in xs;
    }
  }

  function Without<T>(xs: seq<T>, i: nat): seq<T>
    requires i < |xs|
  {
    xs[..i] + xs[i + 1..]
  }

  lemma SumByMiddle<T>(a: seq<T>, x: T, b: seq<T>, f: T -> int)
    ensures SumBy(a + [x] + b, f) == SumBy(a + b, f) + f(x)
  {
    assert (a + [x])[..|a|] == a;
    SumByConcat(a + [x], b, f);
    SumByConcat(a, b, f);
  }

  lemma SplitAt<T>(xs: seq<T>, i: nat)
    requires i < |xs|
    ensures xs == xs[..i] + [xs[i]] + xs[i + 1..]
  {}

  lemma SumByWithout<T>(xs: seq<T>, i: nat, f: T -> int)
    requires i < |xs|
    ensures SumBy(xs, f) == SumBy(Without(xs, i), f) + f(xs[i])
  {
    SplitAt(xs, i);
    SumByMiddle(xs[..i], xs[i], xs[i + 1..], f);
  }

  lemma MultisetWithout<T>(xs: seq<T>, i: nat)
    requires i < |xs|
    ensures multiset(Without(xs, i)) == multiset(xs) - multiset{xs[i]}
  {
    assert xs == xs[..i] + ([xs[i]] + xs[i + 1..]);
  }

  lemma {:induction false} SumByPermutation<T>(a: seq<T>, b: seq<T>, f: T -> int)
    requires multiset(a) == multiset(b)
    ensures SumBy(a, f) == SumBy(b, f)
  {
    assert |multiset(a)| == |multiset(b)|;
    if a != [] {
      assert a[|a| - 1] in multiset(b);
      var i :| 0 <= i < |b| && b[i] == a[|a| - 1];
      SumByWithout(a, |a| - 1, f);
      SumByWithout(b, i, f);
      MultisetWithout(a, |a| - 1);
      MultisetWithout(b, i);
      SumByPermutation(Without(a, |a| - 1), Without(b, i), f);
    }
  }

  lemma {:induction false} SumByBounds<T>(xs: seq<T>, f: T -> int)
    requires forall x :: x in xs ==> 0 <= f(x)
    ensures 0 <= SumBy(xs, f)
    ensures SumBy(xs, f) > 0 <==> exists x :: x in xs && f(x) > 0
  {
    if xs != [] {
      var front, x := xs[..|xs| - 1], xs[|xs| - 1];
      assert xs == front + [x];
      SumByBounds(front, f);
      if f(x) > 0 {
        assert x in xs;
      }
    }
  }

  /** A list that holds at most one value per key sums to the total of the map it lists. */
  lemma {:induction false} ListTotal<T, K>(xs: seq<T>, key: T -> K, f: T -> int, m: map<K, int>)
    requires forall i, j :: 0 <= i < j < |xs| ==> key(xs[i]) != key(xs[j])
    requires m.Keys == set i | 0 <= i < |xs| :: key(xs[i])
    requires forall i :: 0 <= i < |xs| ==> m[key(xs[i])] == f(xs[i])
    ensures SumBy(xs, f) == Total(m)
  {
    if xs == [] {
      assert m == map[];
    } else {
      var front, x := xs[..|xs| - 1], xs[|xs| - 1];
      TotalRemove(m, key(x));
      var rest := m - {key(x)};
      forall k | k in rest ensures exists i :: 0 <= i < |front| && key(front[i]) == k {
        var i :| 0 <= i < |xs| && key(xs[i]) == k;
        assert front[i] == xs[i];
      }
      forall i | 0 <= i < |front| ensures key(front[i]) in rest && rest[key(front[i])] == f(front[i]) {
        assert front[i] == xs[i] && key(xs[i]) in m;
      }
      ListTotal(front, key, f, rest);
    }
  }

  lemma {:induction false} TotalRealRemove<K>(m: map<K, real>, k: K)
    requires k in m
    ensures TotalReal(m) == m[k] + TotalReal(m - {k})
  {
    var p :| p in m && TotalReal(m) == m[p] + TotalReal(m - {p});
    if p != k {
      TotalRealRemove(m - {p}, k);
      TotalRealRemove(m - {k}, p);
      assert m - {p} - {k} == m - {k} - {p};
    }
  }

  /** Taking k out of the pending keys adds its value to the running total. */
  lemma TotalRealTake<K>(m: map<K, real>, pending: set<K>, k: K)
    requires k in m && k in pending
    ensures TotalReal(m - (pending - {k})) == TotalReal(m - pending) + m[k]
  {
    var more := m - (pending - {k});
    TotalRealRemove(more, k);
    assert more - {k} == m - pending;
  }

  /** Totals of maps that agree except at one key differ by that key's values. */
  lemma TotalRealDiffer<K>(a: map<K, real>, b: map<K, real>, k: K)
    requires a.Keys == b.Keys && k in a && forall j :: j in a && j != k ==> a[j] == b[j]
    ensures TotalReal(b) == TotalReal(a) - a[k] + b[k]
  {
    TotalRealRemove(a, k);
    TotalRealRemove(b, k);
    assert a - {k} == b - {k};
  }

  lemma {:induction false} TotalRealAdd<K>(a: map<K, real>, b: map<K, real>, c: map<K, real>)
    requires a.Keys == b.Keys == c.Keys
    requires forall k :: k in c ==> c[k] == a[k] + b[k]
    ensures TotalReal(c) == TotalReal(a) + TotalReal(b)
  {
    if c == map[] {
      assert c.Keys == {};
      assert a == map[] && b == map[];
    } else {
      var k :| k in c;
      TotalRealRemove(a, k);
      TotalRealRemove(b, k);
      TotalRealRemove(c, k);
      TotalRealAdd(a - {k}, b - {k}, c - {k});
    }
  }

  lemma {:induction false} TotalRealHundred<K>(a: map<K, real>, c: map<K, real>)
    requires a.Keys == c.Keys
    requires forall k :: k in c ==> c[k] == 100.0 * a[k]
    ensures TotalReal(c) == 100.0 * TotalReal(a)
  {
    if c == map[] {
      assert c.Keys == {};
      assert a == map[];
    } else {
      var k :| k in c;
      TotalRealRemove(a, k);
      TotalRealRemove(c, k);
      TotalRealHundred(a - {k}, c - {k});
    }
  }

  lemma {:induction false} TotalRealMonotone<K>(a: map<K, real>, b: map<K, real>)
    requires a.Keys == b.Keys
    requires forall k :: k in a ==> a[k] <= b[k]
    ensures TotalReal(a) <= TotalReal(b)
  {
    if a == map[] {
      assert a.Keys == {};
      assert b == map[];
    } else {
      var k :| k in a;
      TotalRealRemove(a, k);
      TotalRealRemove(b, k);
      TotalRealMonotone(a - {k}, b - {k});
    }
  }

  lemma {:induction false} TotalRealPad<K>(a: map<K, real>, b: map<K, real>)
    requires a.Keys <= b.Keys
    requires forall k :: k in b ==> b[k] == if k in a then a[k] else 0.0
    ensures TotalReal(a) == TotalReal(b)
  {
    if b == map[] {
      assert b.Keys == {};
      assert a == map[];
    } else {
      var k :| k in b;
      TotalRealRemove(b, k);
      if k in a {
        TotalRealRemove(a, k);
        TotalRealPad(a - {k}, b - {k});
      } else {
        TotalRealPad(a, b - {k});
      }
    }
  }
}
