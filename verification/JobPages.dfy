/** The merged /jobs listing: all in-flight jobs with a bounded read of the finished runs, sorted and cut into pages.
    Items are job ids; what the orders compare is looked up by id. */
module JobPages {
  import opened Numbers
  import opened Sorting
  import opened Text

  const IN_FLIGHT_MERGE_CAP: nat := 10000

  const DEFAULT_LIMIT: nat := 100

  datatype JobList<T> = JobList(
    items: seq<T>, total: nat, limit: nat, offset: nat, prevCursor: Option<nat>, nextCursor: Option<nat>)

  function First<T>(s: seq<T>, n: nat): seq<T> {
    s[..Min(n, |s|)]
  }

  /** Items offset..offset+limit of a list, or as many of them as there are. */
  function Slice<T>(s: seq<T>, offset: nat, limit: nat): seq<T> {
    First(s, offset + limit)[Min(offset, |s|)..]
  }

  /** A page cut from a list, with its cursors. */
  function PageOf<T>(all: seq<T>, total: nat, limit: nat, offset: nat): JobList<T> {
    var items := Slice(all, offset, limit);
    JobList(items, total, limit, offset,
            if offset > 0 then Some(Max(offset - limit, 0)) else None,
            if offset + |items| < total then Some(offset + |items|) else None)
  }

  /** The job store's answer for the in-flight jobs, in its own order. */
  function InFlight<T>(le: (T, T) -> bool, active: seq<T>): seq<T> {
    First(Sort(le, active), IN_FLIGHT_MERGE_CAP)
  }

  /** What the handler pages through: in-flight jobs merged with the runs it read. */
  function Merged<T>(le: (T, T) -> bool, storeLe: (T, T) -> bool, inFlight: seq<T>, runs: seq<T>, reach: nat): seq<T> {
    Sort(le, inFlight + First(Sort(storeLe, runs), reach))
  }

  /** The page the handler returns. */
  function JobsPage<T>(le: (T, T) -> bool, storeLe: (T, T) -> bool, inFlight: seq<T>, runs: seq<T>, limit: nat, offset: nat): JobList<T> {
    PageOf(Merged(le, storeLe, inFlight, runs, offset + limit + |inFlight|), |inFlight| + |runs|, limit, offset)
  }

  method AppendRuns<T>(inFlight: seq<T>, runs: seq<T>) returns (allItems: seq<T>)
    ensures allItems == inFlight + runs
  {
    allItems := inFlight;
    for i := 0 to |runs|
      invariant allItems == inFlight + runs[..i]
    {
      allItems := allItems + [runs[i]];
    }
    assert runs[..|runs|] == runs;
  }

  method CutPage<T>(allItems: seq<T>, total: nat, limit: nat, offset: nat) returns (list: JobList<T>)
    ensures list == PageOf(allItems, total, limit, offset)
  {
    var start := Min(offset, |allItems|);
    var end := Min(start + limit, |allItems|);
    var items := allItems[start..end];
    assert items == Slice(allItems, offset, limit);
    list := JobList(items, total, limit, offset, None, None);
    if offset > 0 {
      list := list.(prevCursor := Some(Max(offset - limit, 0)));
    }
    if offset + |items| < total {
      list := list.(nextCursor := Some(offset + |items|));
    }
  }

  /** The handler. A status filter drops one of the two sources. */
  method ListJobs<T>(active: seq<T>, finished: seq<T>, wantActive: bool, wantRuns: bool,
                     requestedLimit: int, requestedOffset: int, le: (T, T) -> bool, storeLe: (T, T) -> bool)
    returns (list: JobList<T>)
    ensures list == JobsPage(le, storeLe,
      if wantActive then InFlight(le, active) else [], if wantRuns then finished else [],
      if requestedLimit <= 0 then DEFAULT_LIMIT else requestedLimit, Max(requestedOffset, 0))
  {
    var offset, limit := Max(requestedOffset, 0), requestedLimit;
    if limit <= 0 {
      limit := DEFAULT_LIMIT;
    }
    var inFlight: seq<T> := [];
    if wantActive {
      inFlight := InFlight(le, active);
    }
    var runs: seq<T>, runTotal := [], 0;
    if wantRuns {
      runs := First(Sort(storeLe, finished), offset + limit + |inFlight|);
      runTotal := |finished|;
    }
    ghost var sources := if wantRuns then finished else [];
    assert runs == First(Sort(storeLe, sources), offset + limit + |inFlight|) && runTotal == |sources|;
    var allItems := AppendRuns(inFlight, runs);
    assert Sort(le, allItems) == Merged(le, storeLe, inFlight, sources, offset + limit + |inFlight|);
    list := CutPage(Sort(le, allItems), |inFlight| + runTotal, limit, offset);
  }

  // --- The bounded read reaches far enough ---

  lemma InFirst<T>(s: seq<T>, n: nat, x: T)
    requires n <= |s| && x !in s[n..]
    ensures multiset(s[..n])[x] == multiset(s)[x]
  {
    assert s == s[..n] + s[n..];
  }

  /** The n-th of a sorted list is at most a bound that n of its elements meet. */
  lemma NthBelow<T(!new)>(le: (T, T) -> bool, p: seq<T>, small: seq<T>, bound: T)
    requires TotalOrder(le) && Sorted(le, p) && small != []
    requires multiset(small) <= multiset(p) && forall i :: 0 <= i < |small| ==> le(small[i], bound)
    ensures |small| <= |p| && le(p[|small| - 1], bound)
  {
    MultisetSizes(multiset(small), multiset(p));
    var n := |small|;
    assert |multiset(small)| == n && |multiset(p)| == |p| && |multiset(p[..n - 1])| == n - 1;
    if !le(p[n - 1], bound) {
      forall x | x in multiset(small) ensures multiset(small)[x] <= multiset(p[..n - 1])[x] {
        assert x in small;
        BehindCut(le, p, n - 1, x, bound);
        InFirst(p, n - 1, x);
      }
      MultisetSizes(multiset(small), multiset(p[..n - 1]));
    }
  }

  lemma BehindCut<T(!new)>(le: (T, T) -> bool, p: seq<T>, i: nat, x: T, bound: T)
    requires Preorder(le) && Sorted(le, p) && i < |p| && le(x, bound) && !le(p[i], bound)
    ensures x !in p[i..]
  {
    forall j | i <= j < |p| ensures p[j] != x {
      assert le(p[i], p[j]) by { if j == i { assert le(p[j], p[j]); } }
    }
  }

  lemma MultisetSizes<T>(a: multiset<T>, b: multiset<T>)
    requires a <= b
    ensures |a| <= |b|
  {
    assert b == a + (b - a);
  }

  /** Runs beyond the first n sort behind the first n places of the merge. */
  lemma TailBehind<T(!new)>(le: (T, T) -> bool, a: seq<T>, r: seq<T>, n: nat)
    requires TotalOrder(le) && Sorted(le, r) && 0 < n <= |r|
    ensures var p := Sort(le, a + r[..n]);
      n <= |p| && Sorted(le, p) && multiset(p) == multiset(a + r[..n]) && forall t :: t in r[n..] ==> le(p[n - 1], t)
  {
    var p := Sort(le, a + r[..n]);
    SortSorts(le, a + r[..n]);
    assert multiset(r[..n]) <= multiset(p);
    forall i | 0 <= i < n ensures le(r[..n][i], r[n - 1]) {
      assert i == n - 1 ==> le(r[i], r[i]);
    }
    NthBelow(le, p, r[..n], r[n - 1]);
    forall t | t in r[n..] ensures le(p[n - 1], t) {
      var j :| n <= j < |r| && r[j] == t;
      assert le(r[n - 1], r[j]);
    }
  }

  lemma ConcatSorted<T>(le: (T, T) -> bool, a: seq<T>, b: seq<T>)
    requires Sorted(le, a) && Sorted(le, b)
    requires forall i, j :: 0 <= i < |a| && 0 <= j < |b| ==> le(a[i], b[j])
    ensures Sorted(le, a + b)
  {
  }

  /** A sorted list cut anywhere, its tail merged with elements that all come behind the cut. */
  lemma GluedSorted<T(!new)>(le: (T, T) -> bool, p: seq<T>, n: nat, t: seq<T>)
    requires Preorder(le) && Sorted(le, p) && 0 < n <= |p|
    requires forall x :: x in t ==> le(p[n - 1], x)
    ensures Sorted(le, p[..n] + Sort(le, p[n..] + t))
  {
    var tail := Sort(le, p[n..] + t);
    SortSorts(le, p[n..] + t);
    forall j | 0 <= j < |tail| ensures le(p[n - 1], tail[j]) {
      assert tail[j] in multiset(tail);
      assert tail[j] in p[n..] + t;
    }
    forall i | 0 <= i < n ensures le(p[i], p[n - 1]) {
      assert i == n - 1 ==> le(p[i], p[i]);
    }
    ConcatSorted(le, p[..n], tail);
  }

  /** Bounded read, full result: the first n places of the merge need only the first n runs. */
  lemma BoundedRead<T(!new)>(le: (T, T) -> bool, a: seq<T>, runs: seq<T>, n: nat)
    requires TotalOrder(le)
    ensures First(Merged(le, le, a, runs, n), n) == First(Sort(le, a + runs), n)
  {
    var r := Sort(le, runs);
    SortSorts(le, runs);
    SortCanonical(le, a + r, a + runs);
    if n >= |r| {
      assert r[..|r|] == r;
    } else if n > 0 {
      var p := Sort(le, a + r[..n]);
      TailBehind(le, a, r, n);
      GluedSorted(le, p, n, r[n..]);
      GluedElements(le, a, r, n);
      SortSorts(le, a + r);
      SortedUnique(le, p[..n] + Sort(le, p[n..] + r[n..]), Sort(le, a + r));
    }
  }

  lemma GluedElements<T(!new)>(le: (T, T) -> bool, a: seq<T>, r: seq<T>, n: nat)
    requires Preorder(le) && n <= |r| && n <= |Sort(le, a + r[..n])|
    ensures var p := Sort(le, a + r[..n]); multiset(p[..n] + Sort(le, p[n..] + r[n..])) == multiset(a + r)
  {
    var p := Sort(le, a + r[..n]);
    SortSorts(le, a + r[..n]);
    SortSorts(le, p[n..] + r[n..]);
    var t := r[n..];
    assert multiset(p) == multiset(p[..n]) + multiset(p[n..]) by { assert p == p[..n] + p[n..]; }
    assert multiset(r) == multiset(r[..n]) + multiset(t) by { assert r == r[..n] + t; }
    assert multiset(Sort(le, p[n..] + t)) == multiset(p[n..]) + multiset(t);
    assert multiset(p) == multiset(a) + multiset(r[..n]);
    assert multiset(p[..n] + Sort(le, p[n..] + t)) == multiset(p[..n]) + multiset(Sort(le, p[n..] + t));
    assert multiset(p[..n] + Sort(le, p[n..] + t)) == multiset(p) + multiset(t);
    assert multiset(a + r) == multiset(a) + multiset(r);
  }

  lemma FirstOfFirst<T>(s: seq<T>, t: seq<T>, n: nat, m: nat)
    requires First(s, n) == First(t, n) && m <= n
    ensures First(s, m) == First(t, m)
  {
    assert First(First(s, n), m) == First(s, m) && First(First(t, n), m) == First(t, m);
  }

  lemma SliceOfFirst<T>(s: seq<T>, t: seq<T>, offset: nat, limit: nat)
    requires First(s, offset + limit) == First(t, offset + limit)
    ensures Slice(s, offset, limit) == Slice(t, offset, limit)
  {
    var first := First(s, offset + limit);
    assert |first| == Min(offset + limit, |s|) == Min(offset + limit, |t|);
    assert Slice(s, offset, limit) == first[Min(offset, |first|)..];
    assert Slice(t, offset, limit) == first[Min(offset, |first|)..];
  }

  /** The page is the slice of the fully merged list, cursors and all. */
  lemma PageExact<T(!new)>(le: (T, T) -> bool, inFlight: seq<T>, runs: seq<T>, limit: nat, offset: nat)
    requires TotalOrder(le)
    ensures JobsPage(le, le, inFlight, runs, limit, offset)
      == PageOf(Sort(le, inFlight + runs), |Sort(le, inFlight + runs)|, limit, offset)
  {
    var reach, full := offset + limit + |inFlight|, Sort(le, inFlight + runs);
    SortSorts(le, inFlight + runs);
    SliceExact(le, inFlight, runs, reach, limit, offset);
    PageOfSlices(Merged(le, le, inFlight, runs, reach), full, |full|, limit, offset);
  }

  lemma PageOfSlices<T>(s: seq<T>, t: seq<T>, total: nat, limit: nat, offset: nat)
    requires Slice(s, offset, limit) == Slice(t, offset, limit)
    ensures PageOf(s, total, limit, offset) == PageOf(t, total, limit, offset)
  {}

  lemma SliceExact<T(!new)>(le: (T, T) -> bool, inFlight: seq<T>, runs: seq<T>, reach: nat, limit: nat, offset: nat)
    requires TotalOrder(le) && offset + limit <= reach
    ensures Slice(Merged(le, le, inFlight, runs, reach), offset, limit) == Slice(Sort(le, inFlight + runs), offset, limit)
  {
    var read, full := Merged(le, le, inFlight, runs, reach), Sort(le, inFlight + runs);
    BoundedRead(le, inFlight, runs, reach);
    FirstOfFirst(read, full, reach, offset + limit);
    SliceOfFirst(read, full, offset, limit);
  }

  // --- Walking the cursors ---

  /** All items met by following NextCursor from a page on. */
  function Walk<T>(all: seq<T>, limit: nat, offset: nat): seq<T>
    requires limit > 0 && offset <= |all|
    decreases |all| - offset
  {
    var page := PageOf(all, |all|, limit, offset);
    page.items + if page.nextCursor.Some? then Walk(all, limit, page.nextCursor.value) else []
  }

  /** Following NextCursor from the start meets every item exactly once, in order. */
  lemma {:induction false} WalkVisitsAll<T>(all: seq<T>, limit: nat, offset: nat)
    requires limit > 0 && offset <= |all|
    ensures Walk(all, limit, offset) == all[offset..]
    decreases |all| - offset
  {
    var page := PageOf(all, |all|, limit, offset);
    if page.nextCursor.Some? {
      WalkVisitsAll(all, limit, page.nextCursor.value);
      assert all[offset..] == all[offset..offset + limit] + all[offset + limit..];
    }
  }

  /** A page that has a next page is full, and PrevCursor leads back to it. */
  lemma PrevUndoesNext<T>(all: seq<T>, limit: nat, offset: nat)
    requires limit > 0 && PageOf(all, |all|, limit, offset).nextCursor.Some?
    ensures var next := PageOf(all, |all|, limit, offset).nextCursor.value;
      next == offset + limit && PageOf(all, |all|, limit, next).prevCursor == Some(offset)
  {}

  /** The listing's total counts every job exactly while the in-flight jobs fit under the cap. */
  lemma TotalExactIff<T(!new)>(le: (T, T) -> bool, storeLe: (T, T) -> bool, active: seq<T>, runs: seq<T>, limit: nat, offset: nat)
    requires Preorder(le)
    ensures JobsPage(le, storeLe, InFlight(le, active), runs, limit, offset).total == |active| + |runs|
      <==> |active| <= 10000
  {
    SortSorts(le, active);
  }

  // --- Two orders ---

  /** Every page of every listing equals the slice of its full merge. */
  ghost predicate PagesExact<T(!new)>(le: (T, T) -> bool, storeLe: (T, T) -> bool) {
    forall inFlight: seq<T>, runs: seq<T>, limit: nat, offset: nat ::
      JobsPage(le, storeLe, inFlight, runs, limit, offset).items == Slice(Sort(le, inFlight + runs), offset, limit)
  }

  /** The handler sorts with one order and the run store cuts its read with another: pages are exact
      for all inputs if and only if the two orders are the same. */
  lemma PagesExactIff<T(!new)>(le: (T, T) -> bool, storeLe: (T, T) -> bool)
    requires TotalOrder(le) && TotalOrder(storeLe)
    ensures PagesExact(le, storeLe) <==> forall a, b :: le(a, b) <==> storeLe(a, b)
  {
    if forall a, b :: le(a, b) <==> storeLe(a, b) {
      SameOrderExact(le, storeLe);
    } else {
      var a, b :| le(a, b) != storeLe(a, b);
      OrdersDiffer(le, storeLe, a, b);
    }
  }

  lemma SameOrderExact<T(!new)>(le: (T, T) -> bool, storeLe: (T, T) -> bool)
    requires TotalOrder(le) && TotalOrder(storeLe) && forall a, b :: le(a, b) <==> storeLe(a, b)
    ensures PagesExact(le, storeLe)
  {
    forall inFlight: seq<T>, runs: seq<T>, limit: nat, offset: nat
      ensures JobsPage(le, storeLe, inFlight, runs, limit, offset).items == Slice(Sort(le, inFlight + runs), offset, limit)
    {
      SameOrderSameSort(le, storeLe, runs);
      SliceExact(le, inFlight, runs, offset + limit + |inFlight|, limit, offset);
    }
  }

  lemma OrdersDiffer<T(!new)>(le: (T, T) -> bool, storeLe: (T, T) -> bool, a: T, b: T)
    requires TotalOrder(le) && TotalOrder(storeLe) && le(a, b) != storeLe(a, b)
    ensures !PagesExact(le, storeLe)
  {
    if storeLe(a, b) {
      SkippedRun(le, storeLe, a, b);
    } else {
      assert storeLe(a, a);
      SkippedRun(le, storeLe, b, a);
    }
  }

  lemma {:induction false} SameOrderSameSort<T(!new)>(le: (T, T) -> bool, storeLe: (T, T) -> bool, s: seq<T>)
    requires TotalOrder(le) && TotalOrder(storeLe) && forall a, b :: le(a, b) <==> storeLe(a, b)
    ensures Sort(le, s) == Sort(storeLe, s)
  {
    SortSorts(le, s);
    SortSorts(storeLe, s);
    SortedUnique(le, Sort(le, s), Sort(storeLe, s));
  }

  /** The walk over these two runs in pages of one has two pages, and both show the first run. */
  ghost predicate ShownTwice<T(!new)>(le: (T, T) -> bool, storeLe: (T, T) -> bool, a: T, b: T) {
    [JobsPage(le, storeLe, [], [a, b], 1, 0), JobsPage(le, storeLe, [], [a, b], 1, 1)]
    == [JobList([a], 2, 1, 0, None, Some(1)), JobList([a], 2, 1, 1, Some(0), None)]
  }

  /** Two runs the orders disagree on: the first page of one shows the wrong run, the second page shows
      it again, and no page shows the other run. */
  lemma SkippedRun<T(!new)>(le: (T, T) -> bool, storeLe: (T, T) -> bool, a: T, b: T)
    requires TotalOrder(le) && TotalOrder(storeLe) && storeLe(a, b) && !le(a, b)
    ensures ShownTwice(le, storeLe, a, b)
    ensures Slice(Sort(le, [] + [a, b]), 0, 1) == [b]
  {
    assert [a, b][1..] == [b] && [b][1..] == [];
    assert Sort(storeLe, [b]) == [b] && Sort(le, [b]) == [b] && Sort(le, [a]) == [a];
    assert [b][1..] == [] && Insert(le, a, [b]) == [b] + Insert(le, a, []);
    assert Sort(storeLe, [a, b]) == [a, b] && Sort(le, [a, b]) == [b, a];
    assert [] + [a] == [a] && [] + [a, b] == [a, b];
    assert First([a, b], 1) == [a] && First([a, b], 2) == [a, b];
    assert Merged(le, storeLe, [], [a, b], 1) == [a];
    assert Merged(le, storeLe, [], [a, b], 2) == [b, a];
    assert Slice([a], 0, 1) == [a] && Slice([b, a], 1, 1) == [a] && Slice([b, a], 0, 1) == [b];
  }

  // --- The orders in use ---

  /** What a sort ranks jobs by, larger first: a time or a count as it is, a name or a reversed order by its place. */
  type Rank = string -> int

  /** A sort: by its own fields, then by a tie-break, then by id. The handler breaks ties by creation, newest first. The
      run stores break them by finish, newest first, or under the oldest-start-first sort by creation, oldest first. */
  function By(field: Rank, tie: Rank): (string, string) -> bool {
    (a: string, b: string) =>
      if field(a) != field(b) then field(a) > field(b)
      else if tie(a) != tie(b) then tie(a) > tie(b)
      else StrLe(a, b)
  }

  function Reversed(rank: Rank): Rank {
    (a: string) => -rank(a)
  }

  lemma ByIsTotal(field: Rank, tie: Rank)
    ensures TotalOrder(By(field, tie))
  {
    forall a, b
      ensures StrLe(a, b) || StrLe(b, a)
      ensures StrLe(a, b) && StrLe(b, a) ==> a == b
    {
      StrLeReaches(a, b);
    }
    forall a, b, c | StrLe(a, b) && StrLe(b, c) ensures StrLe(a, c) {
      StrLeTransitive(a, b, c);
    }
  }

  /** Where the field ties, what the handler puts first the store puts first too, or else the ids settle it alike. */
  ghost predicate TieAgrees(field: Rank, tie: Rank, storeTie: Rank, a: string, b: string) {
    field(a) == field(b) ==>
      && (tie(a) > tie(b) ==> storeTie(a) > storeTie(b) || (storeTie(a) == storeTie(b) && StrLe(a, b)))
      && (tie(a) == tie(b) && storeTie(a) > storeTie(b) ==> StrLe(a, b))
  }

  /** When both sides rank by the same field, the listing's pages are exact for all inputs if and only if
      the two tie-breaks agree. */
  lemma ListingExactIff(field: Rank, tie: Rank, storeTie: Rank)
    ensures PagesExact(By(field, tie), By(field, storeTie)) <==> forall a, b :: TieAgrees(field, tie, storeTie, a, b)
  {
    var le, storeLe := By(field, tie), By(field, storeTie);
    ByIsTotal(field, tie);
    ByIsTotal(field, storeTie);
    PagesExactIff(le, storeLe);
    if forall a, b :: TieAgrees(field, tie, storeTie, a, b) {
      forall a, b ensures le(a, b) <==> storeLe(a, b) {
        TieSettled(field, tie, storeTie, a, b);
        TieSettled(field, tie, storeTie, b, a);
      }
    } else {
      var a, b :| !TieAgrees(field, tie, storeTie, a, b);
      TieUnsettled(field, tie, storeTie, a, b);
    }
  }

  lemma TieSettled(field: Rank, tie: Rank, storeTie: Rank, a: string, b: string)
    requires TieAgrees(field, tie, storeTie, a, b) && TieAgrees(field, tie, storeTie, b, a)
    ensures By(field, tie)(a, b) ==> By(field, storeTie)(a, b)
  {
    StrLeReaches(a, b);
  }

  lemma TieUnsettled(field: Rank, tie: Rank, storeTie: Rank, a: string, b: string)
    requires !TieAgrees(field, tie, storeTie, a, b)
    ensures By(field, tie)(a, b) != By(field, storeTie)(a, b)
  {}

  /** Under the oldest-start-first sort the pages are exact for all inputs if and only if no two jobs that started
      together were created at different times. */
  lemma AscendingExactIff(field: Rank, created: Rank)
    ensures PagesExact(By(field, created), By(field, Reversed(created))) <==>
      forall a, b :: field(a) == field(b) ==> created(a) == created(b)
  {
    var oldest := Reversed(created);
    ListingExactIff(field, created, oldest);
    if forall a, b :: TieAgrees(field, created, oldest, a, b) {
      forall a, b | field(a) == field(b) ensures created(a) == created(b) {
        assert TieAgrees(field, created, oldest, a, b) && TieAgrees(field, created, oldest, b, a);
      }
    }
  }

  /** Two jobs the handler and the store rank apart: with both on record, the first two pages of one show
      the store's first job twice and the other job never. */
  lemma RankedApartSkips(field: Rank, tie: Rank, storeField: Rank, storeTie: Rank, a: string, b: string)
    requires storeField(a) > storeField(b) || (storeField(a) == storeField(b) && storeTie(a) > storeTie(b))
    requires field(a) < field(b) || (field(a) == field(b) && tie(a) < tie(b))
    ensures ShownTwice(By(field, tie), By(storeField, storeTie), a, b)
  {
    ByIsTotal(field, tie);
    ByIsTotal(storeField, storeTie);
    SkippedRun(By(field, tie), By(storeField, storeTie), a, b);
  }

  /** Jobs of one batch tie when the listing sorts by batch: two that finish in the other order than they
      were created are ranked apart. */
  lemma SameBatchSkips(field: Rank, created: Rank, finished: Rank, a: string, b: string)
    requires field(a) == field(b) && created(a) < created(b) && finished(a) > finished(b)
    ensures ShownTwice(By(field, created), By(field, finished), a, b)
  {
    RankedApartSkips(field, created, field, finished, a, b);
  }

  /** Two jobs that started together but were created apart, under the oldest-start-first sort. */
  lemma SameStartSkips(field: Rank, created: Rank, a: string, b: string)
    requires field(a) == field(b) && created(a) < created(b)
    ensures ShownTwice(By(field, created), By(field, Reversed(created)), a, b)
  {
    RankedApartSkips(field, created, field, Reversed(created), a, b);
  }

  /** The rank puts these jobs in the order of their names. */
  ghost predicate RanksByName(rank: Rank, name: string -> string, a: string, b: string) {
    && (rank(a) > rank(b) <==> !StrLe(name(b), name(a)))
    && (rank(b) > rank(a) <==> !StrLe(name(a), name(b)))
  }

  function InLowerCase(name: string -> string): string -> string {
    (a: string) => Lower(name(a))
  }

  function Named(a: string, first: string, other: string): string -> string {
    (x: string) => if x == a then first else other
  }

  function Leading(a: string): Rank {
    (x: string) => if x == a then 1 else 0
  }

  /** The in-memory store ranks batch ids and domains as written, the handler in lower case: job a of batch "B" is before
      job b of batch "a" in the store and after it in the listing. */
  lemma CaseRanksApart(a: string, b: string, tie: Rank, storeTie: Rank)
    requires a != b
    ensures RanksByName(Leading(a), Named(a, "B", "a"), a, b)
    ensures RanksByName(Leading(b), InLowerCase(Named(a, "B", "a")), a, b)
    ensures ShownTwice(By(Leading(b), tie), By(Leading(a), storeTie), a, b)
  {
    assert Lower("B") == "b" && Lower("a") == "a";
    assert StrLe("B", "a") && !StrLe("a", "B") && StrLe("a", "b") && !StrLe("b", "a");
    RankedApartSkips(Leading(b), tie, Leading(a), storeTie, a, b);
  }

  /** A listing runs from the highest rank down, and among ties of the sort from the highest tie-break down. */
  lemma ListedByRank(field: Rank, tie: Rank, jobs: seq<string>, i: nat, j: nat)
    requires i < j < |Sort(By(field, tie), jobs)|
    ensures
      var s := Sort(By(field, tie), jobs);
      && field(s[i]) >= field(s[j])
      && (field(s[i]) == field(s[j]) ==> tie(s[i]) >= tie(s[j]) && (tie(s[i]) == tie(s[j]) ==> StrLe(s[i], s[j])))
  {
    ByIsTotal(field, tie);
    SortSorts(By(field, tie), jobs);
    assert By(field, tie)(Sort(By(field, tie), jobs)[i], Sort(By(field, tie), jobs)[j]);
  }
}
