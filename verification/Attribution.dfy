/** The report's attribution: the findings that moved between two snapshots of one domain,
    and the score movement they account for. */
module Attribution {
  import opened Sums
  import opened Sorting
  import opened Text
  import opened Scoring

  datatype ViewTag = ViewTag(tag: string, mod: string, testcase: string, level: string)

  /** An appeared tag has no from level, a cleared tag no to level. */
  datatype Move = Move(tag: string, mod: string, testcase: string, fromLevel: string, toLevel: string)

  function FirstNonEmpty(a: string, b: string): string {
    if a != "" then a else b
  }

  ghost function Index(rows: seq<ViewTag>): map<string, ViewTag> {
    if rows == [] then map[]
    else
      var m, row := Index(rows[..|rows| - 1]), rows[|rows| - 1];
      if row.tag == "" then m else m[Upper(row.tag) := row]
  }

  method IndexDomainViewTags(rows: seq<ViewTag>) returns (out: map<string, ViewTag>)
    ensures out == Index(rows)
  {
    out := map[];
    for i := 0 to |rows|
      invariant out == Index(rows[..i])
    {
      assert rows[..i + 1][..i] == rows[..i];
      if rows[i].tag == "" {
        continue;
      }
      out := out[Upper(rows[i].tag) := rows[i]];
    }
    assert rows[..|rows|] == rows;
  }

  ghost predicate Keyed(m: map<string, ViewTag>) {
    forall k :: k in m ==> k == Upper(m[k].tag) && m[k].tag != ""
  }

  lemma {:induction false} IndexIsKeyed(rows: seq<ViewTag>)
    ensures Keyed(Index(rows))
    ensures forall k :: k in Index(rows) ==> Index(rows)[k] in rows
  {
    if rows != [] {
      IndexIsKeyed(rows[..|rows| - 1]);
    }
  }

  function AppearedMove(t: ViewTag): Move {
    Move(t.tag, t.mod, t.testcase, "", t.level)
  }

  function ClearedMove(f: ViewTag): Move {
    Move(f.tag, f.mod, f.testcase, f.level, "")
  }

  function ChangedMove(f: ViewTag, t: ViewTag): Move {
    Move(t.tag, FirstNonEmpty(t.mod, f.mod), FirstNonEmpty(t.testcase, f.testcase), f.level, t.level)
  }

  predicate LevelMoved(f: ViewTag, t: ViewTag) {
    Upper(f.level) != Upper(t.level)
  }

  ghost function Appeared(f: map<string, ViewTag>, t: map<string, ViewTag>): set<Move> {
    set k | k in t && k !in f :: AppearedMove(t[k])
  }

  ghost function Cleared(f: map<string, ViewTag>, t: map<string, ViewTag>): set<Move> {
    set k | k in f && k !in t :: ClearedMove(f[k])
  }

  ghost function Changed(f: map<string, ViewTag>, t: map<string, ViewTag>): set<Move> {
    set k | k in t && k in f && LevelMoved(f[k], t[k]) :: ChangedMove(f[k], t[k])
  }

  predicate MoveLe(a: Move, b: Move) {
    StrLe(a.tag, b.tag)
  }

  lemma MoveOrder()
    ensures Preorder(MoveLe)
  {
    forall a: Move, b: Move ensures MoveLe(a, b) || MoveLe(b, a) {
      StrLeReaches(a.tag, b.tag);
    }
    forall a: Move, b: Move, c: Move | MoveLe(a, b) && MoveLe(b, c) ensures MoveLe(a, c) {
      StrLeTransitive(a.tag, b.tag, c.tag);
    }
  }

  // One step of each loop below: taking k out of the pending keys adds at most one new move.

  lemma AppearedStep(f: map<string, ViewTag>, t: map<string, ViewTag>, pending: set<string>, k: string)
    requires Keyed(t) && k in t && k in pending
    ensures
      var was, now := Appeared(f, t - pending), Appeared(f, t - (pending - {k}));
      if k in f then now == was else AppearedMove(t[k]) !in was && now == was + {AppearedMove(t[k])}
  {
    var was, now := t - pending, t - (pending - {k});
    assert now == was[k := t[k]];
    assert forall j :: j in was ==> Upper(was[j].tag) == j;
  }

  lemma ClearedStep(f: map<string, ViewTag>, t: map<string, ViewTag>, pending: set<string>, k: string)
    requires Keyed(f) && k in f && k in pending
    ensures
      var was, now := Cleared(f - pending, t), Cleared(f - (pending - {k}), t);
      if k in t then now == was else ClearedMove(f[k]) !in was && now == was + {ClearedMove(f[k])}
  {
    var was, now := f - pending, f - (pending - {k});
    assert now == was[k := f[k]];
    assert forall j :: j in was ==> Upper(was[j].tag) == j;
  }

  lemma ChangedStep(f: map<string, ViewTag>, t: map<string, ViewTag>, pending: set<string>, k: string)
    requires Keyed(t) && k in t && k in pending
    ensures
      var was, now := Changed(f, t - pending), Changed(f, t - (pending - {k}));
      if k !in f || !LevelMoved(f[k], t[k]) then now == was
      else ChangedMove(f[k], t[k]) !in was && now == was + {ChangedMove(f[k], t[k])}
  {
    var was, now := t - pending, t - (pending - {k});
    assert now == was[k := t[k]];
    assert forall j :: j in was ==> Upper(was[j].tag) == j;
  }

  /** The loop over the new side: tags only there appeared, tags at another level changed. */
  method DiffTo(f: map<string, ViewTag>, t: map<string, ViewTag>) returns (appeared: seq<Move>, changed: seq<Move>)
    requires Keyed(f) && Keyed(t)
    ensures Lists(appeared, Appeared(f, t)) && Lists(changed, Changed(f, t))
  {
    appeared, changed := [], [];
    var pending := t.Keys;
    assert t - pending == map[];
    while pending != {}
      invariant pending <= t.Keys
      invariant Lists(appeared, Appeared(f, t - pending)) && Lists(changed, Changed(f, t - pending))
      decreases pending
    {
      var k :| k in pending;
      AppearedStep(f, t, pending, k);
      ChangedStep(f, t, pending, k);
      if k !in f {
        ListsAppend(appeared, Appeared(f, t - pending), AppearedMove(t[k]));
        appeared := appeared + [AppearedMove(t[k])];
      } else if LevelMoved(f[k], t[k]) {
        ListsAppend(changed, Changed(f, t - pending), ChangedMove(f[k], t[k]));
        changed := changed + [ChangedMove(f[k], t[k])];
      }
      pending := pending - {k};
    }
    assert t - {} == t;
  }

  /** The loop over the old side: tags missing from the new side cleared. */
  method DiffFrom(f: map<string, ViewTag>, t: map<string, ViewTag>) returns (cleared: seq<Move>)
    requires Keyed(f)
    ensures Lists(cleared, Cleared(f, t))
  {
    cleared := [];
    var pending := f.Keys;
    assert f - pending == map[];
    while pending != {}
      invariant pending <= f.Keys && Lists(cleared, Cleared(f - pending, t))
      decreases pending
    {
      var k :| k in pending;
      ClearedStep(f, t, pending, k);
      if k !in t {
        ListsAppend(cleared, Cleared(f - pending, t), ClearedMove(f[k]));
        cleared := cleared + [ClearedMove(f[k])];
      }
      pending := pending - {k};
    }
    assert f - {} == f;
  }

  /** The three lists hold exactly the moves between the two tag lists, each sorted by tag. */
  ghost predicate IsDiff(from: seq<ViewTag>, to: seq<ViewTag>, appeared: seq<Move>, cleared: seq<Move>, changed: seq<Move>) {
    var f, t := Index(from), Index(to);
    && Lists(appeared, Appeared(f, t)) && Lists(cleared, Cleared(f, t)) && Lists(changed, Changed(f, t))
    && Sorted(MoveLe, appeared) && Sorted(MoveLe, cleared) && Sorted(MoveLe, changed)
  }

  method DiffDomainTags(from: seq<ViewTag>, to: seq<ViewTag>)
    returns (appeared: seq<Move>, cleared: seq<Move>, changed: seq<Move>)
    ensures IsDiff(from, to, appeared, cleared, changed)
  {
    var f := IndexDomainViewTags(from);
    var t := IndexDomainViewTags(to);
    IndexIsKeyed(from);
    IndexIsKeyed(to);
    appeared, changed := DiffTo(f, t);
    cleared := DiffFrom(f, t);
    MoveOrder();
    SortSorts(MoveLe, appeared);
    SortSorts(MoveLe, cleared);
    SortSorts(MoveLe, changed);
    appeared, cleared, changed := Sort(MoveLe, appeared), Sort(MoveLe, cleared), Sort(MoveLe, changed);
  }

  /** What one move adds to a category's penalty sum. */
  function NetCharge(cfg: Config, cat: string): Move -> int {
    (m: Move) =>
      if CategoryOf(cfg, m.mod) != Some(cat) then 0
      else (if m.toLevel != "" then Penalty(cfg, m.tag, m.toLevel) else 0)
           - (if m.fromLevel != "" then Penalty(cfg, m.tag, m.fromLevel) else 0)
  }

  ghost function NetWeighted(cfg: Config, moves: seq<Move>): map<string, real> {
    map cat | cat in cfg.categoryWeights :: Weigh(SumBy(moves, NetCharge(cfg, cat)), cfg.categoryWeights[cat])
  }

  /** Go's math.Round: halves away from zero. */
  function RoundHalfAway(x: real): int {
    if x >= 0.0 then (x + 0.5).Floor else -((-x + 0.5).Floor)
  }

  ghost function Explained(cfg: Config, moves: seq<Move>): int {
    var w := TotalReal(cfg.categoryWeights);
    if w == 0.0 then 0 else -RoundHalfAway(TotalReal(NetWeighted(cfg, moves)) / w)
  }

  ghost predicate Netted(byCategory: map<string, int>, cfg: Config, moves: seq<Move>) {
    forall cat :: SumBy(moves, NetCharge(cfg, cat)) == if cat in byCategory then byCategory[cat] else 0
  }

  function AddMove(byCategory: map<string, int>, cfg: Config, m: Move): map<string, int> {
    match CategoryOf(cfg, m.mod)
    case None => byCategory
    case Some(cat) =>
      if m.toLevel == "" && m.fromLevel == "" then byCategory
      else byCategory[cat := (if cat in byCategory then byCategory[cat] else 0) + NetCharge(cfg, cat)(m)]
  }

  lemma AddMoveNets(byCategory: map<string, int>, cfg: Config, moves: seq<Move>, i: nat)
    requires i < |moves| && Netted(byCategory, cfg, moves[..i])
    ensures Netted(AddMove(byCategory, cfg, moves[i]), cfg, moves[..i + 1])
  {
    forall cat {
      SumByStep(moves, NetCharge(cfg, cat), i);
    }
  }

  method NetByCategory(cfg: Config, moves: seq<Move>) returns (byCategory: map<string, int>)
    ensures Netted(byCategory, cfg, moves)
  {
    byCategory := map[];
    for i := 0 to |moves|
      invariant Netted(byCategory, cfg, moves[..i])
    {
      AddMoveNets(byCategory, cfg, moves, i);
      byCategory := AddMove(byCategory, cfg, moves[i]);
    }
    assert moves[..|moves|] == moves;
  }

  method SumReals(m: map<string, real>) returns (sum: real)
    ensures sum == TotalReal(m)
  {
    sum := 0.0;
    var pending := m.Keys;
    assert m - pending == map[];
    while pending != {}
      invariant pending <= m.Keys && sum == TotalReal(m - pending)
      decreases pending
    {
      var k :| k in pending;
      TotalRealTake(m, pending, k);
      sum := sum + m[k];
      pending := pending - {k};
    }
    assert m - {} == m;
  }

  method ExplainScoreDelta(cfg: Config, appeared: seq<Move>, cleared: seq<Move>, changed: seq<Move>) returns (d: int)
    ensures d == Explained(cfg, appeared + cleared + changed)
  {
    var moves := appeared + cleared + changed;
    var totalWeight := SumReals(cfg.categoryWeights);
    if totalWeight == 0.0 {
      return 0;
    }
    var byCategory := NetByCategory(cfg, moves);
    var contributions := map cat | cat in byCategory ::
      Weigh(byCategory[cat], if cat in cfg.categoryWeights then cfg.categoryWeights[cat] else 0.0);
    var weighted := SumReals(contributions);
    var net := NetWeighted(cfg, moves);
    ghost var padded := map cat | cat in byCategory.Keys + net.Keys :: if cat in net then net[cat] else 0.0;
    TotalRealPad(net, padded);
    forall cat | cat in padded ensures padded[cat] == if cat in contributions then contributions[cat] else 0.0 {
      assert SumBy(moves, NetCharge(cfg, cat)) == if cat in byCategory then byCategory[cat] else 0;
    }
    TotalRealPad(contributions, padded);
    d := -RoundHalfAway(weighted / totalWeight);
  }

  /** The last row of a tag counts. */
  lemma {:induction false} IndexIsLast(rows: seq<ViewTag>, i: nat)
    requires i < |rows| && rows[i].tag != "" && forall j :: i < j < |rows| ==> Upper(rows[j].tag) != Upper(rows[i].tag)
    ensures Upper(rows[i].tag) in Index(rows) && Index(rows)[Upper(rows[i].tag)] == rows[i]
  {
    if i < |rows| - 1 {
      IndexIsLast(rows[..|rows| - 1], i);
    }
  }

  /** The moves of each list run in the order of their tags. */
  lemma MovesByTag(moves: seq<Move>, i: nat, j: nat)
    requires Sorted(MoveLe, moves) && i < j < |moves|
    ensures StrLe(moves[i].tag, moves[j].tag)
  {
    assert MoveLe(moves[i], moves[j]);
  }
}
