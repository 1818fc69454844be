/** The attribution tracks the score: for one domain's two tag lists, the difference of the two
    computed scores is the explained delta up to rounding. */
module ScoreTracking {
  import opened Numbers
  import opened Sums
  import opened Sorting
  import opened Text
  import opened Scoring
  import opened Attribution

  /** The log entries a tag list stands for, one per tag. */
  function EntryOf(t: ViewTag): Entry {
    Entry(t.mod, t.tag, t.level)
  }

  function Entries(tags: seq<ViewTag>): seq<Entry> {
    seq(|tags|, i requires 0 <= i < |tags| => EntryOf(tags[i]))
  }

  /** One finding per tag, each with a tag and a level. */
  ghost predicate Clean(tags: seq<ViewTag>) {
    && (forall i :: 0 <= i < |tags| ==> tags[i].tag != "" && tags[i].level != "")
    && (forall i, j :: 0 <= i < j < |tags| ==> Upper(tags[i].tag) != Upper(tags[j].tag))
  }

  /** A tag belongs to the same module on both sides. */
  ghost predicate ModulesAgree(f: map<string, ViewTag>, t: map<string, ViewTag>) {
    forall k :: k in f && k in t ==> Upper(f[k].mod) == Upper(t[k].mod)
  }

  lemma {:induction false} CleanIndex(tags: seq<ViewTag>)
    requires Clean(tags)
    ensures Index(tags).Keys == set i | 0 <= i < |tags| :: Upper(tags[i].tag)
    ensures forall i :: 0 <= i < |tags| ==> Index(tags)[Upper(tags[i].tag)] == tags[i]
  {
    if tags != [] {
      CleanIndex(tags[..|tags| - 1]);
    }
  }

  /** The charges of one side, by upper-cased tag. */
  ghost function SideCharges(cfg: Config, cat: string, m: map<string, ViewTag>): map<string, int> {
    map k | k in m :: Charge(cfg, cat)(EntryOf(m[k]))
  }

  lemma SideTotal(cfg: Config, cat: string, tags: seq<ViewTag>)
    requires Clean(tags)
    ensures SumBy(Entries(tags), Charge(cfg, cat)) == Total(SideCharges(cfg, cat, Index(tags)))
  {
    CleanIndex(tags);
    var key := (e: Entry) => Upper(e.tag);
    var xs := Entries(tags);
    assert forall i :: 0 <= i < |xs| ==> key(xs[i]) == Upper(tags[i].tag);
    ListTotal(xs, key, Charge(cfg, cat), SideCharges(cfg, cat, Index(tags)));
  }

  /** The move at a tag that appeared, cleared or changed level. */
  ghost function MoveAt(f: map<string, ViewTag>, t: map<string, ViewTag>, k: string): Move
    requires k in f || k in t
  {
    if k !in f then AppearedMove(t[k]) else if k !in t then ClearedMove(f[k]) else ChangedMove(f[k], t[k])
  }

  ghost predicate Moved(f: map<string, ViewTag>, t: map<string, ViewTag>, k: string) {
    (k in f || k in t) && (k in f && k in t ==> LevelMoved(f[k], t[k]))
  }

  ghost function MoveCharges(cfg: Config, cat: string, f: map<string, ViewTag>, t: map<string, ViewTag>): map<string, int> {
    map k | k in f.Keys + t.Keys && Moved(f, t, k) :: NetCharge(cfg, cat)(MoveAt(f, t, k))
  }

  ghost function AllMoves(f: map<string, ViewTag>, t: map<string, ViewTag>): set<Move> {
    set k | k in f.Keys + t.Keys && Moved(f, t, k) :: MoveAt(f, t, k)
  }

  lemma MovesPartition(f: map<string, ViewTag>, t: map<string, ViewTag>)
    requires Keyed(f) && Keyed(t)
    ensures AllMoves(f, t) == Appeared(f, t) + Cleared(f, t) + Changed(f, t)
    ensures Appeared(f, t) !! Cleared(f, t) && (Appeared(f, t) + Cleared(f, t)) !! Changed(f, t)
  {
    forall m | m in Appeared(f, t) ensures Upper(m.tag) in t && Upper(m.tag) !in f && m == MoveAt(f, t, Upper(m.tag)) {}
    forall m | m in Cleared(f, t) ensures Upper(m.tag) in f && Upper(m.tag) !in t && m == MoveAt(f, t, Upper(m.tag)) {}
    forall m | m in Changed(f, t)
      ensures Upper(m.tag) in f && Upper(m.tag) in t && Moved(f, t, Upper(m.tag)) && m == MoveAt(f, t, Upper(m.tag)) {}
    forall m | m in Appeared(f, t) + Cleared(f, t) + Changed(f, t) ensures m in AllMoves(f, t) {
      assert Moved(f, t, Upper(m.tag)) && m == MoveAt(f, t, Upper(m.tag));
    }
  }

  lemma MovesListed(from: seq<ViewTag>, to: seq<ViewTag>, appeared: seq<Move>, cleared: seq<Move>, changed: seq<Move>)
    requires IsDiff(from, to, appeared, cleared, changed)
    ensures Lists(appeared + cleared + changed, AllMoves(Index(from), Index(to)))
  {
    IndexIsKeyed(from);
    IndexIsKeyed(to);
    MovesPartition(Index(from), Index(to));
  }

  lemma MoveTotal(cfg: Config, cat: string, f: map<string, ViewTag>, t: map<string, ViewTag>, moves: seq<Move>)
    requires Keyed(f) && Keyed(t) && Lists(moves, AllMoves(f, t))
    ensures SumBy(moves, NetCharge(cfg, cat)) == Total(MoveCharges(cfg, cat, f, t))
  {
    ListsDistinct(moves, AllMoves(f, t));
    var key := (m: Move) => Upper(m.tag);
    forall i | 0 <= i < |moves|
      ensures key(moves[i]) in f.Keys + t.Keys && Moved(f, t, key(moves[i])) && moves[i] == MoveAt(f, t, key(moves[i]))
    {
      assert moves[i] in AllMoves(f, t);
    }
    var m := MoveCharges(cfg, cat, f, t);
    forall k | k in m ensures exists i :: 0 <= i < |moves| && key(moves[i]) == k {
      assert MoveAt(f, t, k) in AllMoves(f, t);
      assert MoveAt(f, t, k) in moves;
      assert key(MoveAt(f, t, k)) == k;
    }
    ListTotal(moves, key, NetCharge(cfg, cat), m);
  }

  /** Unchanged tags cancel: the moves account for the whole change of every category's penalty sum. */
  lemma MovesAccountForPenalties(cfg: Config, cat: string, from: seq<ViewTag>, to: seq<ViewTag>, moves: seq<Move>)
    requires Clean(from) && Clean(to) && ModulesAgree(Index(from), Index(to))
    requires Lists(moves, AllMoves(Index(from), Index(to)))
    ensures SumBy(Entries(to), Charge(cfg, cat))
         == SumBy(Entries(from), Charge(cfg, cat)) + SumBy(moves, NetCharge(cfg, cat))
  {
    var f, t := Index(from), Index(to);
    IndexIsKeyed(from);
    IndexIsKeyed(to);
    SideTotal(cfg, cat, from);
    SideTotal(cfg, cat, to);
    MoveTotal(cfg, cat, f, t, moves);
    var all := f.Keys + t.Keys;
    var a, b, n := SideCharges(cfg, cat, f), SideCharges(cfg, cat, t), MoveCharges(cfg, cat, f, t);
    var pa, pb, pn := Padded(a, all), Padded(b, all), Padded(n, all);
    TotalPad(a, pa);
    TotalPad(b, pb);
    TotalPad(n, pn);
    forall k | k in all ensures pb[k] == pa[k] + pn[k] {
      ChargeMoves(cfg, cat, from, to, k);
    }
    TotalLinear(pa, pn, pb);
  }

  ghost function Padded(m: map<string, int>, keys: set<string>): map<string, int> {
    map k | k in keys :: if k in m then m[k] else 0
  }

  lemma ChargeMoves(cfg: Config, cat: string, from: seq<ViewTag>, to: seq<ViewTag>, k: string)
    requires Clean(from) && Clean(to) && ModulesAgree(Index(from), Index(to))
    requires k in Index(from) || k in Index(to)
    ensures
      var f, t := Index(from), Index(to);
      (if k in t then Charge(cfg, cat)(EntryOf(t[k])) else 0)
      == (if k in f then Charge(cfg, cat)(EntryOf(f[k])) else 0)
         + (if Moved(f, t, k) then NetCharge(cfg, cat)(MoveAt(f, t, k)) else 0)
  {
    IndexIsKeyed(from);
    IndexIsKeyed(to);
    var f, t := Index(from), Index(to);
    if k in f {
      assert f[k].level != "";
    }
    if k in t {
      assert t[k].level != "";
    }
  }

  /** How far a sub-score stays above a hundred minus its penalties. Clamping at zero forgives the penalties beyond
      the hundredth point; a CRITICAL entry costs all that is left. */
  ghost function Excess(cfg: Config, entries: seq<Entry>, cat: string): int {
    var over := SumBy(entries, Charge(cfg, cat)) - 100;
    if HasCritical(entries) then over else Max(over, 0)
  }

  ghost function WeightedExcess(cfg: Config, entries: seq<Entry>): map<string, real> {
    map cat | cat in cfg.categoryWeights :: Weigh(Excess(cfg, entries, cat), cfg.categoryWeights[cat])
  }

  ghost function WeightedPenalties(cfg: Config, entries: seq<Entry>): map<string, real> {
    map cat | cat in cfg.categoryWeights ::
      Weigh(SumBy(entries, Charge(cfg, cat)), cfg.categoryWeights[cat])
  }

  lemma WeighSums(a: int, b: int, c: int, d: int, w: real)
    requires a + b == c + d
    ensures Weigh(a, w) + Weigh(b, w) == Weigh(c, w) + Weigh(d, w)
  {
    assert (a as real + b as real) * w == (c as real + d as real) * w;
  }

  /** Weighted sub-scores + penalties = 100 * weights + excess. */
  lemma SubScoreBalance(cfg: Config, entries: seq<Entry>)
    ensures TotalReal(WeightedSubScores(cfg, entries)) + TotalReal(WeightedPenalties(cfg, entries))
         == 100.0 * TotalReal(cfg.categoryWeights) + TotalReal(WeightedExcess(cfg, entries))
  {
    var s, p, e := WeightedSubScores(cfg, entries), WeightedPenalties(cfg, entries), WeightedExcess(cfg, entries);
    var h := map cat | cat in cfg.categoryWeights :: 100.0 * cfg.categoryWeights[cat];
    var sum := map cat | cat in cfg.categoryWeights :: s[cat] + p[cat];
    forall cat | cat in sum ensures sum[cat] == h[cat] + e[cat] {
      var pen := SumBy(entries, Charge(cfg, cat));
      WeighSums(SubScore(cfg, entries, cat), pen, 100, Excess(cfg, entries, cat), cfg.categoryWeights[cat]);
    }
    TotalRealAdd(s, p, sum);
    TotalRealAdd(h, e, sum);
    TotalRealHundred(cfg.categoryWeights, h);
  }

  lemma PenaltiesMove(cfg: Config, from: seq<ViewTag>, to: seq<ViewTag>, moves: seq<Move>)
    requires Clean(from) && Clean(to) && ModulesAgree(Index(from), Index(to))
    requires Lists(moves, AllMoves(Index(from), Index(to)))
    ensures TotalReal(WeightedPenalties(cfg, Entries(to)))
         == TotalReal(WeightedPenalties(cfg, Entries(from))) + TotalReal(NetWeighted(cfg, moves))
  {
    var b, a, n := WeightedPenalties(cfg, Entries(to)), WeightedPenalties(cfg, Entries(from)), NetWeighted(cfg, moves);
    forall cat | cat in b ensures b[cat] == a[cat] + n[cat] {
      MovesAccountForPenalties(cfg, cat, from, to, moves);
      WeighSums(SumBy(Entries(from), Charge(cfg, cat)), SumBy(moves, NetCharge(cfg, cat)),
                SumBy(Entries(to), Charge(cfg, cat)), 0, cfg.categoryWeights[cat]);
    }
    TotalRealAdd(a, n, b);
  }

  lemma SubScoreInRange(cfg: Config, entries: seq<Entry>, cat: string)
    requires NonNegative(cfg)
    ensures 0 <= SubScore(cfg, entries, cat) <= 100
  {
    forall e | e in entries ensures 0 <= Charge(cfg, cat)(e) {}
    SumByBounds(entries, Charge(cfg, cat));
  }

  lemma WeightedInRange(cfg: Config, entries: seq<Entry>)
    requires NonNegative(cfg)
    ensures 0.0 <= TotalReal(WeightedSubScores(cfg, entries)) <= 100.0 * TotalReal(cfg.categoryWeights)
  {
    var s := WeightedSubScores(cfg, entries);
    var zeros := map cat | cat in cfg.categoryWeights :: 0.0;
    var h := map cat | cat in cfg.categoryWeights :: 100.0 * cfg.categoryWeights[cat];
    forall cat | cat in s ensures 0.0 <= s[cat] <= h[cat] {
      SubScoreInRange(cfg, entries, cat);
      WeighMonotone(0, SubScore(cfg, entries, cat), cfg.categoryWeights[cat]);
      WeighMonotone(SubScore(cfg, entries, cat), 100, cfg.categoryWeights[cat]);
    }
    TotalRealPad(map[], zeros);
    TotalRealMonotone(zeros, s);
    TotalRealMonotone(s, h);
    TotalRealHundred(cfg.categoryWeights, h);
  }

  /** With non-negative penalties the mean lies in 0..100, so the score is its floor. */
  lemma ScoreIsFloor(cfg: Config, entries: seq<Entry>)
    requires NonNegative(cfg) && TotalReal(cfg.categoryWeights) > 0.0
    ensures ScoreOf(cfg, entries) == WeightedMean(cfg, entries).Floor
  {
    if HasCritical(entries) {
      CriticalScoresZero(cfg, entries);
    }
    var s, w := TotalReal(WeightedSubScores(cfg, entries)), TotalReal(cfg.categoryWeights);
    WeightedInRange(cfg, entries);
    DivMonotone(0.0, s, w);
    DivMonotone(s, 100.0 * w, w);
    CancelWeight(w);
  }

  lemma CancelWeight(w: real)
    requires w > 0.0
    ensures 100.0 * w / w == 100.0
  {
  }

  ghost function MeanExcess(cfg: Config, entries: seq<Entry>): real
    requires TotalReal(cfg.categoryWeights) > 0.0
  {
    TotalReal(WeightedExcess(cfg, entries)) / TotalReal(cfg.categoryWeights)
  }

  lemma MeanArithmetic(sa: real, sb: real, ea: real, eb: real, n: real, w: real)
    requires w > 0.0 && sb - sa == eb - ea - n
    ensures sb / w - sa / w == eb / w - ea / w - n / w
  {
    var i := 1.0 / w;
    assert sb / w - sa / w == (sb - sa) * i;
    assert eb / w - ea / w - n / w == (eb - ea - n) * i;
  }

  lemma MeanMoves(cfg: Config, from: seq<ViewTag>, to: seq<ViewTag>, moves: seq<Move>)
    requires TotalReal(cfg.categoryWeights) > 0.0
    requires Clean(from) && Clean(to) && ModulesAgree(Index(from), Index(to))
    requires Lists(moves, AllMoves(Index(from), Index(to)))
    ensures WeightedMean(cfg, Entries(to)) - WeightedMean(cfg, Entries(from))
         == MeanExcess(cfg, Entries(to)) - MeanExcess(cfg, Entries(from))
            - TotalReal(NetWeighted(cfg, moves)) / TotalReal(cfg.categoryWeights)
  {
    var w, a, b := TotalReal(cfg.categoryWeights), Entries(from), Entries(to);
    SubScoreBalance(cfg, a);
    SubScoreBalance(cfg, b);
    PenaltiesMove(cfg, from, to, moves);
    MeanArithmetic(TotalReal(WeightedSubScores(cfg, a)), TotalReal(WeightedSubScores(cfg, b)),
                   TotalReal(WeightedExcess(cfg, a)), TotalReal(WeightedExcess(cfg, b)), TotalReal(NetWeighted(cfg, moves)), w);
  }

  /** Two floors and one rounding to nearest stay within a point and a half of the exact movement. */
  lemma RoundingBound(before: real, after: real, x: real, shift: real)
    requires after - before == shift - x
    ensures -1.5 < (after.Floor - before.Floor + RoundHalfAway(x)) as real - shift < 1.5
  {
  }

  /** The general law: whatever the penalty sums, CRITICAL entries or not, the real score movement minus the explained one is
      the movement of the excess, up to one and a half points of rounding. */
  lemma ExplainedTracksScore(cfg: Config, from: seq<ViewTag>, to: seq<ViewTag>, moves: seq<Move>)
    requires NonNegative(cfg) && TotalReal(cfg.categoryWeights) > 0.0
    requires Clean(from) && Clean(to) && ModulesAgree(Index(from), Index(to))
    requires Lists(moves, AllMoves(Index(from), Index(to)))
    ensures
      var gap := ScoreOf(cfg, Entries(to)) - ScoreOf(cfg, Entries(from)) - Explained(cfg, moves);
      var shift := MeanExcess(cfg, Entries(to)) - MeanExcess(cfg, Entries(from));
      -1.5 < gap as real - shift < 1.5
  {
    ScoreIsFloor(cfg, Entries(from));
    ScoreIsFloor(cfg, Entries(to));
    MeanMoves(cfg, from, to, moves);
    RoundingBound(WeightedMean(cfg, Entries(from)), WeightedMean(cfg, Entries(to)),
                  TotalReal(NetWeighted(cfg, moves)) / TotalReal(cfg.categoryWeights),
                  MeanExcess(cfg, Entries(to)) - MeanExcess(cfg, Entries(from)));
  }

  /** When nothing is CRITICAL and no category's penalties exceed 100 on either side, the report is off by at most one point. */
  lemma ExplainedWithinOnePoint(cfg: Config, from: seq<ViewTag>, to: seq<ViewTag>, moves: seq<Move>)
    requires NonNegative(cfg) && TotalReal(cfg.categoryWeights) > 0.0
    requires Clean(from) && Clean(to) && ModulesAgree(Index(from), Index(to))
    requires Lists(moves, AllMoves(Index(from), Index(to)))
    requires !HasCritical(Entries(from)) && !HasCritical(Entries(to))
    requires forall cat :: cat in cfg.categoryWeights ==>
      && SumBy(Entries(from), Charge(cfg, cat)) <= 100 && SumBy(Entries(to), Charge(cfg, cat)) <= 100
    ensures -1 <= ScoreOf(cfg, Entries(to)) - ScoreOf(cfg, Entries(from)) - Explained(cfg, moves) <= 1
  {
    ExplainedTracksScore(cfg, from, to, moves);
    NoExcess(cfg, Entries(from));
    NoExcess(cfg, Entries(to));
  }

  lemma NoExcess(cfg: Config, entries: seq<Entry>)
    requires TotalReal(cfg.categoryWeights) > 0.0 && !HasCritical(entries)
    requires forall cat :: cat in cfg.categoryWeights ==> SumBy(entries, Charge(cfg, cat)) <= 100
    ensures MeanExcess(cfg, entries) == 0.0
  {
    TotalRealPad(map[], WeightedExcess(cfg, entries));
  }

  // --- The moves, read off the two tag lists ---

  ghost predicate SameTag(a: ViewTag, b: ViewTag) {
    Upper(a.tag) == Upper(b.tag)
  }

  /** A tag of this list that the other one lacks. */
  ghost predicate OnlyHere(here: seq<ViewTag>, there: seq<ViewTag>, i: int) {
    0 <= i < |here| && forall j :: 0 <= j < |there| ==> !SameTag(here[i], there[j])
  }

  /** A tag of both lists at two levels. */
  ghost predicate TwoLevels(from: seq<ViewTag>, to: seq<ViewTag>, i: int, j: int) {
    0 <= i < |from| && 0 <= j < |to| && SameTag(from[i], to[j]) && Upper(from[i].level) != Upper(to[j].level)
  }

  /** A change of level names the new side's module and testcase unless they are empty. */
  function Between(a: ViewTag, b: ViewTag): Move {
    Move(b.tag, if b.mod == "" then a.mod else b.mod, if b.testcase == "" then a.testcase else b.testcase, a.level, b.level)
  }

  /** The appeared, cleared and changed lists hold exactly the tags only in the new list, only in the old one, and in
      both at another level. */
  lemma DiffReads(from: seq<ViewTag>, to: seq<ViewTag>, appeared: seq<Move>, cleared: seq<Move>, changed: seq<Move>, m: Move)
    requires IsDiff(from, to, appeared, cleared, changed) && Clean(from) && Clean(to)
    ensures m in appeared <==>
      exists j :: OnlyHere(to, from, j) && m == Move(to[j].tag, to[j].mod, to[j].testcase, "", to[j].level)
    ensures m in cleared <==>
      exists i :: OnlyHere(from, to, i) && m == Move(from[i].tag, from[i].mod, from[i].testcase, from[i].level, "")
    ensures m in changed <==>
      exists i, j :: TwoLevels(from, to, i, j) && m == Between(from[i], to[j])
  {
    CleanIndex(from);
    CleanIndex(to);
    OnlyHereIndexed(from, to);
    OnlyHereIndexed(to, from);
    ListsDistinct(appeared, Appeared(Index(from), Index(to)));
    ListsDistinct(cleared, Cleared(Index(from), Index(to)));
    ListsDistinct(changed, Changed(Index(from), Index(to)));
    ChangedReads(from, to, m);
  }

  lemma OnlyHereIndexed(here: seq<ViewTag>, there: seq<ViewTag>)
    requires Clean(here) && Clean(there)
    ensures forall i :: 0 <= i < |here| ==>
      Upper(here[i].tag) in Index(here) && (Upper(here[i].tag) !in Index(there) <==> OnlyHere(here, there, i))
  {
    CleanIndex(here);
    CleanIndex(there);
    forall i | 0 <= i < |here|
      ensures Upper(here[i].tag) in Index(here) && (Upper(here[i].tag) !in Index(there) <==> OnlyHere(here, there, i))
    {
      if Upper(here[i].tag) in Index(there) {
        var j :| 0 <= j < |there| && Upper(there[j].tag) == Upper(here[i].tag);
        assert SameTag(here[i], there[j]);
      }
    }
  }

  lemma ChangedReads(from: seq<ViewTag>, to: seq<ViewTag>, m: Move)
    requires Clean(from) && Clean(to)
    ensures m in Changed(Index(from), Index(to)) <==>
      exists i, j :: TwoLevels(from, to, i, j) && m == Between(from[i], to[j])
  {
    CleanIndex(from);
    CleanIndex(to);
    var f, t := Index(from), Index(to);
    forall a: ViewTag, b: ViewTag ensures ChangedMove(a, b) == Between(a, b) {}
    if m in Changed(f, t) {
      var k :| k in t && k in f && LevelMoved(f[k], t[k]) && m == ChangedMove(f[k], t[k]);
      var i :| 0 <= i < |from| && Upper(from[i].tag) == k;
      var j :| 0 <= j < |to| && Upper(to[j].tag) == k;
      assert TwoLevels(from, to, i, j);
    }
    if i, j :| TwoLevels(from, to, i, j) && m == Between(from[i], to[j]) {
      var k := Upper(to[j].tag);
      assert f[k] == from[i] && t[k] == to[j] && LevelMoved(f[k], t[k]);
    }
  }
}
