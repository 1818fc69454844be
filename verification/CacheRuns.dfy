/** The report cache under concurrent requests: a request reads the scoring configuration, then looks the pair up,
    and one of the requests that miss builds for all. Each step below is atomic in the source. */
module CacheRuns {
  import opened ReportCache
  import opened Text

  /** A request past reading its configuration and before its answer. */
  datatype Request = Request(key: string, config: int)

  /** A build in flight: the configuration its leader read, and whether its result is in the cache yet. */
  datatype Build = Build(config: int, stored: bool)

  datatype System<T> = System(
    cache: Cache<T>, config: int, waiting: map<nat, Request>, building: map<string, Build>)

  datatype Action =
    | Arrive(id: nat, key: string)
    | Hit(id: nat)
    | Lead(id: nat)
    | Join(id: nat)
    | Store(key: string)
    | Leave(key: string)
    | Change(config: int)
    | Reset

  function Init<T>(config: int, size: nat): System<T> {
    System(Cache(map[], [], size), config, map[], map[])
  }

  predicate Enabled<T>(s: System<T>, a: Action) {
    match a
    case Arrive(id, _) => id !in s.waiting
    case Hit(id) => id in s.waiting && s.waiting[id].key in s.cache.entries
    case Lead(id) => id in s.waiting && s.waiting[id].key !in s.cache.entries && s.waiting[id].key !in s.building
    case Join(id) => id in s.waiting && s.waiting[id].key in s.building
    case Store(key) => key in s.building && !s.building[key].stored
    case Leave(key) => key in s.building && s.building[key].stored
    case Change(_) => true
    case Reset => true
  }

  ghost function Next<T>(s: System<T>, a: Action, build: (string, int) -> T): System<T>
    requires Enabled(s, a)
  {
    match a
    case Arrive(id, key) => s.(waiting := s.waiting[id := Request(key, s.config)])
    case Hit(id) => s.(waiting := s.waiting - {id})
    case Lead(id) => s.(waiting := s.waiting - {id},
                        building := s.building[s.waiting[id].key := Build(s.waiting[id].config, false)])
    case Join(id) => s.(waiting := s.waiting - {id})
    case Store(key) => s.(cache := Stored(s.cache, key, build(key, s.building[key].config)),
                          building := s.building[key := s.building[key].(stored := true)])
    case Leave(key) => s.(building := s.building - {key})
    case Change(config) => s.(config := config)
    case Reset => s.(cache := Dropped(s.cache))
  }

  datatype Answer<T> = Answer(key: string, value: T)

  /** What a step answers. A joiner's answer is the result of the build it joined. */
  function Answers<T>(s: System<T>, a: Action, build: (string, int) -> T): Option<Answer<T>>
    requires Enabled(s, a)
  {
    match a
    case Hit(id) => Some(Answer(s.waiting[id].key, s.cache.entries[s.waiting[id].key]))
    case Join(id) => Some(Answer(s.waiting[id].key, build(s.waiting[id].key, s.building[s.waiting[id].key].config)))
    case Leave(key) => Some(Answer(key, build(key, s.building[key].config)))
    case _ => None
  }

  ghost predicate Fresh<T>(build: (string, int) -> T, config: int, key: string, value: T) {
    value == build(key, config)
  }

  /** Everything cached, read or being built gives what a build under the current configuration would. */
  ghost predicate Quiet<T>(s: System<T>, build: (string, int) -> T) {
    && WellFormed(s.cache)
    && (forall k :: k in s.cache.entries ==> Fresh(build, s.config, k, s.cache.entries[k]))
    && (forall id :: id in s.waiting ==> Fresh(build, s.config, s.waiting[id].key, build(s.waiting[id].key, s.waiting[id].config)))
    && (forall k :: k in s.building ==> Fresh(build, s.config, k, build(k, s.building[k].config)))
  }

  /** As long as the configuration does not change, every answer is what a build would return now. */
  lemma QuietStep<T>(s: System<T>, a: Action, build: (string, int) -> T)
    requires Quiet(s, build) && Enabled(s, a) && !a.Change?
    ensures Quiet(Next(s, a, build), build)
    ensures Answers(s, a, build).Some? ==>
      Fresh(build, s.config, Answers(s, a, build).value.key, Answers(s, a, build).value.value)
  {
    if a.Store? {
      StoredKeeps(s.cache, a.key, build(a.key, s.building[a.key].config));
      StoredContents(s.cache, a.key, build(a.key, s.building[a.key].config));
    }
  }

  /** A change of configuration followed by its reset. */
  ghost function Reconfigured<T>(s: System<T>, config: int, build: (string, int) -> T): System<T> {
    Next(Next(s, Change(config), build), Reset, build)
  }

  // --- Whole runs ---

  /** Runs whose changes happen with nothing in flight, each change together with its reset. */
  datatype Event = Do(action: Action) | Reconfigure(config: int)

  ghost predicate Allowed<T>(s: System<T>, e: Event) {
    match e
    case Do(a) => Enabled(s, a) && !a.Change?
    case Reconfigure(_) => s.waiting == map[] && s.building == map[]
  }

  ghost function After<T>(s: System<T>, e: Event, build: (string, int) -> T): System<T>
    requires Allowed(s, e)
  {
    match e
    case Do(a) => Next(s, a, build)
    case Reconfigure(config) => Reconfigured(s, config, build)
  }

  ghost predicate RunsTo<T>(s: System<T>, run: seq<Event>, t: System<T>, build: (string, int) -> T)
    decreases |run|
  {
    if run == [] then s == t
    else Allowed(s, run[0]) && RunsTo(After(s, run[0], build), run[1..], t, build)
  }

  lemma {:induction false} RunKeepsQuiet<T>(s: System<T>, run: seq<Event>, t: System<T>, build: (string, int) -> T)
    requires Quiet(s, build) && RunsTo(s, run, t, build)
    ensures Quiet(t, build)
    decreases |run|
  {
    if run != [] {
      match run[0] {
        case Do(a) => QuietStep(s, a, build);
        case Reconfigure(config) =>
          assert Quiet(Reconfigured(s, config, build), build);
      }
      RunKeepsQuiet(After(s, run[0], build), run[1..], t, build);
    }
  }

  /** Memo correctness: from an empty cache, after any such run, the next answer is what a build would return now. */
  lemma RunAnswersFresh<T>(config: int, size: nat, run: seq<Event>, t: System<T>, a: Action, build: (string, int) -> T)
    requires RunsTo(Init(config, size), run, t, build) && Enabled(t, a)
    ensures Answers(t, a, build).Some? ==>
      Fresh(build, t.config, Answers(t, a, build).value.key, Answers(t, a, build).value.value)
  {
    RunKeepsQuiet(Init(config, size), run, t, build);
    if !a.Change? {
      QuietStep(t, a, build);
    }
  }

  ghost function Play<T>(s: System<T>, run: seq<Action>, build: (string, int) -> T): Option<System<T>>
    decreases |run|
  {
    if run == [] then Some(s)
    else if !Enabled(s, run[0]) then None
    else Play(Next(s, run[0], build), run[1..], build)
  }

  lemma PlayFirst<T>(s: System<T>, a: Action, rest: seq<Action>, build: (string, int) -> T)
    requires Enabled(s, a)
    ensures Play(s, [a] + rest, build) == Play(Next(s, a, build), rest, build)
  {
    assert ([a] + rest)[1..] == rest;
  }

  /** A request that arrives in the run, under the configuration then in force throughout, is about to be answered
      with something else than a build would return. */
  ghost predicate Misleads<T>(s: System<T>, run: seq<Action>, id: nat, key: string, last: Action, build: (string, int) -> T) {
    && (forall i :: 0 <= i < |run| ==> !run[i].Change?)
    && Arrive(id, key) in run && (last == Hit(id) || last == Join(id))
    && var t := Play(s, run, build);
      t.Some? && Enabled(t.value, last) && t.value.waiting[id].key == key
      && !Fresh(build, s.config, key, Answers(t.value, last, build).value.value)
  }

  ghost predicate CanMislead<T>(s: System<T>, build: (string, int) -> T) {
    exists run: seq<Action>, id: nat, key: string, last: Action :: Misleads(s, run, id, key, last, build)
  }

  /** A request or a build in flight whose key the two configurations build differently. */
  ghost predicate Overtaken<T>(s: System<T>, config: int, build: (string, int) -> T) {
    || (exists id :: id in s.waiting && !Fresh(build, config, s.waiting[id].key, build(s.waiting[id].key, s.waiting[id].config)))
    || (exists k :: k in s.building && !Fresh(build, config, k, build(k, s.building[k].config)))
  }

  lemma {:induction false} PlayKeepsQuiet<T>(s: System<T>, run: seq<Action>, build: (string, int) -> T)
    requires Quiet(s, build) && Play(s, run, build).Some? && forall i :: 0 <= i < |run| ==> !run[i].Change?
    ensures Quiet(Play(s, run, build).value, build) && Play(s, run, build).value.config == s.config
    decreases |run|
  {
    if run != [] {
      QuietStep(s, run[0], build);
      PlayKeepsQuiet(Next(s, run[0], build), run[1..], build);
    }
  }

  /** Ids are never exhausted. */
  lemma {:induction false} FreshId(ids: set<nat>) returns (id: nat)
    ensures id !in ids && forall x :: x in ids ==> x < id
  {
    id := 0;
    if ids != {} {
      var x :| x in ids;
      var rest := FreshId(ids - {x});
      id := if x < rest then rest else x + 1;
      forall y | y in ids ensures y < id {
        assert y == x || y in ids - {x};
      }
    }
  }

  /** A newcomer joins a build that began before the change. */
  lemma JoinMisleads<T>(s: System<T>, k: string, build: (string, int) -> T)
    requires k in s.building && !Fresh(build, s.config, k, build(k, s.building[k].config))
    ensures CanMislead(s, build)
  {
    var id := FreshId(s.waiting.Keys);
    PlayFirst(s, Arrive(id, k), [], build);
    assert [Arrive(id, k)] + [] == [Arrive(id, k)];
    assert Misleads(s, [Arrive(id, k)], id, k, Join(id), build);
  }

  /** A request that read its configuration before the change starts the build, and a newcomer joins it. */
  lemma LeadMisleads<T>(s: System<T>, id: nat, build: (string, int) -> T)
    requires s.cache.entries == map[] && id in s.waiting && s.waiting[id].key !in s.building
    requires !Fresh(build, s.config, s.waiting[id].key, build(s.waiting[id].key, s.waiting[id].config))
    ensures CanMislead(s, build)
  {
    var k := s.waiting[id].key;
    var led := Next(s, Lead(id), build);
    PlayFirst(led, Arrive(id, k), [], build);
    PlayFirst(s, Lead(id), [Arrive(id, k)], build);
    assert [Arrive(id, k)] + [] == [Arrive(id, k)];
    var run := [Lead(id)] + [Arrive(id, k)];
    assert run[1] == Arrive(id, k);
    assert Misleads(s, run, id, k, Join(id), build);
  }

  /** What can mislead later can mislead now. */
  lemma EarlierMisleads<T>(s: System<T>, a: Action, build: (string, int) -> T)
    requires Enabled(s, a) && !a.Change? && CanMislead(Next(s, a, build), build)
    ensures CanMislead(s, build)
  {
    var run: seq<Action>, id: nat, key: string, last: Action :| Misleads(Next(s, a, build), run, id, key, last, build);
    PlayFirst(s, a, run, build);
    assert Misleads(s, [a] + run, id, key, last, build);
  }

  /** A waiting request whose key is being built for the new configuration waits for that build to be over:
      the build is stored, dropped by another reset and left, and the request then leads its own. */
  lemma LateLeadMisleads<T>(s: System<T>, id: nat, build: (string, int) -> T)
    requires s.cache.entries == map[] && id in s.waiting && s.waiting[id].key in s.building
    requires !Fresh(build, s.config, s.waiting[id].key, build(s.waiting[id].key, s.waiting[id].config))
    ensures CanMislead(s, build)
  {
    var k := s.waiting[id].key;
    var stored := if s.building[k].stored then s else Next(s, Store(k), build);
    var cleared := Next(stored, Reset, build);
    LeadMisleads(Next(cleared, Leave(k), build), id, build);
    EarlierMisleads(cleared, Leave(k), build);
    EarlierMisleads(stored, Reset, build);
    if !s.building[k].stored {
      EarlierMisleads(s, Store(k), build);
    }
  }

  /** The exact condition: a change with its reset can give a request that arrives after it a stale answer if and
      only if it overtakes a request or a build in flight whose key the two configurations build differently. */
  lemma ReconfigureMisleadsIff<T>(s: System<T>, config: int, build: (string, int) -> T)
    requires Quiet(s, build)
    ensures CanMislead(Reconfigured(s, config, build), build) <==> Overtaken(s, config, build)
  {
    var after := Reconfigured(s, config, build);
    assert after.waiting == s.waiting && after.building == s.building && after.config == config;
    if k :| k in s.building && !Fresh(build, config, k, build(k, s.building[k].config)) {
      JoinMisleads(after, k, build);
    } else if id :| id in s.waiting && !Fresh(build, config, s.waiting[id].key, build(s.waiting[id].key, s.waiting[id].config)) {
      if s.waiting[id].key in s.building {
        LateLeadMisleads(after, id, build);
      } else {
        LeadMisleads(after, id, build);
      }
    } else {
      NotOvertaken(after, build);
    }
  }

  lemma NotOvertaken<T>(s: System<T>, build: (string, int) -> T)
    requires Quiet(s, build)
    ensures !CanMislead(s, build)
  {
    forall run: seq<Action>, id: nat, key: string, last: Action ensures !Misleads(s, run, id, key, last, build) {
      if Play(s, run, build).Some? && (forall i :: 0 <= i < |run| ==> !run[i].Change?) {
        PlayKeepsQuiet(s, run, build);
        var t := Play(s, run, build).value;
        if Enabled(t, last) && !last.Change? {
          QuietStep(t, last, build);
        }
      }
    }
  }

  /** In particular, when every key in flight is one the change affects: exactly when something is in flight. */
  lemma ReconfigureInFlightIff<T>(s: System<T>, config: int, build: (string, int) -> T)
    requires Quiet(s, build)
    requires forall id :: id in s.waiting ==> build(s.waiting[id].key, s.config) != build(s.waiting[id].key, config)
    requires forall k :: k in s.building ==> build(k, s.config) != build(k, config)
    ensures CanMislead(Reconfigured(s, config, build), build) <==> s.waiting != map[] || s.building != map[]
  {
    ReconfigureMisleadsIff(s, config, build);
    if id :| id in s.waiting {
      assert Fresh(build, s.config, s.waiting[id].key, build(s.waiting[id].key, s.waiting[id].config));
    }
    if k :| k in s.building {
      assert Fresh(build, s.config, k, build(k, s.building[k].config));
    }
  }

  /** Where a run leaves the configuration, and the answer the next action then gives. */
  ghost function AnswerAfter<T>(s: System<T>, run: seq<Action>, a: Action, build: (string, int) -> T): Option<(int, Answer<T>)> {
    var t := Play(s, run, build);
    if t.None? || !Enabled(t.value, a) || Answers(t.value, a, build).None? then None
    else Some((t.value.config, Answers(t.value, a, build).value))
  }

  /** A reset inside a build does not help: the build stores its result afterwards, and requests that arrive
      after the change are answered for the old configuration. */
  lemma OverlapServesStale<T>(key: string, before: int, after: int, size: nat, build: (string, int) -> T)
    requires size > 0
    ensures AnswerAfter(Init(before, size),
        [Arrive(0, key), Lead(0), Change(after), Reset, Store(key), Leave(key), Arrive(1, key)], Hit(1), build)
      == Some((after, Answer(key, build(key, before))))
  {
    var s0: System<T> := Init(before, size);
    var s1 := Next(s0, Arrive(0, key), build);
    var s2 := Next(s1, Lead(0), build);
    var s3 := Next(s2, Change(after), build);
    var s4 := Next(s3, Reset, build);
    assert s4.building[key] == Build(before, false) && s4.cache == Cache(map[], [], size) && s4.waiting == map[];
    LateStoreServesStale(s4, key, before, build);
    PlayFirst(s3, Reset, [Store(key), Leave(key), Arrive(1, key)], build);
    PlayFirst(s2, Change(after), [Reset, Store(key), Leave(key), Arrive(1, key)], build);
    PlayFirst(s1, Lead(0), [Change(after), Reset, Store(key), Leave(key), Arrive(1, key)], build);
    PlayFirst(s0, Arrive(0, key), [Lead(0), Change(after), Reset, Store(key), Leave(key), Arrive(1, key)], build);
  }

  lemma LateStoreServesStale<T>(s: System<T>, key: string, before: int, build: (string, int) -> T)
    requires s.cache.size > 0 && s.cache.entries == map[] && s.cache.order == [] && s.waiting == map[]
    requires key in s.building && s.building[key] == Build(before, false)
    ensures AnswerAfter(s, [Store(key), Leave(key), Arrive(1, key)], Hit(1), build)
      == Some((s.config, Answer(key, build(key, before))))
  {
    StoredContents(s.cache, key, build(key, before));
    var s1 := Next(s, Store(key), build);
    var s2 := Next(s1, Leave(key), build);
    PlayFirst(s2, Arrive(1, key), [], build);
    PlayFirst(s1, Leave(key), [Arrive(1, key)], build);
    PlayFirst(s, Store(key), [Leave(key), Arrive(1, key)], build);
  }
}
