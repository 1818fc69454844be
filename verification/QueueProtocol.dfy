/** The queue under interleaving: n dequeuer slots, each somewhere in Dequeue's loop, and every
    critical section, channel receive and context cancellation one atomic step. */
module QueueProtocol {
  import opened Numbers
  import opened Text
  import opened JobQueue

  /** Where one dequeuer is: outside Dequeue, about to lock and look, blocked in select, woken by a
      token or by close and about to drop its waiter count, or cancelled and about to do the same. */
  datatype Pc = Idle | Checking | Blocked | Woken | Leaving

  /** What one tier has seen since the queue was last reordered. */
  datatype TierLog = TierLog(arrived: seq<string>, delivered: seq<string>, removed: set<string>)

  datatype System = System(
    q: QueueState, pc: seq<Pc>,
    enqueued: set<string>, delivered: seq<string>, removed: set<string>,
    normalLog: TierLog, batchLog: TierLog)

  datatype Step =
    | Call(d: nat)
    | Check(d: nat)
    | TakeToken(d: nat)
    | SeeClosed(d: nat)
    | SeeCancelled(d: nat)
    | Acknowledge(d: nat)
    | DoEnqueue(id: string, priority: Priority)
    | DoRemove(id: string)
    | DoPause
    | DoResume
    | DoReorder(ids: seq<string>)
    | DoClose

  predicate IsAdmin(step: Step) {
    step.DoEnqueue? || step.DoRemove? || step.DoPause? || step.DoResume? || step.DoReorder? || step.DoClose?
  }

  predicate At(s: System, d: nat, pc: Pc) {
    d < |s.pc| && s.pc[d] == pc
  }

  predicate Enabled(s: System, step: Step) {
    match step
    case Call(d) => At(s, d, Idle)
    case Check(d) => At(s, d, Checking)
    case TakeToken(d) => At(s, d, Blocked) && s.q.tokens > 0
    case SeeClosed(d) => At(s, d, Blocked) && s.q.closed
    case SeeCancelled(d) => At(s, d, Blocked)
    case Acknowledge(d) => At(s, d, Woken) || At(s, d, Leaving)
    case _ => true
  }

  function LogDelivery(log: TierLog, id: string): TierLog {
    log.(delivered := log.delivered + [id])
  }

  function Checked(s: System, d: nat): System
    requires At(s, d, Checking)
  {
    var (q, taken) := Take(s.q);
    match taken
    case MustWait => s.(q := q, pc := s.pc[d := Blocked])
    case Closed => s.(q := q, pc := s.pc[d := Idle])
    case Job(id) =>
      var out := s.(q := q, pc := s.pc[d := Idle], delivered := s.delivered + [id]);
      if s.q.normal != [] then out.(normalLog := LogDelivery(s.normalLog, id))
      else out.(batchLog := LogDelivery(s.batchLog, id))
  }

  function Arrived(s: System, id: string, priority: Priority): System {
    if s.q.closed then s
    else
      var out := s.(q := Enqueued(s.q, id, priority), enqueued := s.enqueued + {id});
      if priority.PriorityBatch? then out.(batchLog := s.batchLog.(arrived := s.batchLog.arrived + [id]))
      else out.(normalLog := s.normalLog.(arrived := s.normalLog.arrived + [id]))
  }

  function Withdrawn(s: System, id: string): System {
    if RemoveFault(s.q, id).Some? then s
    else
      var out := s.(q := Removed(s.q, id), removed := s.removed + {id});
      if id in s.q.normal then out.(normalLog := s.normalLog.(removed := s.normalLog.removed + {id}))
      else out.(batchLog := s.batchLog.(removed := s.batchLog.removed + {id}))
  }

  /** A new order starts both tiers' logs afresh. */
  function Rearranged(s: System, ids: seq<string>): System {
    if ReorderFault(s.q, ids).Some? then s
    else
      var q := Reordered(s.q, ids);
      s.(q := q, normalLog := TierLog(q.normal, [], {}), batchLog := TierLog(q.batch, [], {}))
  }

  function Apply(s: System, step: Step): System
    requires Enabled(s, step)
  {
    match step
    case Call(d) => s.(pc := s.pc[d := Checking])
    case Check(d) => Checked(s, d)
    case TakeToken(d) => s.(q := s.q.(tokens := s.q.tokens - 1), pc := s.pc[d := Woken])
    case SeeClosed(d) => s.(pc := s.pc[d := Woken])
    case SeeCancelled(d) => s.(pc := s.pc[d := Leaving])
    case Acknowledge(d) => s.(q := StopWaiting(s.q), pc := s.pc[d := if s.pc[d] == Woken then Checking else Idle])
    case DoEnqueue(id, priority) => Arrived(s, id, priority)
    case DoRemove(id) => Withdrawn(s, id)
    case DoPause => if s.q.closed then s else s.(q := s.q.(paused := true))
    case DoResume => s.(q := Resumed(s.q))
    case DoReorder(ids) => Rearranged(s, ids)
    case DoClose => s.(q := s.q.(closed := true))
  }

  function Initial(n: nat): System {
    System(QueueState([], [], false, false, 0, 0), seq(n, i => Idle), {}, [], {}, TierLog([], [], {}), TierLog([], [], {}))
  }

  /** The state after a run, or None when some step was not enabled. */
  function Run(n: nat, steps: seq<Step>): Option<System> {
    if steps == [] then Some(Initial(n))
    else
      var before, step := Run(n, steps[..|steps| - 1]), steps[|steps| - 1];
      if before.Some? && Enabled(before.value, step) then Some(Apply(before.value, step)) else None
  }

  ghost predicate Reachable(n: nat, s: System) {
    exists steps :: Run(n, steps) == Some(s)
  }

  lemma ReachStep(n: nat, s: System, step: Step)
    requires Reachable(n, s) && Enabled(s, step)
    ensures Reachable(n, Apply(s, step))
  {
    var steps :| Run(n, steps) == Some(s);
    assert (steps + [step])[..|steps|] == steps;
    assert Run(n, steps + [step]) == Some(Apply(s, step));
  }

  function Count(pc: seq<Pc>, x: Pc): nat {
    if pc == [] then 0 else (if pc[0] == x then 1 else 0) + Count(pc[1..], x)
  }

  lemma {:induction false} CountUpdate(pc: seq<Pc>, d: nat, v: Pc, x: Pc)
    requires d < |pc|
    ensures Count(pc[d := v], x) == Count(pc, x) - (if pc[d] == x then 1 else 0) + (if v == x then 1 else 0)
  {
    if d > 0 {
      assert pc[d := v][1..] == pc[1..][d - 1 := v];
      CountUpdate(pc[1..], d - 1, v, x);
    } else {
      assert pc[d := v][1..] == pc[1..];
    }
  }

  lemma {:induction false} CountBound(pc: seq<Pc>, x: Pc)
    ensures Count(pc, x) <= |pc|
    ensures Count(pc, x) > 0 ==> exists d :: 0 <= d < |pc| && pc[d] == x
  {
    if pc != [] {
      CountBound(pc[1..], x);
      if Count(pc[1..], x) > 0 {
        var d :| 0 <= d < |pc[1..]| && pc[1..][d] == x;
        assert pc[d + 1] == x;
      }
    }
  }

  /** Woken but not yet looking at the queue, or about to. */
  function Unchecked(s: System): nat {
    Count(s.pc, Woken) + Count(s.pc, Checking)
  }

  /** No wake-up is lost: every blocked dequeuer has a token waiting for it, or there are as many
      tokens and unchecked dequeuers as there are queued jobs. */
  predicate NoLostWakeup(s: System) {
    !s.q.closed && !s.q.paused ==>
      s.q.tokens >= Count(s.pc, Blocked) || s.q.tokens + Unchecked(s) >= s.q.Queued()
  }

  ghost predicate WakeupInvariant(s: System) {
    && s.q.tokens <= NOTIFY_CAP
    && s.q.waiters == Count(s.pc, Blocked) + Count(s.pc, Woken) + Count(s.pc, Leaving)
    && (|s.pc| <= NOTIFY_CAP ==> NoLostWakeup(s))
  }

  /** A dequeuer's step moves one program counter; everything counted follows. */
  lemma PcMoves(pc: seq<Pc>, d: nat, v: Pc)
    requires d < |pc|
    ensures forall x :: Count(pc[d := v], x) == Count(pc, x) - (if pc[d] == x then 1 else 0) + (if v == x then 1 else 0)
  {
    forall x {
      CountUpdate(pc, d, v, x);
    }
  }

  lemma DequeuerKeepsWakeups(s: System, step: Step)
    requires WakeupInvariant(s) && Enabled(s, step)
    requires !IsAdmin(step)
    ensures WakeupInvariant(Apply(s, step))
  {
    if step.Check? {
      CheckKeepsWakeups(s, step.d);
    } else {
      PcMoves(s.pc, step.d, Apply(s, step).pc[step.d]);
    }
  }

  lemma CheckKeepsWakeups(s: System, d: nat)
    requires WakeupInvariant(s) && At(s, d, Checking)
    ensures WakeupInvariant(Checked(s, d))
  {
    PcMoves(s.pc, d, Checked(s, d).pc[d]);
  }

  lemma AdminKeepsWakeups(s: System, step: Step)
    requires WakeupInvariant(s) && Enabled(s, step)
    requires IsAdmin(step)
    ensures WakeupInvariant(Apply(s, step))
  {
    CountBound(s.pc, Blocked);
    match step
    case DoRemove(id) =>
      RemoveShrinks(s.q.normal, id);
      RemoveShrinks(s.q.batch, id);
    case DoReorder(ids) =>
      TierPartition(ids, s.q.batch);
    case _ =>
  }

  lemma {:induction false} RemoveShrinks(ids: seq<string>, id: string)
    ensures |RemoveFirst(ids, id)| == |ids| - (if id in ids then 1 else 0)
  {
    if ids != [] && ids[0] != id {
      RemoveShrinks(ids[1..], id);
    }
  }

  lemma {:induction false} WakeupsKept(n: nat, steps: seq<Step>)
    requires Run(n, steps).Some?
    ensures WakeupInvariant(Run(n, steps).value) && |Run(n, steps).value.pc| == n
  {
    if steps == [] {
      AllIdle(n, Blocked);
      AllIdle(n, Woken);
      AllIdle(n, Leaving);
    } else {
      var step := steps[|steps| - 1];
      WakeupsKept(n, steps[..|steps| - 1]);
      var before := Run(n, steps[..|steps| - 1]).value;
      if IsAdmin(step) {
        AdminKeepsWakeups(before, step);
      } else {
        DequeuerKeepsWakeups(before, step);
      }
    }
  }

  lemma {:induction false} AllIdle(n: nat, x: Pc)
    requires x != Idle
    ensures Count(seq(n, i => Idle), x) == 0
  {
    CountBound(seq(n, i => Idle), x);
  }

  /** The waiter count is exact in every reachable state, so the guards on its decrements never bite. */
  lemma WaitersExact(n: nat, s: System, d: nat)
    requires Reachable(n, s)
    ensures s.q.waiters == Count(s.pc, Blocked) + Count(s.pc, Woken) + Count(s.pc, Leaving)
    ensures Enabled(s, Acknowledge(d)) ==> StopWaiting(s.q).waiters == s.q.waiters - 1
  {
    var steps :| Run(n, steps) == Some(s);
    WakeupsKept(n, steps);
    if Enabled(s, Acknowledge(d)) {
      CountOne(s.pc, d);
    }
  }

  lemma {:induction false} CountOne(pc: seq<Pc>, d: nat)
    requires d < |pc|
    ensures Count(pc, pc[d]) > 0
  {
    if d > 0 {
      CountOne(pc[1..], d - 1);
    }
  }

  /** n dequeuers can lose a wake-up exactly when there are more of them than the token channel has slots. */
  lemma NoLostWakeupIff(n: nat)
    ensures (forall s :: Reachable(n, s) ==> NoLostWakeup(s)) <==> n <= 1024
  {
    if n <= NOTIFY_CAP {
      forall s | Reachable(n, s) ensures NoLostWakeup(s) {
        var steps :| Run(n, steps) == Some(s);
        WakeupsKept(n, steps);
      }
    } else {
      var s := Flooded(n, n);
      AllBlocked(n);
      assert !NoLostWakeup(s);
    }
  }

  function Waiting(n: nat, k: nat): seq<Pc> {
    seq(n, i => if i < k then Blocked else Idle)
  }

  lemma {:induction false} AllBlocked(n: nat)
    ensures Count(Waiting(n, n), Blocked) == n
    ensures Count(Waiting(n, n), Woken) == Count(Waiting(n, n), Checking) == 0
  {
    CountBound(Waiting(n, n), Woken);
    CountBound(Waiting(n, n), Checking);
    if n > 0 {
      assert Waiting(n, n)[1..] == Waiting(n - 1, n - 1);
      AllBlocked(n - 1);
    }
  }

  /** A queue as far as its sleepers go: whether it runs, the counted waiters, its jobs and its tokens. */
  datatype Load = Load(running: bool, waiters: int, queued: nat, tokens: nat)

  function LoadOf(q: QueueState): Load {
    Load(!q.closed && !q.paused, q.waiters, q.Queued(), q.tokens)
  }

  /** All n dequeuers call in turn and block on the empty queue. */
  lemma {:induction false} BlockInTurn(n: nat, k: nat) returns (s: System)
    requires k <= n
    ensures Reachable(n, s) && s.pc == Waiting(n, k)
    ensures s.q == QueueState([], [], false, false, k, 0)
  {
    if k == 0 {
      s := Initial(n);
      assert Run(n, []) == Some(s);
      assert s.pc == Waiting(n, 0);
    } else {
      var before := BlockInTurn(n, k - 1);
      ReachStep(n, before, Call(k - 1));
      var called := Apply(before, Call(k - 1));
      ReachStep(n, called, Check(k - 1));
      s := Apply(called, Check(k - 1));
      assert s.pc == Waiting(n, k);
    }
  }

  /** j jobs then arrive before any of them runs: the channel fills, later tokens are dropped. */
  lemma {:induction false} Flooded(n: nat, j: nat) returns (s: System)
    requires n > 0
    ensures Reachable(n, s) && s.pc == Waiting(n, n)
    ensures LoadOf(s.q) == Load(true, n, j, Min(j, NOTIFY_CAP))
  {
    if j == 0 {
      s := BlockInTurn(n, n);
    } else {
      var before := Flooded(n, j - 1);
      var step := DoEnqueue(Decimal(j), PriorityNormal);
      ReachStep(n, before, step);
      s := Apply(before, step);
    }
  }

  /** No dequeuer has a step to take except to be cancelled or to call again. */
  ghost predicate Quiescent(s: System) {
    forall step :: !IsAdmin(step) && !step.Call? && !step.SeeCancelled? ==> !Enabled(s, step)
  }

  /** At rest with a dequeuer asleep on a closed queue, or on a job while the queue is not paused. */
  ghost predicate Stuck(s: System) {
    Quiescent(s) && Count(s.pc, Blocked) > 0 && (s.q.closed || (!s.q.paused && s.q.Queued() > 0))
  }

  lemma NeverStuck(n: nat, s: System)
    requires n <= NOTIFY_CAP && Reachable(n, s)
    ensures !Stuck(s)
  {
    NoLostWakeupIff(n);
    if Quiescent(s) {
      AtRest(s);
    }
  }

  /** At rest nobody is about to look, and whoever sleeps finds no token and no closed queue. */
  lemma AtRest(s: System)
    requires Quiescent(s)
    ensures Count(s.pc, Woken) == Count(s.pc, Checking) == 0
    ensures Count(s.pc, Blocked) > 0 ==> s.q.tokens == 0 && !s.q.closed
  {
    CountBound(s.pc, Blocked);
    CountBound(s.pc, Woken);
    CountBound(s.pc, Checking);
    if d :| 0 <= d < |s.pc| && s.pc[d] == Blocked {
      assert !Enabled(s, TakeToken(d)) && !Enabled(s, SeeClosed(d));
    }
    forall d | 0 <= d < |s.pc| ensures s.pc[d] != Woken && s.pc[d] != Checking {
      assert !Enabled(s, Acknowledge(d)) && !Enabled(s, Check(d));
    }
  }

  /** The first k dequeuers have gone, the others sleep. */
  function Served(n: nat, k: nat): seq<Pc> {
    seq(n, i => if i < k then Idle else Blocked)
  }

  lemma {:induction false} ServedAsleep(n: nat, k: nat)
    ensures Count(Served(n, k), Blocked) == if k <= n then n - k else 0
  {
    if n > 0 {
      assert Served(n, k)[1..] == Served(n - 1, if k > 0 then k - 1 else 0);
      ServedAsleep(n - 1, if k > 0 then k - 1 else 0);
    }
  }

  /** One dequeuer takes a token, looks and leaves with a job. */
  lemma ServeOne(n: nat, s: System, d: nat) returns (t: System)
    requires Reachable(n, s) && d < |s.pc| && s.pc[d] == Blocked
    requires LoadOf(s.q).running && s.q.waiters > 0 && s.q.Queued() > 0 && s.q.tokens > 0
    ensures Reachable(n, t) && t.pc == s.pc[d := Idle]
    ensures LoadOf(t.q) == Load(true, s.q.waiters - 1, s.q.Queued() - 1, s.q.tokens - 1)
  {
    ReachStep(n, s, TakeToken(d));
    var woken := Apply(s, TakeToken(d));
    ReachStep(n, woken, Acknowledge(d));
    var checking := Apply(woken, Acknowledge(d));
    ReachStep(n, checking, Check(d));
    t := Apply(checking, Check(d));
    assert t.pc == s.pc[d := Idle];
  }

  /** Of n sleeping dequeuers with n jobs the first k are served, as far as the tokens in the channel go. */
  lemma {:induction false} ServeInTurn(n: nat, k: nat) returns (s: System)
    requires NOTIFY_CAP < n && k <= NOTIFY_CAP
    ensures Reachable(n, s) && s.pc == Served(n, k)
    ensures LoadOf(s.q) == Load(true, n - k, n - k, NOTIFY_CAP - k)
  {
    if k == 0 {
      s := Flooded(n, n);
      assert s.pc == Served(n, 0);
    } else {
      var before := ServeInTurn(n, k - 1);
      s := ServeOne(n, before, k - 1);
      assert s.pc == Served(n, k);
    }
  }

  /** n dequeuers never come to rest with a job queued and one of them asleep, nor with one asleep on a closed
      queue, if and only if the token channel has a slot for each. */
  lemma NeverStuckIff(n: nat)
    ensures (forall s :: Reachable(n, s) ==> !Stuck(s)) <==> n <= 1024
  {
    if n <= NOTIFY_CAP {
      forall s | Reachable(n, s) ensures !Stuck(s) {
        NeverStuck(n, s);
      }
    } else {
      var s := ServeInTurn(n, NOTIFY_CAP);
      ServedAsleep(n, NOTIFY_CAP);
      assert Quiescent(s);
      assert Stuck(s);
    }
  }
}
