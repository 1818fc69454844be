/** What happens to each job: nothing is lost or delivered twice, normal jobs go first, and each
    tier is first in, first out between reorders. */
module QueueConservation {
  import opened Sorting
  import opened Text
  import opened JobQueue
  import opened QueueProtocol

  /** Callers enqueue fresh ids and reorder without repeating one. */
  ghost predicate Fair(s: System, step: Step) {
    && (step.DoEnqueue? ==> step.id !in s.enqueued)
    && (step.DoReorder? ==> Distinct(step.ids))
  }

  ghost predicate FairRun(n: nat, steps: seq<Step>) {
    && Run(n, steps).Some?
    && (steps == [] || (FairRun(n, steps[..|steps| - 1]) && Fair(Run(n, steps[..|steps| - 1]).value, steps[|steps| - 1])))
  }

  /** Every accepted job is in exactly one place: delivered once, removed, or queued once in one tier. */
  ghost predicate Conserved(s: System) {
    multiset(s.enqueued) == multiset(s.delivered) + multiset(s.removed) + multiset(s.q.normal) + multiset(s.q.batch)
  }

  /** The ids of s that were not removed, in order. */
  ghost function Without(s: seq<string>, removed: set<string>): seq<string> {
    if s == [] then []
    else Without(s[..|s| - 1], removed) + (if s[|s| - 1] in removed then [] else [s[|s| - 1]])
  }

  /** What arrived in a tier since the last reorder, less what was removed, is what was delivered
      followed by what is queued, in that order. */
  ghost predicate InOrder(log: TierLog, queued: seq<string>) {
    log.delivered + queued == Without(log.arrived, log.removed)
  }

  ghost predicate BothInOrder(s: System) {
    InOrder(s.normalLog, s.q.normal) && InOrder(s.batchLog, s.q.batch)
  }

  /** The logs since the last reorder are part of the whole record. */
  ghost predicate Logged(s: System) {
    && (forall id :: id in s.normalLog.delivered + s.batchLog.delivered ==> id in s.delivered)
    && s.normalLog.removed + s.batchLog.removed <= s.removed
  }

  ghost predicate QueueInvariant(s: System) {
    Conserved(s) && BothInOrder(s) && Logged(s)
  }

  lemma {:induction false} WithoutNothing(s: seq<string>)
    ensures Without(s, {}) == s
  {
    if s != [] {
      WithoutNothing(s[..|s| - 1]);
    }
  }

  lemma WithoutAppend(s: seq<string>, removed: set<string>, id: string)
    requires id !in removed
    ensures Without(s + [id], removed) == Without(s, removed) + [id]
  {
    assert (s + [id])[..|s|] == s;
  }

  lemma {:induction false} WithoutConcat(a: seq<string>, b: seq<string>, removed: set<string>)
    ensures Without(a + b, removed) == Without(a, removed) + Without(b, removed)
  {
    if b == [] {
      assert a + b == a;
    } else {
      assert (a + b)[..|a + b| - 1] == a + b[..|b| - 1];
      WithoutConcat(a, b[..|b| - 1], removed);
    }
  }

  lemma {:induction false} WithoutMore(s: seq<string>, removed: set<string>, id: string)
    ensures Without(s, removed + {id}) == Without(Without(s, removed), {id})
  {
    if s != [] {
      var front, x := s[..|s| - 1], s[|s| - 1];
      WithoutMore(front, removed, id);
      var last := if x in removed then [] else [x];
      WithoutConcat(Without(front, removed), last, {id});
      assert Without([x], {id}) == if x == id then [] else [x];
    }
  }

  lemma {:induction false} WithoutAbsent(s: seq<string>, id: string)
    requires id !in s
    ensures Without(s, {id}) == s
  {
    if s != [] {
      WithoutAbsent(s[..|s| - 1], id);
    }
  }

  lemma WithoutFirst(s: seq<string>, removed: set<string>)
    requires s != []
    ensures Without(s, removed) == (if s[0] in removed then [] else [s[0]]) + Without(s[1..], removed)
  {
    assert s == [s[0]] + s[1..] && [s[0]][..0] == [];
    WithoutConcat([s[0]], s[1..], removed);
  }

  /** On an unrepeated id removing the first occurrence filters it out. */
  lemma {:induction false} RemoveFirstFilters(s: seq<string>, id: string)
    requires multiset(s)[id] == 1
    ensures RemoveFirst(s, id) == Without(s, {id})
  {
    assert id in multiset(s);
    assert s == [s[0]] + s[1..];
    WithoutFirst(s, {id});
    if s[0] == id {
      assert id !in multiset(s[1..]);
      WithoutAbsent(s[1..], id);
    } else {
      RemoveFirstFilters(s[1..], id);
    }
  }

  lemma RemovedInOrder(log: TierLog, queued: seq<string>, id: string)
    requires InOrder(log, queued) && multiset(queued)[id] == 1 && id !in log.delivered
    ensures InOrder(log.(removed := log.removed + {id}), RemoveFirst(queued, id))
  {
    WithoutMore(log.arrived, log.removed, id);
    WithoutConcat(log.delivered, queued, {id});
    WithoutAbsent(log.delivered, id);
    RemoveFirstFilters(queued, id);
  }

  lemma ArrivedInOrder(log: TierLog, queued: seq<string>, id: string)
    requires InOrder(log, queued) && id !in log.removed
    ensures InOrder(log.(arrived := log.arrived + [id]), queued + [id])
  {
    WithoutAppend(log.arrived, log.removed, id);
    assert log.delivered + (queued + [id]) == log.delivered + queued + [id];
  }

  lemma DeliveredInOrder(log: TierLog, queued: seq<string>)
    requires InOrder(log, queued) && queued != []
    ensures InOrder(LogDelivery(log, queued[0]), queued[1..])
  {
    assert log.delivered + queued == log.delivered + [queued[0]] + queued[1..];
  }

  /** A queued id is queued once and was neither delivered nor removed. */
  lemma QueuedOnce(s: System, id: string)
    requires Conserved(s) && (id in s.q.normal || id in s.q.batch)
    ensures id !in s.delivered && id !in s.removed
    ensures id in s.q.normal ==> multiset(s.q.normal)[id] == 1 && id !in s.q.batch
    ensures id in s.q.batch ==> multiset(s.q.batch)[id] == 1
  {
    assert multiset(s.enqueued)[id] <= 1;
    assert id in s.q.normal <==> multiset(s.q.normal)[id] > 0;
    assert id in s.q.batch <==> multiset(s.q.batch)[id] > 0;
    assert id in s.delivered <==> multiset(s.delivered)[id] > 0;
    assert multiset(s.enqueued)[id]
        == multiset(s.delivered)[id] + multiset(s.removed)[id] + multiset(s.q.normal)[id] + multiset(s.q.batch)[id];
  }

  lemma EnqueueConserves(s: System, id: string, priority: Priority)
    requires Conserved(s) && id !in s.enqueued && !s.q.closed
    ensures Conserved(Arrived(s, id, priority))
  {
    var t := Arrived(s, id, priority);
    var one := multiset{id};
    assert multiset(t.enqueued) == multiset(s.enqueued) + one;
    if priority.PriorityBatch? {
      assert t.q.batch == s.q.batch + [id] && t.q.normal == s.q.normal;
    } else {
      assert t.q.normal == s.q.normal + [id] && t.q.batch == s.q.batch;
    }
  }

  lemma EnqueueOrders(s: System, id: string, priority: Priority)
    requires BothInOrder(s) && !s.q.closed && id !in s.normalLog.removed && id !in s.batchLog.removed
    ensures BothInOrder(Arrived(s, id, priority))
  {
    var t := Arrived(s, id, priority);
    if priority.PriorityBatch? {
      assert t.q.batch == s.q.batch + [id] && t.q.normal == s.q.normal;
      ArrivedInOrder(s.batchLog, s.q.batch, id);
    } else {
      assert t.q.normal == s.q.normal + [id] && t.q.batch == s.q.batch;
      ArrivedInOrder(s.normalLog, s.q.normal, id);
    }
  }

  /** An id never accepted was never removed. */
  lemma NotRemoved(s: System, id: string)
    requires Conserved(s) && Logged(s) && id !in s.enqueued
    ensures id !in s.normalLog.removed && id !in s.batchLog.removed
  {
    assert multiset(s.enqueued)[id] == 0;
    assert multiset(s.removed)[id] == 0;
    assert id !in s.removed;
  }

  lemma RemoveConserves(s: System, id: string)
    requires Conserved(s) && RemoveFault(s.q, id).None?
    ensures Conserved(Withdrawn(s, id))
  {
    QueuedOnce(s, id);
    assert multiset(s.removed + {id}) == multiset(s.removed) + multiset{id};
    if id in s.q.normal {
      RemoveFirstTakesOne(s.q.normal, id);
      assert multiset(s.q.normal) == multiset(RemoveFirst(s.q.normal, id)) + multiset{id};
    } else {
      RemoveFirstTakesOne(s.q.batch, id);
      assert multiset(s.q.batch) == multiset(RemoveFirst(s.q.batch, id)) + multiset{id};
    }
  }

  lemma RemoveOrders(s: System, id: string)
    requires QueueInvariant(s) && RemoveFault(s.q, id).None?
    ensures BothInOrder(Withdrawn(s, id))
  {
    QueuedOnce(s, id);
    if id in s.q.normal {
      RemovedInOrder(s.normalLog, s.q.normal, id);
    } else {
      RemovedInOrder(s.batchLog, s.q.batch, id);
    }
  }

  lemma CheckConserves(s: System, d: nat)
    requires Conserved(s) && At(s, d, Checking)
    ensures Conserved(Checked(s, d))
  {
    if !s.q.closed && !s.q.paused {
      if s.q.normal != [] {
        assert s.q.normal == [s.q.normal[0]] + s.q.normal[1..];
      } else if s.q.batch != [] {
        assert s.q.batch == [s.q.batch[0]] + s.q.batch[1..];
      }
    }
  }

  lemma CheckOrders(s: System, d: nat)
    requires BothInOrder(s) && At(s, d, Checking)
    ensures BothInOrder(Checked(s, d))
  {
    if !s.q.closed && !s.q.paused {
      if s.q.normal != [] {
        DeliveredInOrder(s.normalLog, s.q.normal);
      } else if s.q.batch != [] {
        DeliveredInOrder(s.batchLog, s.q.batch);
      }
    }
  }

  lemma ReorderConserves(s: System, ids: seq<string>)
    requires Conserved(s) && Distinct(ids)
    ensures Conserved(Rearranged(s, ids))
  {
    if ReorderFault(s.q, ids).None? {
      var all := s.q.normal + s.q.batch;
      forall id ensures multiset(all)[id] <= 1 {
        assert multiset(all)[id] <= multiset(s.enqueued)[id] <= 1;
      }
      DistinctMultiset(all);
      ReorderKeepsTiersIffDistinct(s.q, ids);
    }
  }

  lemma ReorderOrders(s: System, ids: seq<string>)
    requires BothInOrder(s)
    ensures BothInOrder(Rearranged(s, ids))
  {
    if ReorderFault(s.q, ids).None? {
      WithoutNothing(Reordered(s.q, ids).normal);
      WithoutNothing(Reordered(s.q, ids).batch);
    }
  }

  /** The other steps move no job. */
  lemma Unmoved(s: System, step: Step)
    requires Enabled(s, step) && !step.DoEnqueue? && !step.DoRemove? && !step.Check? && !step.DoReorder?
    ensures var t := Apply(s, step); t == s.(q := t.q, pc := t.pc) && t.q.normal == s.q.normal && t.q.batch == s.q.batch
  {}

  lemma StepConserves(s: System, step: Step)
    requires Conserved(s) && Enabled(s, step) && Fair(s, step)
    ensures Conserved(Apply(s, step))
  {
    match step
    case DoEnqueue(id, priority) => if !s.q.closed { EnqueueConserves(s, id, priority); }
    case DoRemove(id) => if RemoveFault(s.q, id).None? { RemoveConserves(s, id); }
    case Check(d) => CheckConserves(s, d);
    case DoReorder(ids) => ReorderConserves(s, ids);
    case _ => Unmoved(s, step);
  }

  lemma StepOrders(s: System, step: Step)
    requires QueueInvariant(s) && Enabled(s, step) && Fair(s, step)
    ensures BothInOrder(Apply(s, step))
  {
    match step
    case DoEnqueue(id, priority) =>
      if !s.q.closed {
        NotRemoved(s, id);
        EnqueueOrders(s, id, priority);
      }
    case DoRemove(id) => if RemoveFault(s.q, id).None? { RemoveOrders(s, id); }
    case Check(d) => CheckOrders(s, d);
    case DoReorder(ids) => ReorderOrders(s, ids);
    case _ => Unmoved(s, step);
  }

  lemma StepLogs(s: System, step: Step)
    requires Logged(s) && Enabled(s, step)
    ensures Logged(Apply(s, step))
  {}

  lemma StepKeeps(s: System, step: Step)
    requires QueueInvariant(s) && Enabled(s, step) && Fair(s, step)
    ensures QueueInvariant(Apply(s, step))
  {
    StepConserves(s, step);
    StepOrders(s, step);
    StepLogs(s, step);
  }

  /** Over every fair run, whatever the interleaving: enqueued = delivered + removed + queued, nothing
      is delivered twice, and both tiers are in arrival order since the last reorder. */
  lemma {:induction false} QueueConserves(n: nat, steps: seq<Step>)
    requires FairRun(n, steps)
    ensures QueueInvariant(Run(n, steps).value)
    ensures Distinct(Run(n, steps).value.delivered)
  {
    if steps != [] {
      QueueConserves(n, steps[..|steps| - 1]);
      StepKeeps(Run(n, steps[..|steps| - 1]).value, steps[|steps| - 1]);
    }
    var s := Run(n, steps).value;
    forall id ensures multiset(s.delivered)[id] <= 1 {
      assert multiset(s.delivered)[id] <= multiset(s.enqueued)[id] <= 1;
    }
    DistinctMultiset(s.delivered);
  }

  /** A batch job leaves the queue for a dequeuer only when no normal job is queued, and a tier's
      jobs leave from its head. */
  lemma NormalFirst(n: nat, steps: seq<Step>, d: nat)
    requires FairRun(n, steps)
    requires var s := Run(n, steps).value; At(s, d, Checking) && Checked(s, d).delivered != s.delivered
    ensures
      var s := Run(n, steps).value;
      var id := Checked(s, d).delivered[|s.delivered|];
      && Checked(s, d).delivered == s.delivered + [id] && id !in s.delivered && !s.q.paused && !s.q.closed
      && (id in s.q.batch ==> s.q.normal == [] && id == s.q.batch[0])
      && (id in s.q.normal ==> id == s.q.normal[0])
  {
    var s := Run(n, steps).value;
    QueueConserves(n, steps);
    QueuedOnce(s, Checked(s, d).delivered[|s.delivered|]);
  }

  /** No job arrives, leaves by request or changes place. */
  predicate Calm(step: Step) {
    !step.DoEnqueue? && !step.DoRemove? && !step.DoReorder?
  }

  /** s is where an order began, t where some of it has been delivered: the deliveries since, followed by what is queued,
      are the order. */
  ghost predicate OrderKept(s: System, t: System, ids: seq<string>) {
    t.delivered + t.q.normal + t.q.batch == s.delivered + ids
  }

  lemma ReorderedKept(s: System, ids: seq<string>)
    requires ReorderFault(s.q, ids).None?
    ensures OrderKept(s, Apply(s, DoReorder(ids)), ids)
  {
    ReorderGivesOrder(s.q, ids);
    assert s.delivered + Reordered(s.q, ids).normal + Reordered(s.q, ids).batch == s.delivered + ids;
  }

  lemma CalmKeeps(s: System, t: System, step: Step, ids: seq<string>)
    requires OrderKept(s, t, ids) && Calm(step) && Enabled(t, step)
    ensures OrderKept(s, Apply(t, step), ids)
  {
    if step.Check? {
      var u := Apply(t, step);
      if t.q.normal != [] && !t.q.paused && !t.q.closed {
        assert t.q.normal == [t.q.normal[0]] + u.q.normal;
      } else if t.q.batch != [] && !t.q.paused && !t.q.closed {
        assert t.q.batch == [t.q.batch[0]] + u.q.batch;
      }
    } else {
      Unmoved(t, step);
    }
  }

  /** After an accepted reorder, and until a job arrives, is removed or is moved again, jobs are delivered in the order
      asked for, whatever the interleaving. */
  lemma {:induction false} DeliveredAsOrdered(n: nat, before: seq<Step>, ids: seq<string>, calm: seq<Step>)
    requires Run(n, before).Some? && Run(n, before + [DoReorder(ids)] + calm).Some?
    requires ReorderFault(Run(n, before).value.q, ids).None? && forall i :: 0 <= i < |calm| ==> Calm(calm[i])
    ensures OrderKept(Run(n, before).value, Run(n, before + [DoReorder(ids)] + calm).value, ids)
  {
    var s, steps := Run(n, before).value, before + [DoReorder(ids)] + calm;
    if calm == [] {
      assert steps[..|steps| - 1] == before && steps[|steps| - 1] == DoReorder(ids);
      ReorderedKept(s, ids);
    } else {
      var front, step := calm[..|calm| - 1], calm[|calm| - 1];
      assert steps[..|steps| - 1] == before + [DoReorder(ids)] + front && steps[|steps| - 1] == step;
      DeliveredAsOrdered(n, before, ids, front);
      CalmKeeps(s, Run(n, before + [DoReorder(ids)] + front).value, step, ids);
    }
  }
}
