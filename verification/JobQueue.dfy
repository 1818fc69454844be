/** The two-tier in-memory job queue. Each critical section is one method; the token channel
    is its number of buffered tokens. */
module JobQueue {
  import opened Numbers
  import opened Sorting
  import opened Text

  const NOTIFY_CAP: nat := 1024

  datatype Priority = PriorityNormal | PriorityBatch

  datatype QueueError = QueueClosed | JobIdRequired | NotInQueue | LengthMismatch | NormalAfterBatch

  datatype Taken = Closed | Job(id: string) | MustWait

  datatype QueueState = QueueState(
    normal: seq<string>, batch: seq<string>, paused: bool, closed: bool, waiters: int, tokens: nat)
  {
    function Queued(): nat {
      |normal| + |batch|
    }
  }

  function SignalOne(q: QueueState): QueueState {
    if q.waiters < 1 || q.tokens >= NOTIFY_CAP then q else q.(tokens := q.tokens + 1)
  }

  function SignalAvailable(q: QueueState): QueueState {
    if q.waiters < 1 || q.Queued() < 1 || q.tokens >= NOTIFY_CAP then q
    else q.(tokens := Min(NOTIFY_CAP, q.tokens + Min(q.waiters, q.Queued())))
  }

  function Enqueued(q: QueueState, id: string, priority: Priority): QueueState {
    if q.closed then q
    else
      var added := if priority.PriorityBatch? then q.(batch := q.batch + [id]) else q.(normal := q.normal + [id]);
      if q.paused then added else SignalOne(added)
  }

  /** The critical section at the top of Dequeue's loop. */
  function Take(q: QueueState): (QueueState, Taken) {
    if q.closed then (q, Closed)
    else if !q.paused && q.normal != [] then (q.(normal := q.normal[1..]), Job(q.normal[0]))
    else if !q.paused && q.batch != [] then (q.(batch := q.batch[1..]), Job(q.batch[0]))
    else (q.(waiters := q.waiters + 1), MustWait)
  }

  /** The critical section after each arm of Dequeue's select. */
  function StopWaiting(q: QueueState): QueueState {
    if q.waiters > 0 then q.(waiters := q.waiters - 1) else q
  }

  function RemoveFirst(s: seq<string>, id: string): seq<string> {
    if s == [] then [] else if s[0] == id then s[1..] else [s[0]] + RemoveFirst(s[1..], id)
  }

  function RemoveFault(q: QueueState, id: string): Option<QueueError> {
    if id == "" then Some(JobIdRequired)
    else if q.closed then Some(QueueClosed)
    else if id !in q.normal && id !in q.batch then Some(NotInQueue)
    else None
  }

  function Removed(q: QueueState, id: string): QueueState {
    if RemoveFault(q, id).Some? then q
    else if id in q.normal then q.(normal := RemoveFirst(q.normal, id))
    else q.(batch := RemoveFirst(q.batch, id))
  }

  function Resumed(q: QueueState): QueueState {
    if q.closed then q else SignalAvailable(q.(paused := false))
  }

  /** The first id that makes a new order unacceptable, if any. */
  function OrderFault(q: QueueState, ids: seq<string>, seenBatch: bool): Option<QueueError> {
    if ids == [] then None
    else if ids[0] !in q.normal && ids[0] !in q.batch then Some(NotInQueue)
    else if ids[0] in q.batch then OrderFault(q, ids[1..], true)
    else if seenBatch then Some(NormalAfterBatch)
    else OrderFault(q, ids[1..], false)
  }

  function ReorderFault(q: QueueState, ids: seq<string>): Option<QueueError> {
    if q.closed then Some(QueueClosed)
    else if |ids| != q.Queued() then Some(LengthMismatch)
    else OrderFault(q, ids, false)
  }

  /** The ids of one tier, in the given order. An id queued in both tiers counts as batch. */
  function Tier(ids: seq<string>, batch: seq<string>, wantBatch: bool): seq<string> {
    if ids == [] then []
    else
      var front, id := Tier(ids[..|ids| - 1], batch, wantBatch), ids[|ids| - 1];
      if (id in batch) == wantBatch then front + [id] else front
  }

  function Reordered(q: QueueState, ids: seq<string>): QueueState {
    if ReorderFault(q, ids).Some? then q
    else
      var ordered := q.(normal := Tier(ids, q.batch, false), batch := Tier(ids, q.batch, true));
      if q.paused then ordered else SignalAvailable(ordered)
  }

  class InMemoryQueue {
    var normal: seq<string>
    var batch: seq<string>
    var paused: bool
    var closed: bool
    var waiters: int
    var tokens: nat

    function State(): QueueState
      reads this
    {
      QueueState(normal, batch, paused, closed, waiters, tokens)
    }

    constructor ()
      ensures State() == QueueState([], [], false, false, 0, 0)
    {
      normal, batch, paused, closed, waiters, tokens := [], [], false, false, 0, 0;
    }

    method Enqueue(jobID: string, priority: Priority) returns (err: Option<QueueError>)
      modifies this
      ensures State() == Enqueued(old(State()), jobID, priority)
      ensures err == if old(closed) then Some(QueueClosed) else None
    {
      if closed {
        return Some(QueueClosed);
      }
      if priority.PriorityBatch? {
        batch := batch + [jobID];
      } else {
        normal := normal + [jobID];
      }
      if !paused {
        SignalOneLocked();
      }
      err := None;
    }

    method TryDequeue() returns (taken: Taken)
      modifies this
      ensures (State(), taken) == Take(old(State()))
    {
      if closed {
        return Closed;
      }
      if !paused {
        if |normal| > 0 {
          taken := Job(normal[0]);
          normal := normal[1..];
          return;
        }
        if |batch| > 0 {
          taken := Job(batch[0]);
          batch := batch[1..];
          return;
        }
      }
      waiters := waiters + 1;
      taken := MustWait;
    }

    method LeaveSelect()
      modifies this
      ensures State() == StopWaiting(old(State()))
    {
      if waiters > 0 {
        waiters := waiters - 1;
      }
    }

    method Remove(jobID: string) returns (err: Option<QueueError>)
      modifies this
      ensures err == RemoveFault(old(State()), jobID)
      ensures State() == Removed(old(State()), jobID)
    {
      if jobID == "" {
        return Some(JobIdRequired);
      }
      if closed {
        return Some(QueueClosed);
      }
      var i := 0;
      while i < |normal|
        invariant i <= |normal| && jobID !in normal[..i] && State() == old(State())
      {
        if normal[i] == jobID {
          RemoveFirstAt(normal, i, jobID);
          normal := normal[..i] + normal[i + 1..];
          return None;
        }
        i := i + 1;
      }
      i := 0;
      while i < |batch|
        invariant i <= |batch| && jobID !in normal && jobID !in batch[..i] && State() == old(State())
      {
        if batch[i] == jobID {
          RemoveFirstAt(batch, i, jobID);
          batch := batch[..i] + batch[i + 1..];
          return None;
        }
        i := i + 1;
      }
      err := Some(NotInQueue);
    }

    method Pause() returns (err: Option<QueueError>)
      modifies this
      ensures State() == if old(closed) then old(State()) else old(State()).(paused := true)
      ensures err == if old(closed) then Some(QueueClosed) else None
    {
      if closed {
        return Some(QueueClosed);
      }
      paused := true;
      err := None;
    }

    method Resume() returns (err: Option<QueueError>)
      modifies this
      ensures State() == Resumed(old(State()))
      ensures err == if old(closed) then Some(QueueClosed) else None
    {
      if closed {
        return Some(QueueClosed);
      }
      paused := false;
      SignalAvailableLocked();
      err := None;
    }

    method Reorder(jobIDs: seq<string>) returns (err: Option<QueueError>)
      modifies this
      ensures err == ReorderFault(old(State()), jobIDs)
      ensures State() == Reordered(old(State()), jobIDs)
      ensures err.None? ==> normal + batch == jobIDs
    {
      if closed {
        return Some(QueueClosed);
      }
      var total := |normal| + |batch|;
      if |jobIDs| != total {
        return Some(LengthMismatch);
      }
      var tierOf := TiersOf(normal, batch);
      var seenBatch := false;
      for i := 0 to |jobIDs|
        invariant State() == old(State())
        invariant OrderFault(State(), jobIDs, false) == OrderFault(State(), jobIDs[i..], seenBatch)
        invariant forall j :: 0 <= j < i ==> jobIDs[j] in tierOf
      {
        assert jobIDs[i..][1..] == jobIDs[i + 1..];
        var id := jobIDs[i];
        if id !in tierOf {
          return Some(NotInQueue);
        }
        if tierOf[id].PriorityBatch? {
          seenBatch := true;
        } else if seenBatch {
          return Some(NormalAfterBatch);
        }
      }
      var newNormal, newBatch := [], [];
      for i := 0 to |jobIDs|
        invariant newNormal == Tier(jobIDs[..i], batch, false) && newBatch == Tier(jobIDs[..i], batch, true)
      {
        assert jobIDs[..i + 1][..i] == jobIDs[..i];
        if tierOf[jobIDs[i]].PriorityBatch? {
          newBatch := newBatch + [jobIDs[i]];
        } else {
          newNormal := newNormal + [jobIDs[i]];
        }
      }
      assert jobIDs[..|jobIDs|] == jobIDs;
      ReorderGivesOrder(State(), jobIDs);
      normal, batch := newNormal, newBatch;
      if !paused {
        SignalAvailableLocked();
      }
      err := None;
    }

    method Close()
      modifies this
      ensures State() == old(State()).(closed := true)
    {
      if closed {
        return;
      }
      closed := true;
    }

    method SignalOneLocked()
      modifies this
      ensures State() == SignalOne(old(State()))
    {
      if waiters < 1 {
        return;
      }
      if tokens < NOTIFY_CAP {
        tokens := tokens + 1;
      }
    }

    method SignalAvailableLocked()
      modifies this
      ensures State() == SignalAvailable(old(State()))
    {
      var total := |normal| + |batch|;
      if waiters < 1 || total < 1 {
        return;
      }
      var remaining := Min(waiters, total);
      for i := 0 to remaining
        invariant State() == old(State()).(tokens := tokens)
        invariant tokens == old(tokens) + i && (i == 0 || tokens <= NOTIFY_CAP)
      {
        if tokens < NOTIFY_CAP {
          tokens := tokens + 1;
        } else {
          return;
        }
      }
    }
  }

  lemma {:induction false} RemoveFirstAt(s: seq<string>, i: nat, id: string)
    requires i < |s| && s[i] == id && id !in s[..i]
    ensures RemoveFirst(s, id) == s[..i] + s[i + 1..]
  {
    if i > 0 {
      assert s[0] == s[..i][0] && s[1..][..i - 1] == s[..i][1..];
      RemoveFirstAt(s[1..], i - 1, id);
    }
  }

  /** Reorder's lookup table: batch entries win over normal ones. */
  method TiersOf(normal: seq<string>, batch: seq<string>) returns (tierOf: map<string, Priority>)
    ensures forall id :: id in tierOf <==> id in normal || id in batch
    ensures forall id :: id in tierOf ==> (tierOf[id].PriorityBatch? <==> id in batch)
  {
    tierOf := map[];
    for i := 0 to |normal|
      invariant forall id :: id in tierOf <==> id in normal[..i]
      invariant forall id :: id in tierOf ==> tierOf[id].PriorityNormal?
    {
      tierOf := tierOf[normal[i] := PriorityNormal];
    }
    assert normal[..|normal|] == normal;
    for i := 0 to |batch|
      invariant forall id :: id in tierOf <==> id in normal || id in batch[..i]
      invariant forall id :: id in tierOf ==> (tierOf[id].PriorityBatch? <==> id in batch[..i])
    {
      tierOf := tierOf[batch[i] := PriorityBatch];
    }
    assert batch[..|batch|] == batch;
  }

  lemma {:induction false} TierPartition(ids: seq<string>, batch: seq<string>)
    ensures multiset(ids) == multiset(Tier(ids, batch, false)) + multiset(Tier(ids, batch, true))
    ensures |ids| == |Tier(ids, batch, false)| + |Tier(ids, batch, true)|
    ensures forall id :: id in Tier(ids, batch, false) ==> id in ids && id !in batch
    ensures forall id :: id in Tier(ids, batch, true) ==> id in ids && id in batch
  {
    if ids != [] {
      var front := ids[..|ids| - 1];
      assert ids == front + [ids[|ids| - 1]];
      TierPartition(front, batch);
    }
  }

  /** An accepted order names only queued ids, as many as there are queued jobs, normal jobs first. */
  lemma {:induction false} AcceptedOrder(q: QueueState, ids: seq<string>, seenBatch: bool)
    ensures OrderFault(q, ids, seenBatch).None? <==>
      && (forall i :: 0 <= i < |ids| ==> ids[i] in q.normal || ids[i] in q.batch)
      && (seenBatch ==> forall i :: 0 <= i < |ids| ==> ids[i] in q.batch)
      && (forall i, j :: 0 <= i < j < |ids| && ids[i] in q.batch ==> ids[j] in q.batch)
  {
    if ids != [] {
      AcceptedOrder(q, ids[1..], seenBatch || ids[0] in q.batch);
      assert forall i :: 1 <= i < |ids| ==> ids[i] == ids[1..][i - 1];
    }
  }

  /** Which refusal an order meets: a closed queue and a wrong length come first, then the first id out of place. */
  lemma {:induction false} RefusedOrder(q: QueueState, ids: seq<string>, seenBatch: bool)
    ensures OrderFault(q, ids, seenBatch) == Some(NotInQueue) <==>
      exists i :: 0 <= i < |ids| && ids[i] !in q.normal && ids[i] !in q.batch && OrderFault(q, ids[..i], seenBatch).None?
    ensures OrderFault(q, ids, seenBatch) in {None, Some(NotInQueue), Some(NormalAfterBatch)}
  {
    if ids != [] {
      var first, rest := ids[0], ids[1..];
      var seen := seenBatch || first in q.batch;
      RefusedOrder(q, rest, seen);
      assert OrderFault(q, ids[..0], seenBatch).None?;
      forall i | 1 <= i <= |ids| ensures ids[..i][0] == first && ids[..i][1..] == rest[..i - 1] {}
      if i :| 0 <= i < |rest| && rest[i] !in q.normal && rest[i] !in q.batch && OrderFault(q, rest[..i], seen).None? {
        assert ids[i + 1] == rest[i] && ids[..i + 1][1..] == rest[..i];
      }
      if i :| 0 <= i < |ids| && ids[i] !in q.normal && ids[i] !in q.batch && OrderFault(q, ids[..i], seenBatch).None? {
        if i > 0 {
          assert rest[i - 1] == ids[i] && ids[..i][1..] == rest[..i - 1];
        }
      }
    }
  }

  /** With its batch ids behind its normal ones an order is its normal tier followed by its batch tier. */
  lemma {:induction false} TiersConcat(ids: seq<string>, batch: seq<string>)
    requires forall i, j :: 0 <= i < j < |ids| && ids[i] in batch ==> ids[j] in batch
    ensures Tier(ids, batch, false) + Tier(ids, batch, true) == ids
    ensures (forall i :: 0 <= i < |ids| ==> ids[i] !in batch) ==> Tier(ids, batch, true) == []
  {
    if ids != [] {
      var front, id := ids[..|ids| - 1], ids[|ids| - 1];
      TiersConcat(front, batch);
      assert ids == front + [id];
      if id !in batch {
        assert forall i :: 0 <= i < |front| ==> front[i] == ids[i] && front[i] !in batch;
      }
    }
  }

  /** An accepted order is the order the queue then has. */
  lemma ReorderGivesOrder(q: QueueState, ids: seq<string>)
    requires ReorderFault(q, ids).None?
    ensures Reordered(q, ids).normal + Reordered(q, ids).batch == ids
  {
    AcceptedOrder(q, ids, false);
    TiersConcat(ids, q.batch);
  }

  /** A queued id of either tier can be removed while the queue is open, and leaves its tier once; another id is not found. */
  lemma RemoveTakes(q: QueueState, id: string)
    requires !q.closed && id != ""
    ensures
      var r := Removed(q, id);
      if id in q.normal then RemoveFault(q, id).None? && multiset(r.normal) == multiset(q.normal) - multiset{id} && r.batch == q.batch
      else if id in q.batch then RemoveFault(q, id).None? && multiset(r.batch) == multiset(q.batch) - multiset{id} && r.normal == q.normal
      else RemoveFault(q, id) == Some(NotInQueue) && r == q
  {
    if id in q.normal {
      RemoveFirstTakesOne(q.normal, id);
    } else if id in q.batch {
      RemoveFirstTakesOne(q.batch, id);
    }
  }

  /** Removing the first occurrence takes one copy out. */
  lemma {:induction false} RemoveFirstTakesOne(s: seq<string>, id: string)
    requires id in s
    ensures multiset(RemoveFirst(s, id)) == multiset(s) - multiset{id}
  {
    assert s == [s[0]] + s[1..];
    if s[0] != id {
      RemoveFirstTakesOne(s[1..], id);
    }
  }

  /** While paused an open queue hands out nothing and offers no token; resuming it lets both go on, with its jobs as
      they were. */
  lemma PausedThenResumed(q: QueueState, id: string, priority: Priority, ids: seq<string>)
    requires q.paused && !q.closed
    ensures Take(q).1 == MustWait && Enqueued(q, id, priority).tokens == q.tokens && Reordered(q, ids).tokens == q.tokens
    ensures
      var r := Resumed(q);
      && !r.paused && r.normal == q.normal && r.batch == q.batch
      && (r.Queued() > 0 ==> Take(r).1 == Job((q.normal + q.batch)[0]))
      && (q.waiters > 0 && q.Queued() > 0 ==> r.tokens > 0)
      && q.tokens <= r.tokens <= q.tokens + Max(q.waiters, 0)
  {}

  /** A closed queue keeps its jobs, refuses everything and tells every dequeuer so. */
  lemma ClosedKeeps(q: QueueState, id: string, priority: Priority, ids: seq<string>)
    requires q.closed && id != ""
    ensures Enqueued(q, id, priority) == Removed(q, id) == Reordered(q, ids) == Resumed(q) == q
    ensures RemoveFault(q, id) == ReorderFault(q, ids) == Some(QueueClosed) && Take(q) == (q, Closed)
  {}

  lemma DistinctMultiset(s: seq<string>)
    ensures Distinct(s) <==> forall id :: multiset(s)[id] <= 1
  {
    if Distinct(s) {
      DistinctCounts(s);
    } else {
      var i, j :| 0 <= i < j < |s| && s[i] == s[j];
      assert s == s[..j] + s[j..];
      assert s[i] in multiset(s[..j]) && s[j] in multiset(s[j..]);
      assert multiset(s)[s[i]] >= 2;
    }
  }

  lemma {:induction false} DistinctCounts(s: seq<string>)
    requires Distinct(s)
    ensures forall id :: multiset(s)[id] <= 1
  {
    if s != [] {
      var front, x := s[..|s| - 1], s[|s| - 1];
      DistinctCounts(front);
      assert s == front + [x];
      assert x !in multiset(front);
    }
  }

  /** A multiset inside another of the same size is that multiset. */
  lemma {:induction false} SameSizeSubset(a: multiset<string>, b: multiset<string>)
    requires a <= b && |a| == |b|
    ensures a == b
  {
    assert b == a + (b - a);
    assert |b - a| == 0;
  }

  /** As many distinct ids as a distinct list holds, all taken from it, are that list reordered. */
  lemma DistinctSelection(ids: seq<string>, all: seq<string>)
    requires Distinct(ids) && |ids| == |all|
    requires forall i :: 0 <= i < |ids| ==> ids[i] in all
    ensures multiset(ids) == multiset(all)
  {
    DistinctCounts(ids);
    forall id ensures multiset(ids)[id] <= multiset(all)[id] {
      if id in multiset(ids) {
        assert id in ids;
        assert id in multiset(all);
      }
    }
    SameSizeSubset(multiset(ids), multiset(all));
  }

  lemma TierCounts(q: QueueState, r: QueueState)
    requires multiset(r.normal) + multiset(r.batch) == multiset(q.normal + q.batch)
    requires Distinct(q.normal + q.batch)
    requires (forall x :: x in r.normal ==> x !in q.batch) && (forall x :: x in r.batch ==> x in q.batch)
    ensures multiset(r.normal) == multiset(q.normal) && multiset(r.batch) == multiset(q.batch)
  {
    DistinctCounts(q.normal + q.batch);
    forall id ensures multiset(r.normal)[id] == multiset(q.normal)[id] && multiset(r.batch)[id] == multiset(q.batch)[id] {
      var n, b, rn, rb := multiset(q.normal)[id], multiset(q.batch)[id], multiset(r.normal)[id], multiset(r.batch)[id];
      assert (multiset(r.normal) + multiset(r.batch))[id] == rn + rb;
      assert (multiset(q.normal) + multiset(q.batch))[id] == n + b;
      assert multiset(q.normal + q.batch) == multiset(q.normal) + multiset(q.batch);
      assert n + b == rn + rb <= 1;
      assert id in q.batch <==> b > 0;
      assert id in r.normal <==> rn > 0;
      assert id in r.batch <==> rb > 0;
    }
  }

  /** On a queue of distinct ids, a successful Reorder keeps both tiers' contents exactly when
      its argument repeats no id. The code checks length and membership, not repetition. */
  lemma ReorderKeepsTiersIffDistinct(q: QueueState, ids: seq<string>)
    requires Distinct(q.normal + q.batch) && ReorderFault(q, ids).None?
    ensures
      var r := Reordered(q, ids);
      multiset(r.normal) == multiset(q.normal) && multiset(r.batch) == multiset(q.batch) <==> Distinct(ids)
  {
    var r := Reordered(q, ids);
    var all := q.normal + q.batch;
    AcceptedOrder(q, ids, false);
    TierPartition(ids, q.batch);
    assert multiset(ids) == multiset(r.normal) + multiset(r.batch);
    if Distinct(ids) {
      DistinctSelection(ids, all);
      TierCounts(q, r);
    } else if multiset(r.normal) == multiset(q.normal) && multiset(r.batch) == multiset(q.batch) {
      assert multiset(all) == multiset(ids);
      DistinctMultiset(all);
      DistinctMultiset(ids);
      assert false;
    }
  }

  /** The code's check lets a repeated id through: naming one of two queued jobs twice loses the other. */
  lemma ReorderLosesJob(q: QueueState, kept: string, lost: string)
    requires !q.closed && q.normal == [kept, lost] && q.batch == [] && kept != lost
    ensures ReorderFault(q, [kept, kept]).None?
    ensures Reordered(q, [kept, kept]).normal == [kept, kept] && Reordered(q, [kept, kept]).batch == []
  {
    AcceptedOrder(q, [kept, kept], false);
    assert kept in q.normal;
    assert [kept, kept][..1] == [kept] && [kept][..0] == [];
    assert Tier([kept], q.batch, false) == [kept] && Tier([kept], q.batch, true) == [];
  }
}
