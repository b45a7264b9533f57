/**
  Writers and replay workers interleaved over one queue. A trace lists the steps in the order they take
  effect; a finalize is two steps, because the SQLite queue reads before it commits. The module defines
  the abstract run of a trace and proves that its queue holds exactly the operations nobody has
  superseded or acknowledged.
 */
module QueueProtocol {
  import opened Wrappers
  import opened Contract
  import opened OfflineQueue

  datatype Event =
    | Enqueue(op: QueuedOperation)
    | TakeSnapshot(worker: nat)
    | BeginFinalize(worker: nat, failed: seq<QueuedOperation>)
    | CommitFinalize(worker: nat)
    | Restart

  /** Where a replay worker stands; `takenAt` is the position of its snapshot in the trace. */
  datatype Phase =
    | Replaying(takenAt: nat, snapshot: seq<QueuedOperation>)
    | Finalizing(takenAt: nat, snapshot: seq<QueuedOperation>, failed: seq<QueuedOperation>)

  datatype State = State(pending: seq<QueuedOperation>, workers: map<nat, Phase>)

  predicate Enabled(s: State, e: Event) {
    match e
    case Enqueue(_) => true
    case TakeSnapshot(w) => w !in s.workers
    case BeginFinalize(w, failed) =>
      w in s.workers && s.workers[w].Replaying? && FailedWithin(failed, s.workers[w].snapshot)
    case CommitFinalize(w) => w in s.workers && s.workers[w].Finalizing?
    case Restart => true
  }

  function Step(s: State, e: Event, now: nat): State
    requires Enabled(s, e)
  {
    match e
    case Enqueue(op) => s.(pending := Enqueued(s.pending, op.Core()))
    case TakeSnapshot(w) => s.(workers := s.workers[w := Replaying(now, s.pending)])
    case BeginFinalize(w, failed) =>
      var p := s.workers[w];
      s.(workers := s.workers[w := Finalizing(p.takenAt, p.snapshot, failed)])
    case CommitFinalize(w) =>
      var p := s.workers[w];
      State(Dropping(s.pending, Acknowledged(p.snapshot, p.failed)), s.workers - {w})
    case Restart => s.(workers := map[])
  }

  const EMPTY := State([], map[])

  /** The state after a trace, or nothing when some step was not possible where it happens. */
  function TryRun(tr: seq<Event>): Option<State> {
    if tr == [] then Some(EMPTY)
    else
      var n := |tr| - 1;
      var before := TryRun(tr[..n]);
      if before.Some? && Enabled(before.value, tr[n]) then Some(Step(before.value, tr[n], n)) else None
  }

  predicate Valid(tr: seq<Event>) { TryRun(tr).Some? }

  function Run(tr: seq<Event>): State
    requires Valid(tr)
  {
    TryRun(tr).value
  }

  lemma {:induction false} ValidPrefix(tr: seq<Event>, n: nat)
    requires Valid(tr) && n <= |tr|
    ensures Valid(tr[..n])
  {
    if n < |tr| {
      ValidPrefix(tr[..|tr| - 1], n);
      assert tr[..|tr| - 1][..n] == tr[..n];
    } else {
      assert tr[..n] == tr;
    }
  }

  // ---------------------------------------------------------------- assumptions on the stamps

  /** No two enqueues of one row carry the same stamp. */
  predicate FreshStamps(tr: seq<Event>) {
    forall i, j :: 0 <= i < j < |tr| && tr[i].Enqueue? && tr[j].Enqueue?
                   ==> tr[i].op.ToContract() != tr[j].op.ToContract()
  }

  predicate IncreasingStamps(tr: seq<Event>) {
    forall i, j :: 0 <= i < j < |tr| && tr[i].Enqueue? && tr[j].Enqueue?
                   ==> tr[i].op.queuedAtMicros < tr[j].op.queuedAtMicros
  }

  /** Whether the open replay at `p` may still drop whatever is queued under this row and stamp. */
  predicate Endangers(p: Phase, c: ContractOperation) {
    match p
    case Replaying(_, snapshot) => c in Contracts(snapshot)
    case Finalizing(_, snapshot, failed) => c in Acknowledged(snapshot, failed)
  }

  predicate EnqueueIsSafe(s: State, op: QueuedOperation) {
    forall w :: w in s.workers ==> !Endangers(s.workers[w], op.ToContract())
  }

  /** No enqueue meets an open replay that may drop its row and stamp. */
  predicate EnqueuesAreSafe(tr: seq<Event>)
    requires Valid(tr)
  {
    forall i :: 0 <= i < |tr| && tr[i].Enqueue? ==> (ValidPrefix(tr, i); EnqueueIsSafe(Run(tr[..i]), tr[i].op))
  }

  lemma SafeInPrefix(tr: seq<Event>)
    requires Valid(tr) && EnqueuesAreSafe(tr) && tr != []
    ensures Valid(tr[..|tr| - 1]) && EnqueuesAreSafe(tr[..|tr| - 1])
    ensures tr[|tr| - 1].Enqueue? ==> EnqueueIsSafe(Run(tr[..|tr| - 1]), tr[|tr| - 1].op)
  {
    var n := |tr| - 1;
    forall i | 0 <= i < n && tr[..n][i].Enqueue?
      ensures Valid(tr[..n][..i]) && EnqueueIsSafe(Run(tr[..n][..i]), tr[i].op)
    {
      ValidPrefix(tr, i);
      assert tr[..n][..i] == tr[..i];
    }
  }

  // ---------------------------------------------------------------- the fate of an operation

  predicate Superseded(tr: seq<Event>, i: nat, j: nat) {
    i < j < |tr| && tr[i].Enqueue? && tr[j].Enqueue? && tr[i].op.Key() == tr[j].op.Key()
  }

  /** Step j finalizes a snapshot that was taken after step i, held i's operation, and did not fail it. */
  predicate AcknowledgedBy(tr: seq<Event>, i: nat, j: nat)
    requires Valid(tr)
  {
    && i < j < |tr| && tr[i].Enqueue? && tr[j].CommitFinalize?
    && (ValidPrefix(tr, j);
        var s := Run(tr[..j]);
        var w := tr[j].worker;
        && w in s.workers && s.workers[w].Finalizing? && i < s.workers[w].takenAt
        && tr[i].op.ToContract() in Acknowledged(s.workers[w].snapshot, s.workers[w].failed))
  }

  ghost predicate Outstanding(tr: seq<Event>, i: nat)
    requires Valid(tr)
  {
    && i < |tr| && tr[i].Enqueue?
    && (forall j :: !Superseded(tr, i, j))
    && (forall j :: !AcknowledgedBy(tr, i, j))
  }

  // ---------------------------------------------------------------- invariants of every run

  predicate WorkersSound(s: State) {
    forall w :: w in s.workers ==>
      && UniquelyKeyed(s.workers[w].snapshot)
      && (s.workers[w].Finalizing? ==> FailedWithin(s.workers[w].failed, s.workers[w].snapshot))
  }

  lemma {:induction false} RunIsSound(tr: seq<Event>)
    requires Valid(tr)
    ensures UniquelyKeyed(Run(tr).pending) && WorkersSound(Run(tr))
  {
    if tr != [] {
      var n := |tr| - 1;
      RunIsSound(tr[..n]);
      var s := Run(tr[..n]);
      match tr[n]
      case Enqueue(op) => WithoutKeepsOrder(s.pending, op.Key());
      case CommitFinalize(w) =>
        DroppingKeepsOrder(s.pending, Acknowledged(s.workers[w].snapshot, s.workers[w].failed));
      case _ =>
    }
  }

  predicate EnqueuedBefore(tr: seq<Event>, n: nat, op: QueuedOperation) {
    exists i :: 0 <= i < n <= |tr| && tr[i].Enqueue? && tr[i].op.Core() == op
  }

  lemma EnqueuedBeforeExtends(tr: seq<Event>, m: nat, n: nat)
    requires m <= n <= |tr|
    ensures forall op :: EnqueuedBefore(tr[..n], m, op) ==> EnqueuedBefore(tr, m, op)
    ensures forall op :: EnqueuedBefore(tr[..n], n, op) ==> EnqueuedBefore(tr, |tr|, op)
  {
    forall op | EnqueuedBefore(tr[..n], m, op) ensures EnqueuedBefore(tr, m, op) {
      var i :| 0 <= i < m && tr[..n][i].Enqueue? && tr[..n][i].op.Core() == op;
      assert tr[i].Enqueue?;
    }
    forall op | EnqueuedBefore(tr[..n], n, op) ensures EnqueuedBefore(tr, |tr|, op) {
      var i :| 0 <= i < n && tr[..n][i].Enqueue? && tr[..n][i].op.Core() == op;
      assert tr[i].Enqueue?;
    }
  }

  /** Whatever is queued or snapshotted was enqueued, and enqueued before the snapshot was taken. */
  lemma {:induction false} EverythingWasEnqueued(tr: seq<Event>)
    requires Valid(tr)
    ensures forall op :: op in Run(tr).pending ==> EnqueuedBefore(tr, |tr|, op)
    ensures forall w :: w in Run(tr).workers ==>
              && Run(tr).workers[w].takenAt <= |tr|
              && forall op :: op in Run(tr).workers[w].snapshot ==>
                   EnqueuedBefore(tr, Run(tr).workers[w].takenAt, op)
  {
    if tr != [] {
      var n := |tr| - 1;
      var s := Run(tr[..n]);
      EverythingWasEnqueued(tr[..n]);
      EnqueuedBeforeExtends(tr, n, n);
      forall op | op in Run(tr).pending ensures EnqueuedBefore(tr, |tr|, op) {
        if op !in s.pending {
          assert tr[n].Enqueue? && tr[n].op.Core() == op;
        }
      }
      forall w, op | w in Run(tr).workers && op in Run(tr).workers[w].snapshot
        ensures Run(tr).workers[w].takenAt <= n
        ensures EnqueuedBefore(tr, Run(tr).workers[w].takenAt, op)
      {
        if w in s.workers && s.workers[w].takenAt == Run(tr).workers[w].takenAt {
          EnqueuedBeforeExtends(tr, s.workers[w].takenAt, n);
        }
      }
    }
  }

  // ---------------------------------------------------------------- nothing is lost

  lemma SameFateInPrefix(tr: seq<Event>, i: nat, j: nat)
    requires Valid(tr) && j < |tr| - 1
    ensures Valid(tr[..|tr| - 1])
    ensures Superseded(tr, i, j) <==> Superseded(tr[..|tr| - 1], i, j)
    ensures AcknowledgedBy(tr, i, j) <==> AcknowledgedBy(tr[..|tr| - 1], i, j)
  {
    assert tr[..|tr| - 1][..j] == tr[..j];
  }

  /** Only the last step can newly settle an operation. */
  lemma FateOfLastStep(tr: seq<Event>, i: nat)
    requires Valid(tr) && i < |tr| - 1
    ensures Valid(tr[..|tr| - 1])
    ensures Outstanding(tr, i) <==>
              && Outstanding(tr[..|tr| - 1], i)
              && !Superseded(tr, i, |tr| - 1)
              && !AcknowledgedBy(tr, i, |tr| - 1)
  {
    var n := |tr| - 1;
    forall j: nat | j < n
      ensures Superseded(tr, i, j) <==> Superseded(tr[..n], i, j)
      ensures AcknowledgedBy(tr, i, j) <==> AcknowledgedBy(tr[..n], i, j)
    {
      SameFateInPrefix(tr, i, j);
    }
    assert forall j: nat :: j >= n ==> !Superseded(tr[..n], i, j) && !AcknowledgedBy(tr[..n], i, j);
    assert forall j: nat :: j > n ==> !Superseded(tr, i, j) && !AcknowledgedBy(tr, i, j);
  }

  ghost predicate HasOutstanding(tr: seq<Event>, op: QueuedOperation)
    requires Valid(tr)
  {
    exists i: nat :: Outstanding(tr, i) && tr[i].op.Core() == op
  }

  ghost predicate HoldsExactlyTheOutstanding(tr: seq<Event>)
    requires Valid(tr)
  {
    forall op :: op in Run(tr).pending <==> HasOutstanding(tr, op)
  }

  lemma OpenBeforeStep(s: State, e: Event, now: nat, w: nat)
    requires Enabled(s, e) && w in Step(s, e, now).workers && Step(s, e, now).workers[w].takenAt != now
    ensures w in s.workers
    ensures var before, after := s.workers[w], Step(s, e, now).workers[w];
            && before.snapshot == after.snapshot && before.takenAt == after.takenAt
            && (before.Finalizing? ==> before == after)
  {
  }

  /** A worker that is open now has been open since it took its snapshot. */
  lemma {:induction false} OpenSinceItsSnapshot(tr: seq<Event>, i: nat, w: nat)
    requires Valid(tr) && i <= |tr| && w in Run(tr).workers && Run(tr).workers[w].takenAt < i
    ensures Valid(tr[..i]) && w in Run(tr[..i]).workers
    ensures var before, now := Run(tr[..i]).workers[w], Run(tr).workers[w];
            before.snapshot == now.snapshot && before.takenAt == now.takenAt && (before.Finalizing? ==> before == now)
  {
    ValidPrefix(tr, i);
    if i < |tr| {
      var n := |tr| - 1;
      OpenBeforeStep(Run(tr[..n]), tr[n], n, w);
      assert tr[..n][..i] == tr[..i];
      OpenSinceItsSnapshot(tr[..n], i, w);
    } else {
      assert tr[..i] == tr;
    }
  }

  lemma SnapshotsLieBehind(tr: seq<Event>, w: nat)
    requires Valid(tr) && w in Run(tr).workers
    ensures Run(tr).workers[w].takenAt < |tr| && tr[Run(tr).workers[w].takenAt] == TakeSnapshot(w)
  {
    var n := |tr| - 1;
    if !(tr[n].TakeSnapshot? && tr[n].worker == w) {
      SnapshotsLieBehind(tr[..n], w);
    }
  }

  lemma AcknowledgedByLastStep(tr: seq<Event>, i: nat)
    requires Valid(tr) && i < |tr| - 1 && tr[i].Enqueue? && tr[|tr| - 1].CommitFinalize?
    ensures Valid(tr[..|tr| - 1]) && Enabled(Run(tr[..|tr| - 1]), tr[|tr| - 1])
    ensures var p := Run(tr[..|tr| - 1]).workers[tr[|tr| - 1].worker];
            AcknowledgedBy(tr, i, |tr| - 1)
            <==> i < p.takenAt && tr[i].op.ToContract() in Acknowledged(p.snapshot, p.failed)
  {
  }

  /** An acknowledgement comes from a snapshot taken after the enqueue, because that enqueue was safe. */
  lemma AcknowledgementFollowsEnqueue(tr: seq<Event>, i: nat)
    requires Valid(tr) && EnqueuesAreSafe(tr) && i < |tr| - 1 && tr[i].Enqueue? && tr[|tr| - 1].CommitFinalize?
    ensures Valid(tr[..|tr| - 1])
    ensures var s := Run(tr[..|tr| - 1]);
            var p := s.workers[tr[|tr| - 1].worker];
            tr[i].op.ToContract() in Acknowledged(p.snapshot, p.failed) <==> AcknowledgedBy(tr, i, |tr| - 1)
  {
    var n := |tr| - 1;
    var w := tr[n].worker;
    AcknowledgedByLastStep(tr, i);
    var p := Run(tr[..n]).workers[w];
    SnapshotsLieBehind(tr[..n], w);
    assert tr[..n][p.takenAt] == tr[p.takenAt];
    if p.takenAt < i {
      SafeEnqueueIsNotAcknowledged(tr, i, n, w);
    }
  }

  lemma SafeEnqueueIsNotAcknowledged(tr: seq<Event>, i: nat, n: nat, w: nat)
    requires Valid(tr) && EnqueuesAreSafe(tr) && i < n <= |tr| && tr[i].Enqueue? && Valid(tr[..n])
    requires w in Run(tr[..n]).workers && Run(tr[..n]).workers[w].Finalizing? && Run(tr[..n]).workers[w].takenAt < i
    ensures var p := Run(tr[..n]).workers[w]; tr[i].op.ToContract() !in Acknowledged(p.snapshot, p.failed)
  {
    ValidPrefix(tr, i);
    OpenSinceItsSnapshot(tr[..n], i, w);
    assert tr[..n][..i] == tr[..i];
    assert EnqueueIsSafe(Run(tr[..i]), tr[i].op);
  }

  lemma OutstandingAfterStep(tr: seq<Event>, op: QueuedOperation)
    requires Valid(tr) && EnqueuesAreSafe(tr) && tr != []
    requires Valid(tr[..|tr| - 1])
    requires HoldsExactlyTheOutstanding(tr[..|tr| - 1])
    requires op in Run(tr).pending
    ensures HasOutstanding(tr, op)
  {
    var n := |tr| - 1;
    if tr[n].Enqueue? && tr[n].op.Core() == op {
      assert Outstanding(tr, n);
    } else {
      assert op in Run(tr[..n]).pending;
      assert HasOutstanding(tr[..n], op);
      var i: nat :| Outstanding(tr[..n], i) && tr[..n][i].op.Core() == op;
      FateOfLastStep(tr, i);
      if tr[n].CommitFinalize? {
        AcknowledgementFollowsEnqueue(tr, i);
      }
      assert Outstanding(tr, i);
    }
  }

  lemma StillPendingAfterStep(tr: seq<Event>, i: nat)
    requires Valid(tr) && EnqueuesAreSafe(tr) && tr != []
    requires Valid(tr[..|tr| - 1])
    requires HoldsExactlyTheOutstanding(tr[..|tr| - 1])
    requires Outstanding(tr, i)
    ensures tr[i].op.Core() in Run(tr).pending
  {
    var n := |tr| - 1;
    if i < n {
      FateOfLastStep(tr, i);
      assert HasOutstanding(tr[..n], tr[i].op.Core()) by {
        assert tr[..n][i] == tr[i];
      }
      if tr[n].CommitFinalize? {
        AcknowledgementFollowsEnqueue(tr, i);
      }
    }
  }

  /**
    The queue's promise over whole runs. With any number of overlapping replays, an operation is in the
    queue exactly when it was enqueued, no later enqueue replaced it, and no finalize acknowledged it,
    provided no enqueue met an open replay of its own row and stamp.
   */
  lemma {:induction false} QueueHoldsExactlyTheOutstanding(tr: seq<Event>)
    requires Valid(tr) && EnqueuesAreSafe(tr)
    ensures HoldsExactlyTheOutstanding(tr)
  {
    if tr == [] {
      assert forall i: nat :: !Outstanding(tr, i);
    } else {
      var n := |tr| - 1;
      SafeInPrefix(tr);
      QueueHoldsExactlyTheOutstanding(tr[..n]);
      forall op ensures op in Run(tr).pending <==> HasOutstanding(tr, op) {
        if op in Run(tr).pending {
          OutstandingAfterStep(tr, op);
        }
        if HasOutstanding(tr, op) {
          var i: nat :| Outstanding(tr, i) && tr[i].op.Core() == op;
          StillPendingAfterStep(tr, i);
        }
      }
    }
  }

  /** Read per operation: still queued, or superseded, or acknowledged. */
  lemma NoOperationIsLost(tr: seq<Event>, i: nat)
    requires Valid(tr) && EnqueuesAreSafe(tr) && i < |tr| && tr[i].Enqueue?
    ensures || tr[i].op.Core() in Run(tr).pending
            || (exists j :: Superseded(tr, i, j))
            || (exists j :: AcknowledgedBy(tr, i, j))
  {
    QueueHoldsExactlyTheOutstanding(tr);
    if (forall j :: !Superseded(tr, i, j)) && (forall j :: !AcknowledgedBy(tr, i, j)) {
      assert Outstanding(tr, i);
    }
  }

  lemma PendingStampsAreSmaller(tr: seq<Event>)
    requires Valid(tr) && IncreasingStamps(tr) && tr != [] && tr[|tr| - 1].Enqueue?
    ensures Valid(tr[..|tr| - 1])
    ensures forall op :: op in Run(tr[..|tr| - 1]).pending ==> op.queuedAtMicros < tr[|tr| - 1].op.queuedAtMicros
  {
    var n := |tr| - 1;
    EverythingWasEnqueued(tr[..n]);
    forall op | op in Run(tr[..n]).pending ensures op.queuedAtMicros < tr[n].op.queuedAtMicros {
      var i :| 0 <= i < n && tr[..n][i].Enqueue? && tr[..n][i].op.Core() == op;
      assert tr[i].op.queuedAtMicros < tr[n].op.queuedAtMicros;
    }
  }

  /** Under increasing stamps the queue is in stamp order. */
  lemma {:induction false} PendingIsInStampOrder(tr: seq<Event>)
    requires Valid(tr) && IncreasingStamps(tr)
    ensures StrictlyStamped(Run(tr).pending)
  {
    if tr != [] {
      var n := |tr| - 1;
      var s := Run(tr[..n]);
      PendingIsInStampOrder(tr[..n]);
      match tr[n]
      case Enqueue(op) =>
        WithoutKeepsOrder(s.pending, op.Key());
        PendingStampsAreSmaller(tr);
        var rest := Without(s.pending, op.Key());
        forall k | 0 <= k < |rest| ensures rest[k].queuedAtMicros < op.queuedAtMicros {
          assert rest[k] in s.pending;
        }
      case CommitFinalize(w) =>
        DroppingKeepsOrder(s.pending, Acknowledged(s.workers[w].snapshot, s.workers[w].failed));
      case _ =>
    }
  }

  // ---------------------------------------------------------------- stamps that make enqueues safe

  /** With fresh stamps every enqueue is safe. */
  lemma FreshStampsAreSafe(tr: seq<Event>)
    requires Valid(tr) && FreshStamps(tr)
    ensures EnqueuesAreSafe(tr)
  {
    forall i | 0 <= i < |tr| && tr[i].Enqueue? ensures Valid(tr[..i]) && EnqueueIsSafe(Run(tr[..i]), tr[i].op) {
      ValidPrefix(tr, i);
      var s := Run(tr[..i]);
      EverythingWasEnqueued(tr[..i]);
      forall w, op | w in s.workers && op in s.workers[w].snapshot
        ensures op.ToContract() != tr[i].op.ToContract()
      {
        var k :| 0 <= k < s.workers[w].takenAt && tr[..i][k].Enqueue? && tr[..i][k].op.Core() == op;
        assert op.ToContract() == tr[k].op.ToContract();
      }
    }
  }

  /** The stamp of the last enqueue, if any. */
  function LastStamp(tr: seq<Event>): Option<int> {
    if tr == [] then None
    else if tr[|tr| - 1].Enqueue? then Some(tr[|tr| - 1].op.queuedAtMicros)
    else LastStamp(tr[..|tr| - 1])
  }

  /** Every enqueue at step i is stamped from the clock reading at i and the stamp before it. */
  predicate StampedMonotonically(tr: seq<Event>, readings: seq<int>)
    requires |readings| == |tr|
  {
    forall i :: 0 <= i < |tr| && tr[i].Enqueue?
                ==> tr[i].op.queuedAtMicros == NextQueuedAtMicros(LastStamp(tr[..i]), readings[i])
  }

  lemma {:induction false} LastStampIsLargest(tr: seq<Event>, readings: seq<int>)
    requires |readings| == |tr| && StampedMonotonically(tr, readings)
    ensures IncreasingStamps(tr)
    ensures forall i :: 0 <= i < |tr| && tr[i].Enqueue? ==>
              LastStamp(tr).Some? && tr[i].op.queuedAtMicros <= LastStamp(tr).value
  {
    if tr != [] {
      var n := |tr| - 1;
      forall i | 0 <= i < n && tr[..n][i].Enqueue?
        ensures tr[i].op.queuedAtMicros == NextQueuedAtMicros(LastStamp(tr[..n][..i]), readings[..n][i])
      {
        assert tr[..n][..i] == tr[..i];
      }
      LastStampIsLargest(tr[..n], readings[..n]);
      assert forall i :: 0 <= i < n ==> tr[..n][i] == tr[i];
    }
  }

  /**
    Stamping each enqueue with the contract's monotonic rule makes stamps increase whatever the clock reads,
    backwards jumps included, so nothing is lost and the queue is in stamp order.
   */
  lemma MonotonicStampsAreSafe(tr: seq<Event>, readings: seq<int>)
    requires Valid(tr) && |readings| == |tr| && StampedMonotonically(tr, readings)
    ensures IncreasingStamps(tr) && FreshStamps(tr) && EnqueuesAreSafe(tr)
    ensures HoldsExactlyTheOutstanding(tr) && StrictlyStamped(Run(tr).pending)
  {
    LastStampIsLargest(tr, readings);
    FreshStampsAreSafe(tr);
    QueueHoldsExactlyTheOutstanding(tr);
    PendingIsInStampOrder(tr);
  }

  // ---------------------------------------------------------------- what a repeated stamp costs

  /** The ways an open replay can finish: a list of failures not yet chosen is still free. */
  predicate CanFinishWith(p: Phase, failed: seq<QueuedOperation>) {
    match p
    case Replaying(_, snapshot) => FailedWithin(failed, snapshot)
    case Finalizing(_, _, chosen) => failed == chosen
  }

  function Finish(p: Phase, w: nat, failed: seq<QueuedOperation>): seq<Event> {
    if p.Replaying? then [BeginFinalize(w, failed), CommitFinalize(w)] else [CommitFinalize(w)]
  }

  /** The queue after an enqueue that is followed by one open replay running to its end. */
  lemma FinishDropsAcknowledged(tr: seq<Event>, op: QueuedOperation, w: nat, failed: seq<QueuedOperation>)
    requires Valid(tr) && w in Run(tr).workers && CanFinishWith(Run(tr).workers[w], failed)
    ensures var p := Run(tr).workers[w];
            var end := (tr + [Enqueue(op)]) + Finish(p, w, failed);
            && Valid(end)
            && Run(end).pending == Dropping(Enqueued(Run(tr).pending, op.Core()), Acknowledged(p.snapshot, failed))
  {
    var p := Run(tr).workers[w];
    var mid := tr + [Enqueue(op)];
    RunExtends(tr, Enqueue(op));
    if p.Replaying? {
      RunExtends(mid, BeginFinalize(w, failed));
      RunExtends(mid + [BeginFinalize(w, failed)], CommitFinalize(w));
      assert mid + Finish(p, w, failed) == (mid + [BeginFinalize(w, failed)]) + [CommitFinalize(w)];
    } else {
      RunExtends(mid, CommitFinalize(w));
    }
  }

  /**
    The coordinator stamps with the raw clock, so safety of an enqueue is an assumption. In a reachable state
    an enqueued operation outlives every way in which an open replay can finish exactly when the enqueue is
    safe: no replay still running holds its row and stamp, and no finalize under way has acknowledged them.
   */
  lemma EnqueueIsSafeIff(tr: seq<Event>, op: QueuedOperation)
    requires Valid(tr)
    ensures (forall w, failed :: w in Run(tr).workers && CanFinishWith(Run(tr).workers[w], failed)
               ==> var end := (tr + [Enqueue(op)]) + Finish(Run(tr).workers[w], w, failed);
                   Valid(end) && op.Core() in Run(end).pending)
            <==> EnqueueIsSafe(Run(tr), op)
  {
    var s := Run(tr);
    forall w, failed | w in s.workers && CanFinishWith(s.workers[w], failed)
      ensures var end := (tr + [Enqueue(op)]) + Finish(s.workers[w], w, failed);
              && Valid(end)
              && (op.Core() in Run(end).pending <==> op.ToContract() !in Acknowledged(s.workers[w].snapshot, failed))
    {
      FinishDropsAcknowledged(tr, op, w, failed);
    }
    if w :| w in s.workers && Endangers(s.workers[w], op.ToContract()) {
      var p := s.workers[w];
      var failed := if p.Replaying? then [] else p.failed;
      assert Contracts([]) == [];
      assert CanFinishWith(p, failed) && op.ToContract() in Acknowledged(p.snapshot, failed);
    }
  }

  /** A row is enqueued, snapshotted, and enqueued again with the same stamp before the replay finishes. */
  function RepeatedStamp(first: QueuedOperation, second: QueuedOperation, w: nat): seq<Event> {
    [Enqueue(first), TakeSnapshot(w), Enqueue(second)] + [BeginFinalize(w, []), CommitFinalize(w)]
  }

  lemma RepeatedStampIsQueued(tr: seq<Event>, first: QueuedOperation, second: QueuedOperation, w: nat)
    requires Valid(tr) && w !in Run(tr).workers && first.ToContract() == second.ToContract()
    ensures var end := tr + [Enqueue(first), TakeSnapshot(w), Enqueue(second)];
            && Valid(end) && w in Run(end).workers
            && Run(end).workers[w] == Replaying(|tr| + 1, Enqueued(Run(tr).pending, first.Core()))
            && second.Core() in Run(end).pending
            && forall op :: op in Run(end).pending && op.Key() == second.Key() ==> op == second.Core()
  {
    var t1 := tr + [Enqueue(first)];
    var t2 := t1 + [TakeSnapshot(w)];
    RunExtends(tr, Enqueue(first));
    RunExtends(t1, TakeSnapshot(w));
    RunExtends(t2, Enqueue(second));
    assert tr + [Enqueue(first), TakeSnapshot(w), Enqueue(second)] == t2 + [Enqueue(second)];
  }

  /**
    In any reachable state, repeating a stamp can lose a write: its row ends up not queued at all, although the
    write was neither superseded nor acknowledged.
   */
  lemma RepeatedStampLosesAnOperation(tr: seq<Event>, first: QueuedOperation, second: QueuedOperation, w: nat)
    requires Valid(tr) && w !in Run(tr).workers && first.ToContract() == second.ToContract()
    ensures var end, i := tr + RepeatedStamp(first, second, w), |tr| + 2;
            && Valid(end) && end[i] == Enqueue(second)
            && (forall op :: op in Run(end).pending ==> op.Key() != second.Key())
            && (forall j :: !Superseded(end, i, j)) && (forall j :: !AcknowledgedBy(end, i, j))
  {
    var t3 := tr + [Enqueue(first), TakeSnapshot(w), Enqueue(second)];
    var t4 := t3 + [BeginFinalize(w, [])];
    var t5 := t4 + [CommitFinalize(w)];
    RepeatedStampIsQueued(tr, first, second, w);
    assert Contracts([]) == [];
    RunExtends(t3, BeginFinalize(w, []));
    RunExtends(t4, CommitFinalize(w));
    assert tr + RepeatedStamp(first, second, w) == t5;
    assert t5[..|t4|] == t4;
    SnapshotHoldsContract(Enqueued(Run(tr).pending, first.Core()), first.Core());
  }

  lemma SnapshotHoldsContract(snapshot: seq<QueuedOperation>, op: QueuedOperation)
    requires op in snapshot
    ensures op.ToContract() in Acknowledged(snapshot, [])
  {
    var i :| 0 <= i < |snapshot| && snapshot[i] == op;
    assert Contracts(snapshot)[i] == op.ToContract() && Contracts([]) == [];
  }

  lemma RunExtends(tr: seq<Event>, e: Event)
    requires Valid(tr) && Enabled(Run(tr), e)
    ensures Valid(tr + [e]) && Run(tr + [e]) == Step(Run(tr), e, |tr|)
  {
    assert (tr + [e])[..|tr|] == tr;
  }
}
