/**
  One queue between two sides: calls put into it what they could not send, and replays take out of it. A run
  interleaves the steps of any number of calls with those of any number of replays, and the module follows a
  change from its mirror write until the server has it. After a restart the calls under way just stop; that a
  run may also let them go on only makes the statements cover more.
 */
module WriteFate {
  import opened Wrappers
  import opened Contract
  import opened OfflineQueue
  import Coordinator
  import QueueProtocol

  /** A step of a call, or a step of the queue that no call takes: a replay's, or a restart. */
  datatype Step = ByCall(call: Coordinator.Event) | ByReplay(replay: QueueProtocol.Event)

  function CallsOf(steps: seq<Step>): seq<Coordinator.Event> {
    if steps == [] then []
    else
      var n := |steps| - 1;
      CallsOf(steps[..n]) + if steps[n].ByCall? then [steps[n].call] else []
  }

  /** What a call's step puts into the queue after the calls so far, if anything. */
  function Stored(calls: seq<Coordinator.Event>, e: Coordinator.Event): Option<QueuedOperation> {
    if Coordinator.Valid(calls) && Coordinator.Can(Coordinator.Run(calls), e) && e.Queue? && !e.answer.NotStored?
    then Some(Coordinator.Run(calls).calls[e.call].stage.op)
    else None
  }

  function QueueStepsOf(calls: seq<Coordinator.Event>, step: Step): seq<QueueProtocol.Event> {
    match step
    case ByReplay(e) => [e]
    case ByCall(e) => if Stored(calls, e).Some? then [QueueProtocol.Enqueue(Stored(calls, e).value)] else []
  }

  /** The run as the queue sees it: an enqueue for each operation a call stored, and the replays' steps. */
  function QueueOf(steps: seq<Step>): seq<QueueProtocol.Event> {
    if steps == [] then []
    else
      var n := |steps| - 1;
      QueueOf(steps[..n]) + QueueStepsOf(CallsOf(steps[..n]), steps[n])
  }

  predicate Valid(steps: seq<Step>) {
    && Coordinator.Valid(CallsOf(steps))
    && QueueProtocol.Valid(QueueOf(steps))
    && forall k :: 0 <= k < |steps| && steps[k].ByReplay? ==> !steps[k].replay.Enqueue?
  }

  lemma ValidPrefix(steps: seq<Step>)
    requires Valid(steps) && steps != []
    ensures Valid(steps[..|steps| - 1])
    ensures steps[|steps| - 1].ByCall? ==>
              Coordinator.Can(Coordinator.Run(CallsOf(steps[..|steps| - 1])), steps[|steps| - 1].call)
  {
    var n := |steps| - 1;
    Coordinator.ValidPrefix(CallsOf(steps), |CallsOf(steps[..n])|);
    QueueProtocol.ValidPrefix(QueueOf(steps), |QueueOf(steps[..n])|);
    assert CallsOf(steps)[..|CallsOf(steps[..n])|] == CallsOf(steps[..n]);
    assert QueueOf(steps)[..|QueueOf(steps[..n])|] == QueueOf(steps[..n]);
  }

  // ---------------------------------------------------------------- enqueues and the calls behind them

  /** How many steps of calls lie before step i of the queue; for an enqueue, its own call's step. */
  function Source(steps: seq<Step>, i: nat): (k: nat)
    requires i < |QueueOf(steps)|
    ensures k <= |CallsOf(steps)|
  {
    var n := |steps| - 1;
    if i < |QueueOf(steps[..n])| then Source(steps[..n], i) else |CallsOf(steps[..n])|
  }

  lemma QueuedAtStays(steps: seq<Step>, k: nat)
    requires Valid(steps) && steps != [] && k < |CallsOf(steps[..|steps| - 1])|
    ensures Valid(steps[..|steps| - 1])
    ensures Coordinator.QueuedAt(CallsOf(steps), k)
            == Coordinator.QueuedAt(CallsOf(steps[..|steps| - 1]), k)
  {
    var n := |steps| - 1;
    ValidPrefix(steps);
    if steps[n].ByCall? {
      QueuedAtBeforeLast(CallsOf(steps[..n]), steps[n].call, k);
    } else {
      assert CallsOf(steps) == CallsOf(steps[..n]);
    }
  }

  lemma QueuedAtBeforeLast(calls: seq<Coordinator.Event>, e: Coordinator.Event, k: nat)
    requires Coordinator.Valid(calls + [e]) && k < |calls|
    ensures Coordinator.Valid(calls)
    ensures Coordinator.QueuedAt(calls + [e], k) == Coordinator.QueuedAt(calls, k)
  {
    assert (calls + [e])[..|calls + [e]| - 1] == calls;
    Coordinator.QueuedAtInPrefix(calls + [e], k);
  }

  lemma LastCallStores(steps: seq<Step>)
    requires Valid(steps) && steps != [] && steps[|steps| - 1].ByCall?
    ensures var calls := CallsOf(steps[..|steps| - 1]);
            && |calls| == |CallsOf(steps)| - 1
            && Coordinator.QueuedAt(CallsOf(steps), |calls|) == Stored(calls, steps[|steps| - 1].call)
  {
    ValidPrefix(steps);
    assert CallsOf(steps)[..|CallsOf(steps)| - 1] == CallsOf(steps[..|steps| - 1]);
  }

  /** Every enqueue is one call's queueing step. */
  lemma {:induction false} EnqueueHasASource(steps: seq<Step>, i: nat)
    requires Valid(steps) && i < |QueueOf(steps)| && QueueOf(steps)[i].Enqueue?
    ensures Source(steps, i) < |CallsOf(steps)|
    ensures Coordinator.QueuedAt(CallsOf(steps), Source(steps, i)) == Some(QueueOf(steps)[i].op)
  {
    var n := |steps| - 1;
    ValidPrefix(steps);
    if i < |QueueOf(steps[..n])| {
      EnqueueHasASource(steps[..n], i);
      QueuedAtStays(steps, Source(steps, i));
    } else {
      LastCallStores(steps);
    }
  }

  /** And every queueing step is one enqueue. */
  lemma {:induction false} SourceHasAnEnqueue(steps: seq<Step>, k: nat) returns (i: nat)
    requires Valid(steps) && k < |CallsOf(steps)| && Coordinator.QueuedAt(CallsOf(steps), k).Some?
    ensures i < |QueueOf(steps)| && Source(steps, i) == k
    ensures QueueOf(steps)[i] == QueueProtocol.Enqueue(Coordinator.QueuedAt(CallsOf(steps), k).value)
  {
    var n := |steps| - 1;
    ValidPrefix(steps);
    if k < |CallsOf(steps[..n])| {
      QueuedAtStays(steps, k);
      i := SourceHasAnEnqueue(steps[..n], k);
    } else {
      LastCallStores(steps);
      i := |QueueOf(steps[..n])|;
    }
  }

  /** Enqueues come in the order of the calls' steps behind them. */
  lemma {:induction false} SourcesInOrder(steps: seq<Step>, i: nat, j: nat)
    requires Valid(steps) && i < j < |QueueOf(steps)| && QueueOf(steps)[i].Enqueue?
    ensures Source(steps, i) < Source(steps, j)
  {
    var n := |steps| - 1;
    ValidPrefix(steps);
    if j < |QueueOf(steps[..n])| {
      SourcesInOrder(steps[..n], i, j);
    } else {
      EnqueueHasASource(steps[..n], i);
    }
  }

  // ---------------------------------------------------------------- what becomes of a write

  /** `e` is an enqueue of this change. */
  predicate Enqueues(e: QueueProtocol.Event, change: Coordinator.Change) {
    e.Enqueue? && e.op.Key() == change.key && e.op.kind == change.kind
  }

  /** The last step of a call that returned success, and the enqueue it stands for unless it is a delivery. */
  lemma SuccessIsDeliveredOrEnqueued(steps: seq<Step>, begin: nat) returns (last: nat, i: nat)
    requires Valid(steps) && begin < |CallsOf(steps)| && CallsOf(steps)[begin].Begin?
    requires Coordinator.IsAt(Coordinator.Run(CallsOf(steps)), CallsOf(steps)[begin].call, Coordinator.Done(true))
    ensures last < |CallsOf(steps)| && CallsOf(steps)[last].call == CallsOf(steps)[begin].call
    ensures if CallsOf(steps)[last].Receive? then CallsOf(steps)[last].fate.Delivered?
            else
              && i < |QueueOf(steps)| && Source(steps, i) == last && CallsOf(steps)[last].Queue?
              && Enqueues(QueueOf(steps)[i], CallsOf(steps)[begin].change)
  {
    var calls := CallsOf(steps);
    last := Coordinator.CallSucceedsIff(calls, calls[begin].call);
    i := 0;
    if !calls[last].Receive? {
      assert Coordinator.QueuedAt(calls, last).Some?;
      i := SourceHasAnEnqueue(steps, last);
      var b, send, receive := Coordinator.QueueingFollowsAFailedSend(calls, last);
      Coordinator.BegunOnce(calls, b);
    }
  }

  /**
    What a successful call promised: its change was delivered, or was queued and is still queued, or another
    call's later change of the row has taken its place, or a replay has acknowledged it.
   */
  lemma AcceptedWriteIsAccountedFor(steps: seq<Step>, begin: nat) returns (last: nat, i: nat)
    requires Valid(steps) && QueueProtocol.EnqueuesAreSafe(QueueOf(steps))
    requires begin < |CallsOf(steps)| && CallsOf(steps)[begin].Begin?
    requires Coordinator.IsAt(Coordinator.Run(CallsOf(steps)), CallsOf(steps)[begin].call, Coordinator.Done(true))
    ensures last < |CallsOf(steps)| && CallsOf(steps)[last].call == CallsOf(steps)[begin].call
    ensures var queue := QueueOf(steps);
            if CallsOf(steps)[last].Receive? then CallsOf(steps)[last].fate.Delivered?
            else
              && i < |queue| && Enqueues(queue[i], CallsOf(steps)[begin].change)
              && (|| queue[i].op.Core() in QueueProtocol.Run(queue).pending
                  || (exists j :: QueueProtocol.Superseded(queue, i, j) && last < Source(steps, j))
                  || (exists j :: QueueProtocol.AcknowledgedBy(queue, i, j)))
  {
    last, i := SuccessIsDeliveredOrEnqueued(steps, begin);
    if !CallsOf(steps)[last].Receive? {
      QueueProtocol.NoOperationIsLost(QueueOf(steps), i);
      if j :| QueueProtocol.Superseded(QueueOf(steps), i, j) {
        SourcesInOrder(steps, i, j);
      }
    }
  }

  /** When calls on a row take turns, the change its mirror shows is never superseded in the queue. */
  lemma CurrentChangeIsNotSuperseded(steps: seq<Step>, begin: nat, i: nat, j: nat)
    requires Valid(steps) && Coordinator.RowsTakeTurns(CallsOf(steps))
    requires Coordinator.LastMirrored(CallsOf(steps), begin)
    requires i < |QueueOf(steps)| && Enqueues(QueueOf(steps)[i], CallsOf(steps)[begin].change)
    requires Source(steps, i) < |CallsOf(steps)| && CallsOf(steps)[Source(steps, i)].Queue?
    requires CallsOf(steps)[Source(steps, i)].call == CallsOf(steps)[begin].call
    ensures !QueueProtocol.Superseded(QueueOf(steps), i, j)
  {
    if QueueProtocol.Superseded(QueueOf(steps), i, j) {
      var calls, k, l := CallsOf(steps), Source(steps, i), Source(steps, j);
      SourcesInOrder(steps, i, j);
      EnqueueHasASource(steps, j);
      NoneQueuesBehindTheCurrent(calls, begin, k, l);
    }
  }

  lemma NoneQueuesBehindTheCurrent(calls: seq<Coordinator.Event>, begin: nat, k: nat, l: nat)
    requires Coordinator.Valid(calls) && Coordinator.RowsTakeTurns(calls) && Coordinator.LastMirrored(calls, begin)
    requires k < l < |calls| && calls[k].Queue? && calls[k].call == calls[begin].call
    requires Coordinator.QueuedAt(calls, l).Some?
    ensures Coordinator.QueuedAt(calls, l).value.Key() != calls[begin].change.key
  {
    var b, send, receive := Coordinator.QueueingFollowsAFailedSend(calls, k);
    Coordinator.BegunOnce(calls, b);
    var other, send', receive' := Coordinator.QueueingFollowsAFailedSend(calls, l);
    if calls[other].change.key == calls[begin].change.key {
      assert Coordinator.WritesMirror(calls[other], calls[begin].change.key);
      if other == begin {
        Coordinator.DoneHasNoMoreSteps(calls, k, calls[begin].call, l);
      } else {
        assert Coordinator.WritesMirror(calls[begin], calls[other].change.key);
        Coordinator.BusyRowIsNotMirrored(calls, other, begin, l);
      }
    }
  }

  /**
    The row's current change, from its mirror write to the server: when calls on a row take turns, the change the
    mirror shows, once its call has returned success, was delivered, or is in the queue exactly as long as no
    replay has acknowledged it.
   */
  lemma CurrentChangeWaitsForItsReplay(steps: seq<Step>, begin: nat) returns (last: nat, i: nat)
    requires Valid(steps) && QueueProtocol.EnqueuesAreSafe(QueueOf(steps))
    requires Coordinator.RowsTakeTurns(CallsOf(steps)) && Coordinator.LastMirrored(CallsOf(steps), begin)
    requires Coordinator.IsAt(Coordinator.Run(CallsOf(steps)), CallsOf(steps)[begin].call, Coordinator.Done(true))
    ensures last < |CallsOf(steps)| && CallsOf(steps)[last].call == CallsOf(steps)[begin].call
    ensures var queue := QueueOf(steps);
            if CallsOf(steps)[last].Receive? then CallsOf(steps)[last].fate.Delivered?
            else
              && i < |queue| && Enqueues(queue[i], CallsOf(steps)[begin].change)
              && (queue[i].op.Core() in QueueProtocol.Run(queue).pending
                  <==> forall j :: !QueueProtocol.AcknowledgedBy(queue, i, j))
  {
    last, i := SuccessIsDeliveredOrEnqueued(steps, begin);
    if !CallsOf(steps)[last].Receive? {
      forall j ensures !QueueProtocol.Superseded(QueueOf(steps), i, j) {
        if i < j {
          CurrentChangeIsNotSuperseded(steps, begin, i, j);
        }
      }
      UnsupersededIsPendingIff(QueueOf(steps), i);
    }
  }

  lemma UnsupersededIsPendingIff(queue: seq<QueueProtocol.Event>, i: nat)
    requires QueueProtocol.Valid(queue) && QueueProtocol.EnqueuesAreSafe(queue) && i < |queue| && queue[i].Enqueue?
    requires forall j :: !QueueProtocol.Superseded(queue, i, j)
    ensures queue[i].op.Core() in QueueProtocol.Run(queue).pending
            <==> forall j :: !QueueProtocol.AcknowledgedBy(queue, i, j)
  {
    var op := queue[i].op.Core();
    QueueProtocol.QueueHoldsExactlyTheOutstanding(queue);
    if QueueProtocol.HasOutstanding(queue, op) {
      var other: nat :| QueueProtocol.Outstanding(queue, other) && queue[other].op.Core() == op;
      assert op.Key() == queue[i].op.Key() && op.Key() == queue[other].op.Key();
      assert !QueueProtocol.Superseded(queue, other, i) && !QueueProtocol.Superseded(queue, i, other);
      assert other == i;
    } else {
      assert !QueueProtocol.Outstanding(queue, i);
    }
  }
}
