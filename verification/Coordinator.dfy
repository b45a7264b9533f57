/**
  The coordinator's write path: mirror first, mark the echo, send, and queue what failed for a passing reason.
  Nothing locks out other calls in between, so a run interleaves the steps of any number of calls. The local
  store's answers, the clock and the server's replies are parameters of the steps.
 */
module Coordinator {
  import opened Wrappers
  import opened Contract
  import opened OfflineQueue
  import opened Sequences
  import opened ServerReplies

  // ---------------------------------------------------------------- the write path, step by step

  /** A prepared upsert carries its record as text, a delete the tombstone's version. */
  datatype Change = Change(key: RowKey, kind: QueuedOperationKind, route: Route)

  /** Where a call stands between its steps; an operation about to be queued is already stamped. */
  datatype Stage =
    | Mirrored
    | Marked
    | Sent
    | Queueing(op: QueuedOperation)
    | Done(ok: bool)

  datatype Call = Call(change: Change, stage: Stage)

  /** What the mirror shows of a row, and the call it comes from. */
  datatype Shown = Shown(kind: QueuedOperationKind, writer: nat)

  datatype State = State(
    mirror: map<RowKey, Shown>, queue: seq<QueuedOperation>, calls: map<nat, Call>, regressions: seq<RowKey>)

  /**
    What the queue answers to an enqueue. A file queue whose write fails reports an error and has the operation
    in its cache all the same.
   */
  datatype QueueAnswer = Stored | StoredWithError | NotStored

  /**
    `Begin` is the mirror write, or the end of a call that could not be prepared or mirrored; `Receive` is what
    the call's route makes of the server's reply, with the clock read right after it.
   */
  datatype Event =
    | Begin(call: nat, change: Change, mirrored: bool)
    | MarkEcho(call: nat)
    | Send(call: nat)
    | Receive(call: nat, fate: Fate, clock: int)
    | Queue(call: nat, answer: QueueAnswer)

  const EMPTY := State(map[], [], map[], [])

  function Operation(change: Change, clock: int): QueuedOperation {
    QueuedOperation(change.key.table, change.key.entityId, change.kind, clock, 0, Some("transient"))
  }

  predicate IsAt(s: State, c: nat, stage: Stage) { c in s.calls && s.calls[c].stage == stage }

  predicate Can(s: State, e: Event) {
    match e
    case Begin(c, _, _) => c !in s.calls
    case MarkEcho(c) => IsAt(s, c, Mirrored)
    case Send(c) => IsAt(s, c, Marked)
    case Receive(c, _, _) => IsAt(s, c, Sent)
    case Queue(c, _) => c in s.calls && s.calls[c].stage.Queueing?
  }

  function Move(s: State, c: nat, stage: Stage): State
    requires c in s.calls
  {
    s.(calls := s.calls[c := Call(s.calls[c].change, stage)])
  }

  function Step(s: State, e: Event): State
    requires Can(s, e)
  {
    match e
    case Begin(c, change, mirrored) =>
      if mirrored
      then s.(mirror := s.mirror[change.key := Shown(change.kind, c)], calls := s.calls[c := Call(change, Mirrored)])
      else s.(calls := s.calls[c := Call(change, Done(false))])
    case MarkEcho(c) => Move(s, c, Marked)
    case Send(c) => Move(s, c, Sent)
    case Receive(c, fate, clock) =>
      var change := s.calls[c].change;
      (match fate
       case Delivered => Move(s, c, Done(true))
       case Retry => Move(s, c, Queueing(Operation(change, clock)))
       case Refused(regression) =>
         Move(s, c, Done(false)).(regressions := s.regressions + if regression then [change.key] else []))
    case Queue(c, answer) =>
      Move(s, c, Done(answer.Stored?)).(
        queue := if answer.NotStored? then s.queue else Enqueued(s.queue, s.calls[c].stage.op))
  }

  /** The state after a run, or nothing when some step was not possible where it happens. */
  function TryRun(tr: seq<Event>): Option<State> {
    if tr == [] then Some(EMPTY)
    else
      var before := TryRun(tr[..|tr| - 1]);
      if before.Some? && Can(before.value, tr[|tr| - 1]) then Some(Step(before.value, tr[|tr| - 1])) else None
  }

  predicate Valid(tr: seq<Event>) { TryRun(tr).Some? }

  function Run(tr: seq<Event>): State
    requires Valid(tr)
  {
    TryRun(tr).value
  }

  lemma {:induction false} ValidPrefix(tr: seq<Event>, n: nat)
    requires Valid(tr) && n <= |tr|
    ensures Valid(tr[..n])
    ensures n < |tr| ==> Can(Run(tr[..n]), tr[n]) && Valid(tr[..n + 1]) && Run(tr[..n + 1]) == Step(Run(tr[..n]), tr[n])
  {
    if n == |tr| {
      assert tr[..n] == tr;
    } else if n == |tr| - 1 {
      assert tr[..n + 1] == tr;
    } else {
      ValidPrefix(tr[..|tr| - 1], n);
      assert tr[..|tr| - 1][..n] == tr[..n] && tr[..|tr| - 1][..n + 1] == tr[..n + 1];
    }
  }

  lemma RunExtends(tr: seq<Event>, e: Event)
    requires Valid(tr) && Can(Run(tr), e)
    ensures Valid(tr + [e]) && Run(tr + [e]) == Step(Run(tr), e)
  {
    assert (tr + [e])[..|tr|] == tr;
  }

  // ---------------------------------------------------------------- one call, uninterrupted

  function StepsOf(c: nat, change: Change, mirrored: bool, fate: Fate, clock: int, answer: QueueAnswer): seq<Event> {
    if !mirrored then [Begin(c, change, false)]
    else
      SendingSteps(c, change) + SettlingSteps(c, fate, clock, answer)
  }

  function SendingSteps(c: nat, change: Change): seq<Event> { [Begin(c, change, true), MarkEcho(c), Send(c)] }

  function SettlingSteps(c: nat, fate: Fate, clock: int, answer: QueueAnswer): seq<Event> {
    [Receive(c, fate, clock)] + if fate.Retry? then [Queue(c, answer)] else []
  }

  class Coordinator {
    var mirror: map<RowKey, Shown>
    var queue: seq<QueuedOperation>
    var regressions: seq<RowKey>
    ghost var trace: seq<Event>

    ghost predicate Follows()
      reads this
    {
      && Valid(trace) && mirror == Run(trace).mirror && queue == Run(trace).queue
      && regressions == Run(trace).regressions
    }

    constructor ()
      ensures Follows() && trace == []
    {
      mirror, queue, regressions, trace := map[], [], [], [];
    }

    ghost method Record(e: Event)
      requires Valid(trace) && Can(Run(trace), e)
      modifies this`trace
      ensures trace == old(trace) + [e] && Valid(trace) && Run(trace) == Step(Run(old(trace)), e)
    {
      RunExtends(trace, e);
      trace := trace + [e];
    }

    /** A call that no other call comes between: these steps in this order, and nothing else. */
    method Write(c: nat, change: Change, mirrored: bool, reply: Reply, clock: int, answer: QueueAnswer)
      returns (ok: bool)
      requires Follows() && c !in Run(trace).calls
      modifies this
      ensures Follows()
      ensures trace == old(trace) + StepsOf(c, change, mirrored, FateOf(change.route, reply), clock, answer)
      ensures c in Run(trace).calls && Run(trace).calls[c] == Call(change, Done(ok))
    {
      if !mirrored {
        Record(Begin(c, change, false));
        return false;
      }
      ghost var before := trace;
      Dispatch(c, change);
      var fate := FateOf(change.route, reply);
      ok := Settle(c, change, fate, clock, answer);
      ConcatAssociative(before, SendingSteps(c, change), SettlingSteps(c, fate, clock, answer));
    }

    method Dispatch(c: nat, change: Change)
      requires Follows() && c !in Run(trace).calls
      modifies this
      ensures Follows() && trace == old(trace) + SendingSteps(c, change)
      ensures c in Run(trace).calls && Run(trace).calls[c] == Call(change, Sent)
    {
      Record(Begin(c, change, true));
      mirror := mirror[change.key := Shown(change.kind, c)];
      Record(MarkEcho(c));
      Record(Send(c));
    }

    method Settle(c: nat, change: Change, fate: Fate, clock: int, answer: QueueAnswer) returns (ok: bool)
      requires Follows() && c in Run(trace).calls && Run(trace).calls[c] == Call(change, Sent)
      modifies this
      ensures Follows() && trace == old(trace) + SettlingSteps(c, fate, clock, answer)
      ensures c in Run(trace).calls && Run(trace).calls[c] == Call(change, Done(ok))
    {
      Record(Receive(c, fate, clock));
      match fate {
        case Delivered => return true;
        case Retry =>
          Record(Queue(c, answer));
          if !answer.NotStored? {
            queue := Enqueued(queue, Operation(change, clock));
          }
          return answer.Stored?;
        case Refused(regression) =>
          if regression {
            regressions := regressions + [change.key];
          }
          return false;
      }
    }
  }

  // ---------------------------------------------------------------- the order of one call's steps

  /** A call's stage is what its own last step left. */
  lemma {:induction false} LastOwnStep(tr: seq<Event>, c: nat) returns (k: nat)
    requires Valid(tr) && c in Run(tr).calls
    ensures k < |tr| && tr[k].call == c && (forall j :: k < j < |tr| ==> tr[j].call != c)
    ensures Valid(tr[..k]) && Can(Run(tr[..k]), tr[k]) && c in Step(Run(tr[..k]), tr[k]).calls
    ensures Step(Run(tr[..k]), tr[k]).calls[c] == Run(tr).calls[c]
  {
    var n := |tr| - 1;
    ValidPrefix(tr, n);
    if tr[n].call == c {
      k := n;
    } else {
      k := LastOwnStep(tr[..n], c);
      assert tr[..n][..k] == tr[..k];
      forall j | k < j < |tr| ensures tr[j].call != c {
        assert j < n ==> tr[..n][j] == tr[j];
      }
    }
  }

  /** Whatever else runs in between, a send has its own mirror write and then its own echo mark behind it. */
  lemma NothingIsSentUnmarked(tr: seq<Event>, i: nat) returns (mirrorWrite: nat, mark: nat, change: Change)
    requires Valid(tr) && i < |tr| && tr[i].Send?
    ensures mirrorWrite < mark < i
    ensures tr[mirrorWrite] == Begin(tr[i].call, change, true) && tr[mark] == MarkEcho(tr[i].call)
    ensures forall j :: mirrorWrite < j < i && j != mark ==> tr[j].call != tr[i].call
  {
    var c := tr[i].call;
    ValidPrefix(tr, i);
    mark := LastOwnStep(tr[..i], c);
    assert tr[..i][..mark] == tr[..mark];
    mirrorWrite := LastOwnStep(tr[..mark], c);
    assert tr[..mark][..mirrorWrite] == tr[..mirrorWrite];
    change := tr[mirrorWrite].change;
    forall j | mirrorWrite < j < i && j != mark ensures tr[j].call != c {
      if j < mark {
        assert tr[..mark][j] == tr[j];
      } else {
        assert tr[..i][j] == tr[j];
      }
    }
  }

  /** A change is only queued after its own send failed for a passing reason, stamped when the reply came in. */
  lemma QueueingFollowsAFailedSend(tr: seq<Event>, i: nat) returns (begin: nat, send: nat, receive: nat)
    requires Valid(tr) && i < |tr| && tr[i].Queue?
    ensures begin < send < receive < i && Valid(tr[..i]) && tr[i].call in Run(tr[..i]).calls
    ensures tr[send] == Send(tr[i].call) && tr[receive].Receive? && tr[receive].call == tr[i].call
    ensures tr[begin].Begin? && tr[begin].mirrored && tr[begin].call == tr[i].call
    ensures Run(tr[..i]).calls[tr[i].call]
            == Call(tr[begin].change, Queueing(Operation(tr[begin].change, tr[receive].clock)))
    ensures tr[receive].fate.Retry?
  {
    var c := tr[i].call;
    ValidPrefix(tr, i);
    receive := LastOwnStep(tr[..i], c);
    assert tr[..i][..receive] == tr[..receive];
    send := LastOwnStep(tr[..receive], c);
    assert tr[..receive][..send] == tr[..send];
    var mark: nat, change: Change;
    begin, mark, change := NothingIsSentUnmarked(tr, send);
    BegunOnce(tr[..i], begin);
    assert tr[..i][begin] == tr[begin];
  }

  lemma ChangeStays(s: State, e: Event, c: nat)
    requires Can(s, e) && c in s.calls
    ensures c in Step(s, e).calls && Step(s, e).calls[c].change == s.calls[c].change && (e.Begin? ==> e.call != c)
  {
  }

  /** A call keeps the change it began with. */
  lemma {:induction false} BegunOnce(tr: seq<Event>, b: nat)
    requires Valid(tr) && b < |tr| && tr[b].Begin?
    ensures tr[b].call in Run(tr).calls && Run(tr).calls[tr[b].call].change == tr[b].change
    ensures forall j :: 0 <= j < |tr| && tr[j].Begin? && tr[j].call == tr[b].call ==> j == b
  {
    var n := |tr| - 1;
    ValidPrefix(tr, n);
    if b < n {
      BegunOnce(tr[..n], b);
      ChangeStays(Run(tr[..n]), tr[n], tr[b].call);
      assert forall j :: 0 <= j < n ==> tr[..n][j] == tr[j];
    } else {
      forall j | 0 <= j < n && tr[j].Begin? ensures tr[j].call != tr[b].call {
        BegunOnce(tr[..n], j);
      }
    }
  }

  /** A finished call succeeded exactly when its change was delivered or accepted by the queue. */
  lemma CallSucceedsIff(tr: seq<Event>, c: nat) returns (last: nat)
    requires Valid(tr) && c in Run(tr).calls && Run(tr).calls[c].stage.Done?
    ensures last < |tr| && tr[last].call == c
    ensures Run(tr).calls[c].stage.ok
            <==> tr[last] == Queue(c, Stored)
                 || (tr[last].Receive? && tr[last].fate.Delivered?)
  {
    last := LastOwnStep(tr, c);
  }

  // ---------------------------------------------------------------- what the mirror and the queue hold

  predicate WritesMirror(e: Event, key: RowKey) { e.Begin? && e.mirrored && e.change.key == key }

  /** Step i is the last mirror write on its row. */
  predicate LastMirrored(tr: seq<Event>, i: nat) {
    i < |tr| && tr[i].Begin? && tr[i].mirrored
    && forall j :: i < j < |tr| ==> !WritesMirror(tr[j], tr[i].change.key)
  }

  function QueuedAt(tr: seq<Event>, i: nat): Option<QueuedOperation>
    requires Valid(tr) && i < |tr|
  {
    ValidPrefix(tr, i);
    if tr[i].Queue? && !tr[i].answer.NotStored? then Some(Run(tr[..i]).calls[tr[i].call].stage.op) else None
  }

  /** Step i is the last on its row to put anything into the queue. */
  predicate LastQueued(tr: seq<Event>, i: nat)
    requires Valid(tr)
  {
    i < |tr| && QueuedAt(tr, i).Some?
    && forall j: nat :: i < j < |tr| && QueuedAt(tr, j).Some?
                        ==> QueuedAt(tr, j).value.Key() != QueuedAt(tr, i).value.Key()
  }

  lemma LastMirroredStep(tr: seq<Event>, i: nat)
    requires tr != [] && i < |tr| - 1
    ensures LastMirrored(tr, i)
            <==> LastMirrored(tr[..|tr| - 1], i) && !WritesMirror(tr[|tr| - 1], tr[i].change.key)
  {
    var n := |tr| - 1;
    assert forall j :: 0 <= j < n ==> tr[..n][j] == tr[j];
    if LastMirrored(tr, i) {
      forall j | i < j < n ensures !WritesMirror(tr[..n][j], tr[i].change.key) {
        assert !WritesMirror(tr[j], tr[i].change.key);
      }
    }
  }

  /** The mirror shows, for each row, the last mirror write, whatever became of it on the network. */
  lemma {:induction false} MirrorShowsTheLastChange(tr: seq<Event>, key: RowKey)
    requires Valid(tr)
    ensures key in Run(tr).mirror <==> exists i: nat :: LastMirrored(tr, i) && tr[i].change.key == key
    ensures forall i: nat :: LastMirrored(tr, i) && tr[i].change.key == key
                             ==> Run(tr).mirror[key] == Shown(tr[i].change.kind, tr[i].call)
  {
    if tr != [] {
      var n := |tr| - 1;
      ValidPrefix(tr, n);
      MirrorShowsTheLastChange(tr[..n], key);
      forall i: nat | i < n
        ensures LastMirrored(tr, i) <==> LastMirrored(tr[..n], i) && !WritesMirror(tr[n], tr[i].change.key)
      {
        LastMirroredStep(tr, i);
      }
      assert LastMirrored(tr, n) <==> tr[n].Begin? && tr[n].mirrored;
    }
  }

  lemma QueuedAtInPrefix(tr: seq<Event>, i: nat)
    requires Valid(tr) && i < |tr| - 1
    ensures Valid(tr[..|tr| - 1]) && QueuedAt(tr, i) == QueuedAt(tr[..|tr| - 1], i)
  {
    ValidPrefix(tr, |tr| - 1);
    assert tr[..|tr| - 1][..i] == tr[..i];
  }

  lemma LastQueuedStep(tr: seq<Event>, i: nat)
    requires Valid(tr) && i < |tr| - 1
    ensures Valid(tr[..|tr| - 1])
    ensures LastQueued(tr, i)
            <==> LastQueued(tr[..|tr| - 1], i)
                 && (QueuedAt(tr, |tr| - 1).Some? ==> QueuedAt(tr, |tr| - 1).value.Key() != QueuedAt(tr, i).value.Key())
  {
    var n := |tr| - 1;
    ValidPrefix(tr, n);
    forall j: nat | j < n ensures QueuedAt(tr, j) == QueuedAt(tr[..n], j) {
      QueuedAtInPrefix(tr, j);
    }
  }

  /** The queue holds, for each row, the operation of the last step that queued one. */
  lemma {:induction false} QueueHoldsTheLastQueued(tr: seq<Event>, op: QueuedOperation)
    requires Valid(tr)
    ensures op in Run(tr).queue <==> exists i: nat :: LastQueued(tr, i) && QueuedAt(tr, i) == Some(op)
  {
    if tr != [] {
      var n := |tr| - 1;
      ValidPrefix(tr, n);
      QueueHoldsTheLastQueued(tr[..n], op);
      forall i: nat | i < n
        ensures QueuedAt(tr, i) == QueuedAt(tr[..n], i)
        ensures LastQueued(tr, i)
                <==> LastQueued(tr[..n], i)
                     && (QueuedAt(tr, n).Some? ==> QueuedAt(tr, n).value.Key() != QueuedAt(tr, i).value.Key())
      {
        QueuedAtInPrefix(tr, i);
        LastQueuedStep(tr, i);
      }
      assert LastQueued(tr, n) <==> QueuedAt(tr, n).Some?;
    }
  }

  /** A call that returned an error has queued its change all the same exactly when its last step says so. */
  lemma FailedCallIsQueuedIff(tr: seq<Event>, c: nat) returns (last: nat)
    requires Valid(tr) && IsAt(Run(tr), c, Done(false))
    ensures last < |tr| && tr[last].call == c
    ensures (exists i: nat :: i < |tr| && tr[i].call == c && QueuedAt(tr, i).Some?)
            <==> tr[last] == Queue(c, StoredWithError)
  {
    last := LastOwnStep(tr, c);
    assert tr[last].Queue? ==> (QueuedAt(tr, last).Some? <==> !tr[last].answer.NotStored?);
    if i: nat :| i < |tr| && tr[i].call == c && QueuedAt(tr, i).Some? {
      ValidPrefix(tr, i);
      DoneHasNoMoreSteps(tr, i, c, last);
    }
  }

  /** The queueing step is a call's last one. */
  lemma DoneHasNoMoreSteps(tr: seq<Event>, i: nat, c: nat, last: nat)
    requires Valid(tr) && i <= last < |tr| && tr[i].Queue? && tr[i].call == c && tr[last].call == c
    ensures i == last
  {
    if i < last {
      ValidPrefix(tr, i);
      ValidPrefix(tr, last);
      assert tr[..last][..i + 1] == tr[..i + 1];
      DoneIsFinal(tr[..last], i + 1, c);
    }
  }

  // ---------------------------------------------------------------- when a queued change is the current one

  /**
    The operation queued for a row is the change the mirror shows exactly when the call that queued last on
    the row also wrote its mirror last.
   */
  lemma QueuedChangeIsCurrentIff(tr: seq<Event>, i: nat) returns (begin: nat)
    requires Valid(tr) && LastQueued(tr, i)
    ensures begin < i && tr[begin].Begin? && tr[begin].mirrored && tr[begin].call == tr[i].call
    ensures var op, key := QueuedAt(tr, i).value, tr[begin].change.key;
            && op in Run(tr).queue && op.Key() == key && op.kind == tr[begin].change.kind
            && key in Run(tr).mirror
            && (Run(tr).mirror[key] == Shown(op.kind, tr[i].call) <==> LastMirrored(tr, begin))
  {
    var op := QueuedAt(tr, i).value;
    var send: nat, receive: nat;
    begin, send, receive := QueueingFollowsAFailedSend(tr, i);
    var key := tr[begin].change.key;
    QueueHoldsTheLastQueued(tr, op);
    MirrorShowsTheLastChange(tr, key);
    var last := SomeLastMirrored(tr, begin);
    BegunOnce(tr, begin);
  }

  lemma SomeLastMirrored(tr: seq<Event>, i: nat) returns (last: nat)
    requires i < |tr| && tr[i].Begin? && tr[i].mirrored
    ensures i <= last && LastMirrored(tr, last) && tr[last].change.key == tr[i].change.key
    decreases |tr| - i
  {
    if j :| i < j < |tr| && WritesMirror(tr[j], tr[i].change.key) {
      last := SomeLastMirrored(tr, j);
    } else {
      last := i;
    }
  }

  /** No call begins on a row while another one on that row is still under way. */
  predicate RowsTakeTurns(tr: seq<Event>)
    requires Valid(tr)
  {
    forall i :: 0 <= i < |tr| && tr[i].Begin? && tr[i].mirrored ==>
      (ValidPrefix(tr, i); RowIsFree(Run(tr[..i]), tr[i].change.key))
  }

  predicate RowIsFree(s: State, key: RowKey) {
    forall c :: c in s.calls && s.calls[c].change.key == key ==> s.calls[c].stage.Done?
  }

  lemma {:induction false} DoneIsFinal(tr: seq<Event>, n: nat, c: nat)
    requires Valid(tr) && n <= |tr|
    ensures Valid(tr[..n])
    ensures c in Run(tr[..n]).calls && Run(tr[..n]).calls[c].stage.Done? ==>
              c in Run(tr).calls && Run(tr).calls[c].stage.Done?
    decreases |tr| - n
  {
    ValidPrefix(tr, n);
    if n == |tr| {
      assert tr[..n] == tr;
    } else {
      DoneIsFinal(tr, n + 1, c);
    }
  }

  /**
    When calls on a row take turns, its queued change is the current one exactly when no call has written the
    mirror of that row since it was queued. So what goes stale is what a later call overtook without queueing:
    a later success does not take the older change out of the queue, and a replay sends it again.
   */
  lemma TurnsKeepQueueCurrentIff(tr: seq<Event>, i: nat)
    requires Valid(tr) && RowsTakeTurns(tr) && LastQueued(tr, i)
    ensures var op := QueuedAt(tr, i).value;
            && op in Run(tr).queue && op.Key() in Run(tr).mirror
            && (Run(tr).mirror[op.Key()] == Shown(op.kind, tr[i].call)
                <==> forall j :: i < j < |tr| ==> !WritesMirror(tr[j], op.Key()))
  {
    var begin := QueuedChangeIsCurrentIff(tr, i);
    var key := tr[begin].change.key;
    forall j | begin < j <= i ensures !WritesMirror(tr[j], key) {
      BusyRowIsNotMirrored(tr, begin, j, i);
    }
  }

  lemma BusyRowIsNotMirrored(tr: seq<Event>, begin: nat, j: nat, i: nat)
    requires Valid(tr) && RowsTakeTurns(tr)
    requires begin < j <= i < |tr| && tr[i].Queue? && tr[begin].Begin? && tr[begin].call == tr[i].call
    ensures !WritesMirror(tr[j], tr[begin].change.key)
  {
    if j < i {
      RowIsBusyUntilQueued(tr, begin, j, i);
    }
  }

  /** From its mirror write to its queueing, a call keeps its row busy. */
  lemma RowIsBusyUntilQueued(tr: seq<Event>, begin: nat, j: nat, i: nat)
    requires Valid(tr) && begin < j < i < |tr| && tr[i].Queue? && tr[begin].Begin? && tr[begin].call == tr[i].call
    ensures Valid(tr[..j]) && !RowIsFree(Run(tr[..j]), tr[begin].change.key)
  {
    ValidPrefix(tr, i);
    ValidPrefix(tr, j);
    assert tr[..i][..j] == tr[..j] && tr[..j][begin] == tr[begin];
    BegunOnce(tr[..j], begin);
    DoneIsFinal(tr[..i], j, tr[i].call);
  }

  // ---------------------------------------------------------------- how a queued change goes stale

  /** A call up to the point where it is about to queue its change. */
  function UpToQueueing(c: nat, change: Change, clock: int): seq<Event> {
    SendingSteps(c, change) + [Receive(c, Retry, clock)]
  }

  lemma RunsUpToSend(tr: seq<Event>, c: nat, change: Change)
    requires Valid(tr) && c !in Run(tr).calls
    ensures var longer, s := tr + SendingSteps(c, change), Run(tr);
            && Valid(longer)
            && Run(longer) == s.(mirror := s.mirror[change.key := Shown(change.kind, c)],
                                 calls := s.calls[c := Call(change, Sent)])
  {
    var t1 := tr + [Begin(c, change, true)];
    var t2 := t1 + [MarkEcho(c)];
    RunExtends(tr, Begin(c, change, true));
    RunExtends(t1, MarkEcho(c));
    RunExtends(t2, Send(c));
    assert tr + SendingSteps(c, change) == t2 + [Send(c)];
    assert Run(t2 + [Send(c)]).calls == Run(tr).calls[c := Call(change, Sent)];
  }

  lemma RunsUpToQueueing(tr: seq<Event>, c: nat, change: Change, clock: int)
    requires Valid(tr) && c !in Run(tr).calls
    ensures var longer, s := tr + UpToQueueing(c, change, clock), Run(tr);
            && Valid(longer)
            && Run(longer) == s.(mirror := s.mirror[change.key := Shown(change.kind, c)],
                                 calls := s.calls[c := Call(change, Queueing(Operation(change, clock)))])
  {
    var sent := tr + SendingSteps(c, change);
    var queueing := Call(change, Queueing(Operation(change, clock)));
    RunsUpToSend(tr, c, change);
    RunExtends(sent, Receive(c, Retry, clock));
    ConcatAssociative(tr, SendingSteps(c, change), [Receive(c, Retry, clock)]);
    assert Run(sent + [Receive(c, Retry, clock)]).calls == Run(tr).calls[c := queueing];
  }

  /** Two calls that both fail to reach the server, the second one queueing first. */
  function Overlap(c: nat, first: Change, t1: int, d: nat, second: Change, t2: int): seq<Event> {
    UpToQueueing(c, first, t1) + UpToQueueing(d, second, t2) + [Queue(d, Stored), Queue(c, Stored)]
  }

  lemma OverlapRuns(tr: seq<Event>, c: nat, first: Change, t1: int, d: nat, second: Change, t2: int)
    requires Valid(tr) && c !in Run(tr).calls && d !in Run(tr).calls && c != d
    ensures var end := tr + Overlap(c, first, t1, d, second, t2);
            && Valid(end)
            && Run(end).mirror
               == Run(tr).mirror[first.key := Shown(first.kind, c)][second.key := Shown(second.kind, d)]
            && Run(end).queue == Enqueued(Enqueued(Run(tr).queue, Operation(second, t2)), Operation(first, t1))
            && IsAt(Run(end), c, Done(true)) && IsAt(Run(end), d, Done(true))
  {
    var a := tr + UpToQueueing(c, first, t1);
    var b := a + UpToQueueing(d, second, t2);
    RunsUpToQueueing(tr, c, first, t1);
    RunsUpToQueueing(a, d, second, t2);
    BothQueue(b, c, d);
    ConcatAssociative(tr, UpToQueueing(c, first, t1), UpToQueueing(d, second, t2));
    ConcatAssociative(tr, UpToQueueing(c, first, t1) + UpToQueueing(d, second, t2),
                      [Queue(d, Stored), Queue(c, Stored)]);
  }

  lemma BothQueue(tr: seq<Event>, c: nat, d: nat)
    requires Valid(tr) && c != d && c in Run(tr).calls && d in Run(tr).calls
    requires Run(tr).calls[c].stage.Queueing? && Run(tr).calls[d].stage.Queueing?
    ensures var end, s := tr + [Queue(d, Stored), Queue(c, Stored)], Run(tr);
            && Valid(end) && Run(end).mirror == s.mirror
            && Run(end).queue == Enqueued(Enqueued(s.queue, s.calls[d].stage.op), s.calls[c].stage.op)
            && IsAt(Run(end), c, Done(true)) && IsAt(Run(end), d, Done(true))
  {
    var mid := tr + [Queue(d, Stored)];
    QueueRuns(tr, d);
    QueueRuns(mid, c);
    assert tr + [Queue(d, Stored), Queue(c, Stored)] == mid + [Queue(c, Stored)];
  }

  lemma QueueRuns(tr: seq<Event>, c: nat)
    requires Valid(tr) && c in Run(tr).calls && Run(tr).calls[c].stage.Queueing?
    ensures var end, s := tr + [Queue(c, Stored)], Run(tr);
            && Valid(end) && Run(end).mirror == s.mirror && IsAt(Run(end), c, Done(true))
            && Run(end).queue == Enqueued(s.queue, s.calls[c].stage.op)
            && forall d :: d in s.calls && d != c ==> d in Run(end).calls && Run(end).calls[d] == s.calls[d]
  {
    RunExtends(tr, Queue(c, Stored));
  }

  /**
    In any reachable state, two overlapping calls on one row can both succeed and leave the mirror at the second
    change and the queue at the first.
   */
  lemma OverlappingCallsQueueTheOlderChange(tr: seq<Event>, c: nat, first: Change, t1: int,
                                            d: nat, second: Change, t2: int)
    requires Valid(tr) && c !in Run(tr).calls && d !in Run(tr).calls && c != d && first.key == second.key
    ensures var end := tr + Overlap(c, first, t1, d, second, t2);
            && Valid(end) && IsAt(Run(end), c, Done(true)) && IsAt(Run(end), d, Done(true))
            && first.key in Run(end).mirror && Run(end).mirror[first.key] == Shown(second.kind, d)
            && Operation(first, t1) in Run(end).queue
            && (forall op :: op in Run(end).queue && op.Key() == first.key ==> op == Operation(first, t1))
            && !RowsTakeTurns(end)
  {
    OverlapRuns(tr, c, first, t1, d, second, t2);
    OverlapTakesNoTurns(tr, c, first, t1, d, second, t2);
    assert Operation(first, t1).Key() == Operation(second, t2).Key() == first.key;
  }

  lemma OverlapTakesNoTurns(tr: seq<Event>, c: nat, first: Change, t1: int, d: nat, second: Change, t2: int)
    requires Valid(tr) && c !in Run(tr).calls && first.key == second.key
    requires Valid(tr + Overlap(c, first, t1, d, second, t2))
    ensures !RowsTakeTurns(tr + Overlap(c, first, t1, d, second, t2))
  {
    var end := tr + Overlap(c, first, t1, d, second, t2);
    var a := tr + UpToQueueing(c, first, t1);
    RunsUpToQueueing(tr, c, first, t1);
    assert end[..|a|] == a && end[|a|] == Begin(d, second, true);
    var call := Call(first, Queueing(Operation(first, t1)));
    assert Run(a).calls[c] == call && call.change.key == second.key && !call.stage.Done?;
    assert !RowIsFree(Run(a), second.key);
  }

  /** On two rows, the same overlap queues them against the order of their stamps, however the clock advances. */
  lemma OverlapReversesStamps(tr: seq<Event>, c: nat, first: Change, t1: int, d: nat, second: Change, t2: int)
    requires Valid(tr) && c !in Run(tr).calls && d !in Run(tr).calls && c != d
    requires first.key != second.key && t1 < t2
    ensures var end := tr + Overlap(c, first, t1, d, second, t2);
            && Valid(end) && Operation(first, t1) in Run(end).queue && Operation(second, t2) in Run(end).queue
            && !StrictlyStamped(Run(end).queue)
  {
    OverlapRuns(tr, c, first, t1, d, second, t2);
    assert Operation(first, t1).Key() == first.key && Operation(second, t2).Key() == second.key;
    var rest := Without(Enqueued(Run(tr).queue, Operation(second, t2)), first.key);
    var queue := rest + [Operation(first, t1)];
    assert Operation(second, t2) in rest;
    var k :| 0 <= k < |rest| && rest[k] == Operation(second, t2);
    assert queue[k].queuedAtMicros > queue[|rest|].queuedAtMicros;
  }

  /** A first write that was queued and a later one that went through: the queue still holds the first. */
  lemma LaterSuccessLeavesOldChangeQueued(tr: seq<Event>, c: nat, first: Change, t1: int,
                                          d: nat, second: Change, t2: int)
    requires Valid(tr) && c !in Run(tr).calls && d !in Run(tr).calls && c != d && first.key == second.key
    ensures var end := tr + StepsOf(c, first, true, Retry, t1, Stored)
                       + StepsOf(d, second, true, Delivered, t2, NotStored);
            && Valid(end) && IsAt(Run(end), d, Done(true))
            && first.key in Run(end).mirror && Run(end).mirror[first.key] == Shown(second.kind, d)
            && Operation(first, t1) in Run(end).queue
  {
    RunsUpToQueueing(tr, c, first, t1);
    RunExtends(tr + UpToQueueing(c, first, t1), Queue(c, Stored));
    var queued := tr + UpToQueueing(c, first, t1) + [Queue(c, Stored)];
    assert queued == tr + StepsOf(c, first, true, Retry, t1, Stored);
    DeliveredRuns(queued, d, second, t2);
  }

  lemma DeliveredRuns(tr: seq<Event>, d: nat, change: Change, t: int)
    requires Valid(tr) && d !in Run(tr).calls
    ensures var end := tr + StepsOf(d, change, true, Delivered, t, NotStored);
            && Valid(end) && IsAt(Run(end), d, Done(true)) && Run(end).queue == Run(tr).queue
            && Run(end).mirror == Run(tr).mirror[change.key := Shown(change.kind, d)]
  {
    RunsUpToSend(tr, d, change);
    RunExtends(tr + SendingSteps(d, change), Receive(d, Delivered, t));
    ConcatAssociative(tr, SendingSteps(d, change), [Receive(d, Delivered, t)]);
    assert StepsOf(d, change, true, Delivered, t, NotStored) == SendingSteps(d, change) + [Receive(d, Delivered, t)];
  }
}
