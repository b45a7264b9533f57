/**
  The reducer, the queue and a runtime with timers and one replay worker, running together. The runtime is
  the host's, so it is modelled by what it may do: arm a timer per schedule effect, start a replay when a
  timer fires, finalize, report. Enqueue notifications reach the reducer some time after the queue changed,
  and the process may restart at any moment.
 */
module SyncSystem {
  import opened Wrappers
  import opened Contract
  import opened OfflineQueue
  import opened QueueProtocol
  import opened Reducer

  /** Where the one replay worker stands. */
  datatype Worker =
    | Idle
    | Draining(id: nat)
    | Committing(id: nat)
    | Reporting(processed: nat)

  /** `trace` is the queue's history, so `Run(trace).pending` is the queue. */
  datatype System = System(
    trace: seq<QueueProtocol.Event>, reducer: ReducerState, timers: nat, undelivered: nat, worker: Worker)

  datatype Action =
    | Launch
    | Write(op: QueuedOperation)
    | DeliverEnqueued
    | Connectivity(connected: bool)
    | Auth(signedIn: bool)
    | TimerFires(start: bool)
    | ReplayEnds(failed: seq<QueuedOperation>)
    | Commit
    | Report

  function Notify(s: System, event: ReducerEvent): System {
    var (next, effects) := Reduce(s.reducer, event);
    s.(reducer := next, timers := s.timers + |effects|)
  }

  function Record(s: System, e: QueueProtocol.Event): System { s.(trace := s.trace + [e]) }

  predicate CanAct(s: System, a: Action)
    requires Valid(s.trace)
  {
    match a
    case Launch => true
    case Write(_) => true
    case DeliverEnqueued => s.undelivered > 0
    case Connectivity(_) => true
    case Auth(_) => true
    case TimerFires(start) =>
      && s.timers > 0
      && (s.reducer.isProcessing ==> !start)
      && (GatesOpen(s.reducer) ==> start)
    case ReplayEnds(failed) => s.worker.Draining? && Enabled(Run(s.trace), BeginFinalize(s.worker.id, failed))
    case Commit => s.worker.Committing? && Enabled(Run(s.trace), CommitFinalize(s.worker.id))
    case Report => s.worker.Reporting?
  }

  function Act(s: System, a: Action): System
    requires Valid(s.trace) && CanAct(s, a)
  {
    match a
    case Launch =>
      Notify(System(s.trace + [Restart], INITIAL, 0, 0, Idle), AppLaunched(Run(s.trace).pending != []))
    case Write(op) => Record(s, Enqueue(op)).(undelivered := s.undelivered + 1)
    case DeliverEnqueued => Notify(s.(undelivered := s.undelivered - 1), OfflineOperationEnqueued)
    case Connectivity(connected) => Notify(s, ConnectivityChanged(connected))
    case Auth(signedIn) => Notify(s, AuthStateChanged(signedIn))
    case TimerFires(start) =>
      var fired := s.(timers := s.timers - 1);
      if start
      then Record(Notify(fired, OfflineQueueProcessingStarted), TakeSnapshot(|s.trace|)).(worker := Draining(|s.trace|))
      else fired
    case ReplayEnds(failed) => Record(s, BeginFinalize(s.worker.id, failed)).(worker := Committing(s.worker.id))
    case Commit =>
      var p := Run(s.trace).workers[s.worker.id];
      Record(s, CommitFinalize(s.worker.id)).(worker := Reporting(|Acknowledged(p.snapshot, p.failed)|))
    case Report =>
      Notify(s.(worker := Idle), OfflineQueueProcessed(s.worker.processed, Run(s.trace).pending != []))
  }

  const FRESH := System([], INITIAL, 0, 0, Idle)

  /** What every reachable state satisfies. */
  predicate Inv(s: System) {
    && Valid(s.trace)
    && (forall w :: w in Run(s.trace).workers ==> w < |s.trace|)
    && (s.reducer.isProcessing <==> !s.worker.Idle?)
    && (s.worker.Draining? ==> s.worker.id in Run(s.trace).workers && Run(s.trace).workers[s.worker.id].Replaying?)
    && (s.worker.Committing? ==> s.worker.id in Run(s.trace).workers && Run(s.trace).workers[s.worker.id].Finalizing?)
    && (s.worker.Idle? && Run(s.trace).pending != [] ==> s.reducer.hasPending || s.undelivered > 0)
    && (GatesOpen(s.reducer) && s.reducer.hasPending ==> s.timers > 0)
  }

  lemma ActKeepsInv(s: System, a: Action)
    requires Inv(s) && CanAct(s, a)
    ensures Inv(Act(s, a))
  {
    match a
    case Launch => RunExtends(s.trace, Restart);
    case Write(op) => RunExtends(s.trace, Enqueue(op));
    case TimerFires(start) =>
      if start {
        RunExtends(s.trace, TakeSnapshot(|s.trace|));
      }
    case ReplayEnds(failed) => RunExtends(s.trace, BeginFinalize(s.worker.id, failed));
    case Commit => RunExtends(s.trace, CommitFinalize(s.worker.id));
    case _ =>
  }

  /** The state after a sequence of actions, or nothing when one of them was not possible. */
  function TryActs(s: System, actions: seq<Action>): Option<System>
    requires Inv(s)
    ensures TryActs(s, actions).Some? ==> Inv(TryActs(s, actions).value)
    decreases |actions|
  {
    if actions == [] then Some(s)
    else if CanAct(s, actions[0]) then
      ActKeepsInv(s, actions[0]);
      TryActs(Act(s, actions[0]), actions[1..])
    else None
  }

  /** A state some sequence of actions reaches from a fresh start. */
  ghost predicate Reachable(s: System) {
    exists actions :: FromFresh(actions) == Some(s)
  }

  lemma FreshIsInv()
    ensures Inv(FRESH)
  {
  }

  /** What a sequence of actions makes of a fresh start. */
  function FromFresh(actions: seq<Action>): Option<System> {
    FreshIsInv();
    TryActs(FRESH, actions)
  }

  lemma ReachableIsInv(s: System)
    requires Reachable(s)
    ensures Inv(s)
  {
  }

  /** With the gates open and work queued, a timer is running or a notification is on its way to arm one. */
  lemma NothingIsStranded(s: System)
    requires Reachable(s) && Run(s.trace).pending != [] && GatesOpen(s.reducer)
    ensures s.timers > 0 || s.undelivered > 0
  {
    ReachableIsInv(s);
  }

  /**
    The fate of every write in every reachable state: superseded by a later write of the same row,
    acknowledged by a replay that started after it, or still queued; and if it is still queued while the
    gates are open, something outstanding will start a replay.
   */
  lemma FateOfEveryWrite(s: System, i: nat)
    requires Reachable(s) && i < |s.trace| && s.trace[i].Enqueue?
    requires Valid(s.trace) && EnqueuesAreSafe(s.trace)
    ensures || (exists j :: Superseded(s.trace, i, j))
            || (exists j :: AcknowledgedBy(s.trace, i, j))
            || (s.trace[i].op.Core() in Run(s.trace).pending &&
                (GatesOpen(s.reducer) ==> s.timers > 0 || s.undelivered > 0))
  {
    NoOperationIsLost(s.trace, i);
    if s.trace[i].op.Core() in Run(s.trace).pending && GatesOpen(s.reducer) {
      NothingIsStranded(s);
    }
  }

  // ---------------------------------------------------------------- recovery

  lemma {:induction false} ThenAct(s: System, actions: seq<Action>, t: System, a: Action)
    requires Inv(s) && TryActs(s, actions) == Some(t) && CanAct(t, a)
    ensures TryActs(s, actions + [a]) == Some(Act(t, a))
    decreases |actions|
  {
    if actions == [] {
      ActKeepsInv(s, a);
      assert ([a])[1..] == [];
      assert TryActs(Act(s, a), []) == Some(Act(s, a));
    } else {
      ActKeepsInv(s, actions[0]);
      ThenAct(Act(s, actions[0]), actions[1..], t, a);
      assert (actions + [a])[1..] == actions[1..] + [a];
    }
  }

  lemma FinishReport(s: System, actions: seq<Action>, t: System) returns (more: seq<Action>, u: System)
    requires Inv(s) && TryActs(s, actions) == Some(t) && !t.worker.Draining? && !t.worker.Committing?
    ensures TryActs(s, more) == Some(u) && u.worker.Idle? && |more| <= |actions| + 1
    ensures u.reducer.isConnected == t.reducer.isConnected && u.reducer.isSignedIn == t.reducer.isSignedIn
    ensures u.trace == t.trace
  {
    more, u := actions, t;
    if u.worker.Reporting? {
      ThenAct(s, more, u, Report);
      more, u := more + [Report], Act(u, Report);
    }
  }

  lemma FinishCommit(s: System, actions: seq<Action>, t: System) returns (more: seq<Action>, u: System)
    requires Inv(s) && TryActs(s, actions) == Some(t) && t.worker.Committing?
    ensures TryActs(s, more) == Some(u) && u.worker.Reporting? && |more| <= |actions| + 1
    ensures u.reducer == t.reducer
    ensures var p := Run(t.trace).workers[t.worker.id];
            Run(u.trace).pending == Dropping(Run(t.trace).pending, Acknowledged(p.snapshot, p.failed))
  {
    RunExtends(t.trace, CommitFinalize(t.worker.id));
    ThenAct(s, actions, t, Commit);
    more, u := actions + [Commit], Act(t, Commit);
  }

  lemma FinishDrain(s: System, actions: seq<Action>, t: System) returns (more: seq<Action>, u: System)
    requires Inv(s) && TryActs(s, actions) == Some(t) && t.worker.Draining?
    ensures TryActs(s, more) == Some(u) && u.worker == Committing(t.worker.id) && |more| <= |actions| + 1
    ensures u.reducer == t.reducer && Run(u.trace).pending == Run(t.trace).pending
    ensures var p := Run(t.trace).workers[t.worker.id];
            Run(u.trace).workers[t.worker.id] == Finalizing(p.takenAt, p.snapshot, [])
  {
    assert Contracts([]) == [];
    RunExtends(t.trace, BeginFinalize(t.worker.id, []));
    ThenAct(s, actions, t, ReplayEnds([]));
    more, u := actions + [ReplayEnds([])], Act(t, ReplayEnds([]));
  }

  /** Lets a replay in flight run to its report, every operation succeeding. */
  lemma FinishReplay(s: System, actions: seq<Action>, t: System) returns (more: seq<Action>, u: System)
    requires Inv(s) && TryActs(s, actions) == Some(t)
    ensures TryActs(s, more) == Some(u) && u.worker.Idle? && |more| <= |actions| + 3
    ensures u.reducer.isConnected == t.reducer.isConnected && u.reducer.isSignedIn == t.reducer.isSignedIn
    ensures t.worker.Draining? ==>
              Run(u.trace).pending == Dropping(Run(t.trace).pending,
                                               Acknowledged(Run(t.trace).workers[t.worker.id].snapshot, []))
  {
    more, u := actions, t;
    if u.worker.Draining? {
      more, u := FinishDrain(s, more, u);
    }
    if u.worker.Committing? {
      more, u := FinishCommit(s, more, u);
    }
    more, u := FinishReport(s, more, u);
  }

  lemma {:induction false} DroppingEverything(ops: seq<QueuedOperation>, gone: set<ContractOperation>)
    requires forall op :: op in ops ==> op.ToContract() in gone
    ensures Dropping(ops, gone) == []
  {
    if ops != [] {
      DroppingEverything(ops[..|ops| - 1], gone);
    }
  }

  lemma AcknowledgingAllEmpties(ops: seq<QueuedOperation>)
    ensures Dropping(ops, Acknowledged(ops, [])) == []
  {
    assert Contracts([]) == [];
    DroppingEverything(ops, Acknowledged(ops, []));
  }

  /**
    No reachable state is stuck: once the device is connected and signed in, at most ten further steps of
    the system itself, with no new write, drain the queue completely.
   */
  lemma QueueCanAlwaysDrain(s: System) returns (actions: seq<Action>, end: System)
    requires Reachable(s) && Inv(s)
    ensures TryActs(s, actions) == Some(end) && Run(end.trace).pending == [] && |actions| <= 10
  {
    var t := s;
    actions := [];
    ThenAct(s, actions, t, Connectivity(true));
    actions, t := actions + [Connectivity(true)], Act(t, Connectivity(true));
    ThenAct(s, actions, t, Auth(true));
    actions, t := actions + [Auth(true)], Act(t, Auth(true));
    actions, t := FinishReplay(s, actions, t);
    if Run(t.trace).pending != [] {
      if t.timers == 0 {
        ThenAct(s, actions, t, DeliverEnqueued);
        actions, t := actions + [DeliverEnqueued], Act(t, DeliverEnqueued);
      }
      ThenAct(s, actions, t, TimerFires(true));
      RunExtends(t.trace, TakeSnapshot(|t.trace|));
      AcknowledgingAllEmpties(Run(t.trace).pending);
      actions, t := actions + [TimerFires(true)], Act(t, TimerFires(true));
      actions, t := FinishReplay(s, actions, t);
    }
    end := t;
  }

  // ---------------------------------------------------------------- backoff

  /** What a step says about progress: a stalled replay, a reason to start counting anew, or nothing. */
  datatype Progress = Stalled | Reset | Neither

  function ProgressOf(before: System, a: Action): Progress
    requires Inv(before) && CanAct(before, a)
  {
    if a.Launch? then Reset
    else if !a.Report? then Neither
    else if before.worker.processed == 0 && Run(before.trace).pending != [] then Stalled
    else Reset
  }

  function ProgressAlong(s: System, actions: seq<Action>): (progress: seq<Progress>)
    requires Inv(s) && TryActs(s, actions).Some?
    ensures |progress| == |actions|
    decreases |actions|
  {
    if actions == [] then []
    else
      var n := |actions| - 1;
      PrefixPossible(s, actions);
      ProgressAlong(s, actions[..n]) + [ProgressOf(TryActs(s, actions[..n]).value, actions[n])]
  }

  function ProgressSinceFresh(actions: seq<Action>): seq<Progress>
    requires FromFresh(actions).Some?
  {
    FreshIsInv();
    ProgressAlong(FRESH, actions)
  }

  /** The stalled replays after which nothing started the count anew. */
  function StalledSinceReset(progress: seq<Progress>): set<nat> {
    set k: nat | k < |progress| && StillCounts(progress, k)
  }

  predicate StillCounts(progress: seq<Progress>, k: nat)
    requires k < |progress|
  {
    progress[k].Stalled? && forall j: nat :: k < j < |progress| ==> !progress[j].Reset?
  }

  lemma StalledAfterStep(progress: seq<Progress>, p: Progress)
    ensures StalledSinceReset(progress + [p])
            == if p.Reset? then {}
               else if p.Stalled? then StalledSinceReset(progress) + {|progress|}
               else StalledSinceReset(progress)
  {
    var n, longer := |progress|, progress + [p];
    assert longer[n] == p;
    forall k: nat | k < n
      ensures StillCounts(longer, k) <==> StillCounts(progress, k) && !p.Reset?
    {
      assert forall j: nat :: j < n ==> longer[j] == progress[j];
    }
    assert StillCounts(longer, n) <==> p.Stalled?;
  }

  lemma {:induction false} PrefixPossible(s: System, actions: seq<Action>)
    requires Inv(s) && TryActs(s, actions).Some? && actions != []
    ensures var n := |actions| - 1;
            && TryActs(s, actions[..n]).Some?
            && CanAct(TryActs(s, actions[..n]).value, actions[n])
            && TryActs(s, actions) == Some(Act(TryActs(s, actions[..n]).value, actions[n]))
    decreases |actions|
  {
    var n := |actions| - 1;
    if n == 0 {
      assert actions[..0] == [];
      ActKeepsInv(s, actions[0]);
      assert actions[1..] == [];
      assert TryActs(Act(s, actions[0]), []) == Some(Act(s, actions[0]));
    } else {
      ActKeepsInv(s, actions[0]);
      PrefixPossible(Act(s, actions[0]), actions[1..]);
      assert actions[1..][..n - 1] == actions[..n][1..];
    }
  }

  function Saturated(n: nat): nat { if n <= U32_MAX then n else U32_MAX }

  lemma CounterStep(s: System, a: Action)
    requires Inv(s) && CanAct(s, a)
    ensures var p := ProgressOf(s, a);
            Act(s, a).reducer.consecutiveFailures
            == if p.Reset? then 0
               else if p.Stalled? then SaturatingIncrement(s.reducer.consecutiveFailures)
               else s.reducer.consecutiveFailures
  {
  }

  /** The reducer's failure counter is the number of stalled replays since the last reset, up to the u32 limit. */
  lemma {:induction false} FailuresCountStalledReplays(actions: seq<Action>)
    requires FromFresh(actions).Some?
    ensures FromFresh(actions).value.reducer.consecutiveFailures
            == Saturated(|StalledSinceReset(ProgressSinceFresh(actions))|)
    decreases |actions|
  {
    FreshIsInv();
    if actions == [] {
      assert StalledSinceReset([]) == {};
    } else {
      var n := |actions| - 1;
      PrefixPossible(FRESH, actions);
      FailuresCountStalledReplays(actions[..n]);
      var before := FromFresh(actions[..n]).value;
      CounterStep(before, actions[n]);
      StalledAfterStep(ProgressSinceFresh(actions[..n]), ProgressOf(before, actions[n]));
      assert n !in StalledSinceReset(ProgressSinceFresh(actions[..n]));
    }
  }

  /** So the k-th stalled replay in a row waits for the k-th rung of the ladder, and 120 seconds from the sixth on. */
  lemma StalledReplayWaitsForItsRung(actions: seq<Action>)
    requires FromFresh(actions).Some?
    ensures var s := FromFresh(actions).value;
            var k := |StalledSinceReset(ProgressSinceFresh(actions))| + 1;
            s.worker == Reporting(0) && Run(s.trace).pending != [] && s.reducer.isConnected && s.reducer.isSignedIn ==>
              Reduce(s.reducer, OfflineQueueProcessed(0, true)).1
              == [Schedule(1000 * RECONNECT_BACKOFF_LADDER_SECS[if k <= 6 then k - 1 else 5])]
  {
    FailuresCountStalledReplays(actions);
  }
}
