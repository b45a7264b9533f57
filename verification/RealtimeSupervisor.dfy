/**
  The realtime supervisor's loop: connect, run the session, back off, reconnect. What the world answers in
  each turn of the loop is a parameter; jitter is left to the caller, so delays are those before jitter.
 */
module RealtimeSupervisor {
  import opened Contract

  datatype DisconnectReason = ChannelClosed | WebsocketError | HeartbeatTimeout | LivenessTimeout | Manual

  datatype LifecycleEvent = Connected | Disconnected(reason: DisconnectReason) | Reconnected

  datatype Config = Config(initialReconnectDelay: nat, backoffLadder: seq<nat>)

  /** `stop` says whether shutdown was signalled during the sleep that ends the turn. */
  datatype Turn =
    | ShutDown
    | NoSession(stop: bool)
    | RefreshError(stop: bool)
    | ConnectError(stop: bool)
    | SessionRan(reason: DisconnectReason, stop: bool)

  const FALLBACK_DELAY_MS: nat := 30000

  /** Delay before jitter for the n-th consecutive failure, zero meaning the first reconnect attempt. */
  function BaseDelay(failures: nat, config: Config): nat {
    if failures == 0 then config.initialReconnectDelay
    else if config.backoffLadder == [] then FALLBACK_DELAY_MS
    else
      var last := |config.backoffLadder| - 1;
      config.backoffLadder[if failures - 1 < last then failures - 1 else last]
  }

  datatype Log = Log(events: seq<LifecycleEvent>, delays: seq<nat>, failures: nat, hadConnection: bool, stopped: bool)

  const NEW_LOG := Log([], [], 0, false, false)

  function Slept(log: Log, failures: nat, config: Config, stop: bool): Log {
    log.(delays := log.delays + [BaseDelay(failures, config)], stopped := stop)
  }

  /** One turn of the loop. */
  function TakeTurn(log: Log, turn: Turn, config: Config): Log {
    match turn
    case ShutDown => log.(stopped := true)
    case NoSession(stop) =>
      var next := Slept(log, log.failures, config, stop);
      if stop then next else next.(failures := SaturatingIncrement(log.failures))
    case RefreshError(stop) =>
      var next := Slept(log, log.failures, config, stop);
      if stop then next else next.(failures := SaturatingIncrement(log.failures))
    case ConnectError(stop) =>
      var failures := SaturatingIncrement(log.failures);
      Slept(log.(failures := failures), failures, config, stop)
    case SessionRan(reason, stop) =>
      var up := if log.hadConnection then Reconnected else Connected;
      var next := log.(events := log.events + [up, Disconnected(reason)], failures := 0, hadConnection := true);
      if reason == Manual then next.(stopped := true) else Slept(next, 0, config, stop)
  }

  function Turns(turns: seq<Turn>, config: Config): Log {
    if turns == [] then NEW_LOG
    else
      var n := |turns| - 1;
      var log := Turns(turns[..n], config);
      if log.stopped then log else TakeTurn(log, turns[n], config)
  }

  method Run(turns: seq<Turn>, config: Config) returns (log: Log)
    ensures log == Turns(turns, config)
  {
    var events: seq<LifecycleEvent>, delays: seq<nat> := [], [];
    var failures: nat := 0;
    var hadConnection, stopped := false, false;
    for i := 0 to |turns|
      invariant Log(events, delays, failures, hadConnection, stopped) == Turns(turns[..i], config)
    {
      assert turns[..i + 1][..i] == turns[..i];
      if !stopped {
        match turns[i] {
          case ShutDown =>
            stopped := true;
          case NoSession(stop) =>
            delays := delays + [BaseDelay(failures, config)];
            stopped := stop;
            if !stop {
              failures := SaturatingIncrement(failures);
            }
          case RefreshError(stop) =>
            delays := delays + [BaseDelay(failures, config)];
            stopped := stop;
            if !stop {
              failures := SaturatingIncrement(failures);
            }
          case ConnectError(stop) =>
            failures := SaturatingIncrement(failures);
            delays := delays + [BaseDelay(failures, config)];
            stopped := stop;
          case SessionRan(reason, stop) =>
            failures := 0;
            events := events + [if hadConnection then Reconnected else Connected, Disconnected(reason)];
            hadConnection := true;
            if reason == Manual {
              stopped := true;
            } else {
              delays := delays + [BaseDelay(failures, config)];
              stopped := stop;
            }
        }
      }
    }
    assert turns[..|turns|] == turns;
    log := Log(events, delays, failures, hadConnection, stopped);
  }

  // ---------------------------------------------------------------- the shape of a lifecycle

  /** Connected Disconnected (Reconnected Disconnected)*, cut anywhere; a manual disconnect ends it. */
  predicate LifecycleShape(events: seq<LifecycleEvent>) {
    forall i :: 0 <= i < |events| ==>
      && (i % 2 == 0 ==> events[i] == if i == 0 then Connected else Reconnected)
      && (i % 2 == 1 ==> events[i].Disconnected? && (events[i].reason == Manual ==> i == |events| - 1))
  }

  predicate EndedManually(events: seq<LifecycleEvent>) {
    events != [] && events[|events| - 1] == Disconnected(Manual)
  }

  lemma SessionExtendsShape(events: seq<LifecycleEvent>, reason: DisconnectReason)
    requires LifecycleShape(events) && |events| % 2 == 0 && !EndedManually(events)
    ensures LifecycleShape(events + [if events == [] then Connected else Reconnected, Disconnected(reason)])
  {
    var n := |events|;
    var longer := events + [if events == [] then Connected else Reconnected, Disconnected(reason)];
    forall i | 0 <= i < n && i % 2 == 1 ensures longer[i].Disconnected? && longer[i].reason != Manual {
      assert longer[i] == events[i];
    }
  }

  /** Every run emits a lifecycle of that shape. */
  lemma {:induction false} LifecycleHasShape(turns: seq<Turn>, config: Config)
    ensures var log := Turns(turns, config);
            && LifecycleShape(log.events)
            && |log.events| % 2 == 0 && (log.hadConnection <==> log.events != [])
            && (EndedManually(log.events) ==> log.stopped)
  {
    if turns != [] {
      var n := |turns| - 1;
      LifecycleHasShape(turns[..n], config);
      if turns[n].SessionRan? && !Turns(turns[..n], config).stopped {
        SessionExtendsShape(Turns(turns[..n], config).events, turns[n].reason);
      }
    }
  }

  /** And so does everything a subscriber has seen up to any moment. */
  lemma PrefixHasShape(events: seq<LifecycleEvent>, n: nat)
    requires LifecycleShape(events) && n <= |events|
    ensures LifecycleShape(events[..n])
  {
    forall i | 0 <= i < n && i % 2 == 1 && events[i].Disconnected? && events[i].reason == Manual
      ensures i == n - 1
    {
      assert i == |events| - 1;
    }
  }

  // ---------------------------------------------------------------- which rung a delay comes from

  predicate Fails(turn: Turn) { turn.NoSession? || turn.RefreshError? || turn.ConnectError? }

  /** Failed turns since the last session, or since the start. */
  function FailuresInARow(turns: seq<Turn>): nat {
    if turns == [] then 0
    else if Fails(turns[|turns| - 1]) then 1 + FailuresInARow(turns[..|turns| - 1])
    else 0
  }

  predicate KeepsRunning(turn: Turn) {
    !turn.ShutDown? && !turn.stop && !(turn.SessionRan? && turn.reason == Manual)
  }

  lemma {:induction false} CounterIsFailuresInARow(turns: seq<Turn>, config: Config)
    requires forall i :: 0 <= i < |turns| ==> KeepsRunning(turns[i])
    requires |turns| <= U32_MAX
    ensures var log := Turns(turns, config);
            !log.stopped && log.failures == FailuresInARow(turns) <= |turns| && |log.delays| == |turns|
  {
    if turns != [] {
      CounterIsFailuresInARow(turns[..|turns| - 1], config);
    }
  }

  /**
    The delay that ends turn k: the initial delay after a session; after k failures in a row, counting the
    turn itself only if it was the connect that failed, the rung for that many failures.
   */
  lemma DelayIsTheRung(turns: seq<Turn>, k: nat, config: Config)
    requires forall i :: 0 <= i < |turns| ==> KeepsRunning(turns[i])
    requires |turns| <= U32_MAX && k < |turns|
    ensures |Turns(turns[..k + 1], config).delays| == k + 1
    ensures Turns(turns[..k + 1], config).delays[k]
            == BaseDelay(if turns[k].SessionRan? then 0
                         else if turns[k].ConnectError? then FailuresInARow(turns[..k]) + 1
                         else FailuresInARow(turns[..k]), config)
  {
    CounterIsFailuresInARow(turns[..k], config);
    CounterIsFailuresInARow(turns[..k + 1], config);
    assert turns[..k + 1][..k] == turns[..k];
  }
}
