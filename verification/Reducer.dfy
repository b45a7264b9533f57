/** The pure scheduling state machine: events in, schedule effects out, gated on four flags. */
module Reducer {
  import opened Contract

  datatype ReducerState = ReducerState(
    isConnected: bool, isSignedIn: bool, isProcessing: bool, hasPending: bool, consecutiveFailures: nat)

  const INITIAL := ReducerState(true, true, false, false, 0)

  datatype ReducerEvent =
    | AppLaunched(pending: bool)
    | ConnectivityChanged(connected: bool)
    | AuthStateChanged(signedIn: bool)
    | OfflineOperationEnqueued
    | OfflineQueueProcessingStarted
    | OfflineQueueProcessed(processedCount: nat, stillHasPending: bool)

  datatype ReducerEffect = Schedule(delayMs: nat) | ProcessNow

  function Reduce(state: ReducerState, event: ReducerEvent): (ReducerState, seq<ReducerEffect>) {
    match event
    case AppLaunched(pending) =>
      var next := state.(hasPending := pending);
      if !pending || !next.isConnected || !next.isSignedIn || next.isProcessing then (next, [])
      else (next, [Schedule(0)])
    case ConnectivityChanged(connected) =>
      var next := state.(isConnected := connected);
      if !connected || state.isConnected then (next, [])
      else if !next.hasPending || !next.isSignedIn || next.isProcessing then (next, [])
      else (next, [Schedule(RECONNECT_DEBOUNCE_MS)])
    case AuthStateChanged(signedIn) =>
      var next := state.(isSignedIn := signedIn);
      if !signedIn || state.isSignedIn then (next, [])
      else if !next.hasPending || !next.isConnected || next.isProcessing then (next, [])
      else (next, [Schedule(0)])
    case OfflineOperationEnqueued =>
      var next := state.(hasPending := true);
      if !next.isConnected || !next.isSignedIn || next.isProcessing then (next, [])
      else (next, [Schedule(ENQUEUE_COALESCE_MS)])
    case OfflineQueueProcessingStarted =>
      (state.(isProcessing := true), [])
    case OfflineQueueProcessed(processedCount, stillHasPending) =>
      var next := state.(isProcessing := false, hasPending := stillHasPending);
      if !stillHasPending then (next.(consecutiveFailures := 0), [])
      else
        var counted := next.(consecutiveFailures :=
                               if processedCount > 0 then 0 else SaturatingIncrement(next.consecutiveFailures));
        if !counted.isConnected || !counted.isSignedIn then (counted, [])
        else if processedCount > 0 then (counted, [Schedule(FORWARD_PROGRESS_RETRY_MS)])
        else (counted, [Schedule(1000 * ReconnectBackoffSeconds(counted.consecutiveFailures))])
  }

  predicate GatesOpen(state: ReducerState) {
    state.isConnected && state.isSignedIn && !state.isProcessing
  }

  /**
    The gate cascade in both directions: a schedule leaves only an open state with work pending, and a step
    that opens the gates on pending work, or hands work to open gates, always leaves one. Only the two
    events that carry no news may pass silently: a repeated flag, and the start of a replay.
   */
  lemma EffectsHonorGates(state: ReducerState, event: ReducerEvent)
    ensures var (next, effects) := Reduce(state, event);
            && (effects != [] ==> GatesOpen(next) && next.hasPending && |effects| == 1 && effects[0].Schedule?)
            && (GatesOpen(next) && next.hasPending && effects == [] ==>
                  GatesOpen(state) && state.hasPending && (event.ConnectivityChanged? || event.AuthStateChanged?))
  {
  }
}
