/**
  The frozen rules every other module relies on: version arithmetic, the reconcile decision for one
  row, the replay backoff ladder, and the rule that finalizes an offline queue after a replay.
 */
module Contract {
  import opened Wrappers

  const INITIAL_VERSION: int := 1
  const STANDARD_MUTATION_VERSION_STEP: int := 1
  const UNDELETE_VERSION_DELTA: int := 1000
  const MONOTONIC_QUEUE_TIMESTAMP_BUMP_MICROS: int := 1
  const RECONNECT_DEBOUNCE_MS: nat := 2000
  const ENQUEUE_COALESCE_MS: nat := 250
  const FORWARD_PROGRESS_RETRY_MS: nat := 100
  const RECONNECT_BACKOFF_LADDER_SECS: seq<nat> := [2, 5, 10, 30, 60, 120]

  const U32_MAX: nat := 0xFFFF_FFFF
  const I64_MAX: int := 0x7FFF_FFFF_FFFF_FFFF

  function SaturatingIncrement(n: nat): nat {
    if n < U32_MAX then n + 1 else n
  }

  // ---------------------------------------------------------------- versions

  function UndeleteMinimumVersion(remoteVersion: int): int {
    remoteVersion + UNDELETE_VERSION_DELTA
  }

  /** The version a push writes when the local row wins. */
  function LocalWinnerMergedVersion(localVersion: int, remoteVersion: int): (merged: int)
    ensures merged > localVersion && merged > remoteVersion
    ensures merged - 1 == localVersion || merged - 1 == remoteVersion
  {
    if localVersion >= remoteVersion
    then localVersion + STANDARD_MUTATION_VERSION_STEP
    else remoteVersion + STANDARD_MUTATION_VERSION_STEP
  }

  datatype ReconcileAction = AdoptTombstone | Pull | Push | Skip

  function DetermineReconcileAction(localVersion: int, localDeleted: bool,
                                    remoteVersion: int, remoteDeleted: bool): ReconcileAction
  {
    if remoteDeleted && !localDeleted then
      if localVersion >= UndeleteMinimumVersion(remoteVersion) then Push else AdoptTombstone
    else if localDeleted && !remoteDeleted then Push
    else if remoteVersion > localVersion then Pull
    else if localVersion > remoteVersion then Push
    else Skip
  }

  // ---------------------------------------------------------------- clocks and backoff

  function NextQueuedAtMicros(last: Option<int>, candidate: int): int {
    if last.Some? && candidate <= last.value
    then last.value + MONOTONIC_QUEUE_TIMESTAMP_BUMP_MICROS
    else candidate
  }

  /** The ladder entry for the n-th consecutive failure; zero failures read the first rung. */
  function ReconnectBackoffSeconds(consecutiveFailures: nat): nat {
    var index := if consecutiveFailures == 0 then 0 else consecutiveFailures - 1;
    var last := |RECONNECT_BACKOFF_LADDER_SECS| - 1;
    RECONNECT_BACKOFF_LADDER_SECS[if index > last then last else index]
  }

  // ---------------------------------------------------------------- finalizing a queue

  datatype RowKey = RowKey(table: string, entityId: string)

  /** A queued operation reduced to what the dedupe and finalize rules look at. */
  datatype ContractOperation = ContractOperation(table: string, entityId: string, queuedAtMicros: int) {
    function Key(): RowKey { RowKey(table, entityId) }
  }

  predicate UniqueKeys(ops: seq<ContractOperation>) {
    forall i, j :: 0 <= i < j < |ops| ==> ops[i].Key() != ops[j].Key()
  }

  /** Stamp of each key in a snapshot; a repeated key keeps its last stamp. */
  function StampsByKey(snapshot: seq<ContractOperation>): (stamps: map<RowKey, int>)
    ensures forall k :: k in stamps ==> ContractOperation(k.table, k.entityId, stamps[k]) in snapshot
    ensures forall op :: op in snapshot ==> op.Key() in stamps
  {
    if snapshot == [] then map[]
    else
      var n := |snapshot| - 1;
      StampsByKey(snapshot[..n])[snapshot[n].Key() := snapshot[n].queuedAtMicros]
  }

  predicate Completed(op: ContractOperation, stamps: map<RowKey, int>) {
    op.Key() in stamps && stamps[op.Key()] == op.queuedAtMicros
  }

  /** The part of `current` the snapshot does not name with the same stamp. */
  function Outside(current: seq<ContractOperation>, stamps: map<RowKey, int>): (kept: seq<ContractOperation>)
    ensures forall op :: op in kept <==> op in current && !Completed(op, stamps)
  {
    if current == [] then []
    else
      var n := |current| - 1;
      Outside(current[..n], stamps) + (if Completed(current[n], stamps) then [] else [current[n]])
  }

  function KeysOf(ops: seq<ContractOperation>): set<RowKey> {
    set op | op in ops :: op.Key()
  }

  /** Appends each failed operation whose key is not taken yet. */
  function WithFailed(kept: seq<ContractOperation>, failed: seq<ContractOperation>): (result: seq<ContractOperation>)
    ensures forall op :: op in result ==> op in kept || (op in failed && op.Key() !in KeysOf(kept))
    ensures forall op :: op in kept ==> op in result
    ensures forall op :: op in failed ==> op.Key() in KeysOf(result)
  {
    if failed == [] then kept
    else
      var n := |failed| - 1;
      var before := WithFailed(kept, failed[..n]);
      if failed[n].Key() in KeysOf(before) then before else before + [failed[n]]
  }

  function Finalized(current: seq<ContractOperation>, snapshot: seq<ContractOperation>,
                     failed: seq<ContractOperation>): seq<ContractOperation>
  {
    WithFailed(Outside(current, StampsByKey(snapshot)), failed)
  }

  method CollectStamps(snapshot: seq<ContractOperation>) returns (stamps: map<RowKey, int>)
    ensures stamps == StampsByKey(snapshot)
  {
    stamps := map[];
    for i := 0 to |snapshot|
      invariant stamps == StampsByKey(snapshot[..i])
    {
      assert snapshot[..i + 1][..i] == snapshot[..i];
      stamps := stamps[snapshot[i].Key() := snapshot[i].queuedAtMicros];
    }
    assert snapshot[..|snapshot|] == snapshot;
  }

  method FilterOutside(current: seq<ContractOperation>, stamps: map<RowKey, int>)
    returns (kept: seq<ContractOperation>)
    ensures kept == Outside(current, stamps)
  {
    kept := [];
    for i := 0 to |current|
      invariant kept == Outside(current[..i], stamps)
    {
      assert current[..i + 1][..i] == current[..i];
      if !Completed(current[i], stamps) {
        kept := kept + [current[i]];
      }
    }
    assert current[..|current|] == current;
  }

  method FinalizeQueueAfterProcessing(current: seq<ContractOperation>, snapshot: seq<ContractOperation>,
                                      failed: seq<ContractOperation>) returns (retained: seq<ContractOperation>)
    ensures retained == Finalized(current, snapshot, failed)
  {
    var stamps := CollectStamps(snapshot);
    var kept := FilterOutside(current, stamps);
    retained := kept;
    var retainedKeys := KeysOf(kept);
    for i := 0 to |failed|
      invariant retained == WithFailed(kept, failed[..i])
      invariant retainedKeys == KeysOf(retained)
    {
      assert failed[..i + 1][..i] == failed[..i];
      if failed[i].Key() !in retainedKeys {
        retained := retained + [failed[i]];
        retainedKeys := retainedKeys + {failed[i].Key()};
      }
    }
    assert failed[..|failed|] == failed;
  }

  lemma UniqueKeysDetermine(ops: seq<ContractOperation>, a: ContractOperation, b: ContractOperation)
    requires UniqueKeys(ops) && a in ops && b in ops && a.Key() == b.Key()
    ensures a == b
  {
    var i :| 0 <= i < |ops| && ops[i] == a;
    var j :| 0 <= j < |ops| && ops[j] == b;
  }

  /**
    The finalize rule, as the queue contract promises it: of the operations now queued, exactly those
    survive that the replayed snapshot did not contain, or that it contained and reported as failed.
   */
  lemma FinalizeKeepsExactly(current: seq<ContractOperation>, snapshot: seq<ContractOperation>,
                             failed: seq<ContractOperation>, op: ContractOperation)
    requires UniqueKeys(current) && UniqueKeys(snapshot)
    requires forall f :: f in failed ==> f in snapshot
    requires op in current
    ensures op in Finalized(current, snapshot, failed) <==> op !in snapshot || op in failed
  {
    var stamps := StampsByKey(snapshot);
    var kept := Outside(current, stamps);
    if op in snapshot {
      var named := ContractOperation(op.table, op.entityId, stamps[op.Key()]);
      UniqueKeysDetermine(snapshot, op, named);
      if op in failed {
        var result := Finalized(current, snapshot, failed);
        assert op.Key() in KeysOf(result);
        var twin :| twin in result && twin.Key() == op.Key();
        if twin in kept {
          UniqueKeysDetermine(current, op, twin);
        } else {
          UniqueKeysDetermine(snapshot, op, twin);
        }
      }
    }
  }
}
