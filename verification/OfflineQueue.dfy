/**
  Queued operations, the abstract queue that every implementation must behave like, and the
  in-memory implementation.
 */
module OfflineQueue {
  import opened Wrappers
  import opened Contract

  /** Payloads are opaque to the queue, so a string stands for the JSON text. */
  datatype QueuedOperationKind = Write(payload: string) | Tombstone(version: int) | HardDelete

  datatype QueuedOperation = QueuedOperation(
    table: string, entityId: string, kind: QueuedOperationKind, queuedAtMicros: int,
    retryCount: nat, lastError: Option<string>)
  {
    function ToContract(): ContractOperation { ContractOperation(table, entityId, queuedAtMicros) }

    function Key(): RowKey { RowKey(table, entityId) }

    /** The operation without its replay diagnostics. */
    function Core(): QueuedOperation { this.(retryCount := 0, lastError := None) }
  }

  function Contracts(ops: seq<QueuedOperation>): (contracts: seq<ContractOperation>)
    ensures |contracts| == |ops|
    ensures forall i :: 0 <= i < |ops| ==> contracts[i] == ops[i].ToContract()
  {
    seq(|ops|, i requires 0 <= i < |ops| => ops[i].ToContract())
  }

  function Cores(ops: seq<QueuedOperation>): (cores: seq<QueuedOperation>)
    ensures |cores| == |ops|
    ensures forall i :: 0 <= i < |ops| ==> cores[i] == ops[i].Core()
  {
    seq(|ops|, i requires 0 <= i < |ops| => ops[i].Core())
  }

  // ---------------------------------------------------------------- the abstract queue

  function Without(ops: seq<QueuedOperation>, key: RowKey): (rest: seq<QueuedOperation>)
    ensures forall op :: op in rest <==> op in ops && op.Key() != key
  {
    if ops == [] then []
    else
      var n := |ops| - 1;
      Without(ops[..n], key) + (if ops[n].Key() == key then [] else [ops[n]])
  }

  function Enqueued(ops: seq<QueuedOperation>, op: QueuedOperation): seq<QueuedOperation> {
    Without(ops, op.Key()) + [op]
  }

  /** The operations of a replayed snapshot that the replay did not report as failed. */
  function Acknowledged(snapshot: seq<QueuedOperation>, failed: seq<QueuedOperation>): set<ContractOperation> {
    set c | c in Contracts(snapshot) && c !in Contracts(failed)
  }

  function Dropping(ops: seq<QueuedOperation>, gone: set<ContractOperation>): (rest: seq<QueuedOperation>)
    ensures forall op :: op in rest <==> op in ops && op.ToContract() !in gone
  {
    if ops == [] then []
    else
      var n := |ops| - 1;
      Dropping(ops[..n], gone) + (if ops[n].ToContract() in gone then [] else [ops[n]])
  }

  predicate UniquelyKeyed(ops: seq<QueuedOperation>) {
    forall i, j :: 0 <= i < j < |ops| ==> ops[i].Key() != ops[j].Key()
  }

  predicate StrictlyStamped(ops: seq<QueuedOperation>) {
    forall i, j :: 0 <= i < j < |ops| ==> ops[i].queuedAtMicros < ops[j].queuedAtMicros
  }

  lemma AppendKeepsOrder(rest: seq<QueuedOperation>, ops: seq<QueuedOperation>, n: nat)
    requires n < |ops|
    requires forall op :: op in rest ==> op in ops[..n]
    ensures UniquelyKeyed(rest) && UniquelyKeyed(ops) ==> UniquelyKeyed(rest + [ops[n]])
    ensures StrictlyStamped(rest) && StrictlyStamped(ops) ==> StrictlyStamped(rest + [ops[n]])
  {
    forall i | 0 <= i < |rest|
      ensures UniquelyKeyed(ops) ==> rest[i].Key() != ops[n].Key()
      ensures StrictlyStamped(ops) ==> rest[i].queuedAtMicros < ops[n].queuedAtMicros
    {
      assert rest[i] in ops[..n];
    }
  }

  lemma {:induction false} WithoutKeepsOrder(ops: seq<QueuedOperation>, key: RowKey)
    ensures UniquelyKeyed(ops) ==> UniquelyKeyed(Without(ops, key))
    ensures StrictlyStamped(ops) ==> StrictlyStamped(Without(ops, key))
  {
    if ops != [] {
      var n := |ops| - 1;
      WithoutKeepsOrder(ops[..n], key);
      AppendKeepsOrder(Without(ops[..n], key), ops, n);
    }
  }

  lemma {:induction false} DroppingKeepsOrder(ops: seq<QueuedOperation>, gone: set<ContractOperation>)
    ensures UniquelyKeyed(ops) ==> UniquelyKeyed(Dropping(ops, gone))
    ensures StrictlyStamped(ops) ==> StrictlyStamped(Dropping(ops, gone))
  {
    if ops != [] {
      var n := |ops| - 1;
      DroppingKeepsOrder(ops[..n], gone);
      AppendKeepsOrder(Dropping(ops[..n], gone), ops, n);
    }
  }

  lemma {:induction false} CoresWithout(ops: seq<QueuedOperation>, key: RowKey)
    ensures Cores(Without(ops, key)) == Without(Cores(ops), key)
  {
    if ops != [] {
      var n := |ops| - 1;
      CoresWithout(ops[..n], key);
      assert Cores(ops)[..n] == Cores(ops[..n]);
    }
  }

  // ---------------------------------------------------------------- the in-memory queue

  function ErrorsByContract(failed: seq<QueuedOperation>): (errors: map<ContractOperation, Option<string>>)
    ensures forall c :: c in errors <==> c in Contracts(failed)
  {
    if failed == [] then map[]
    else
      var n := |failed| - 1;
      assert Contracts(failed) == Contracts(failed[..n]) + [failed[n].ToContract()];
      ErrorsByContract(failed[..n])[failed[n].ToContract() := failed[n].lastError]
  }

  function Retried(op: QueuedOperation, errors: map<ContractOperation, Option<string>>): QueuedOperation {
    if op.ToContract() in errors
    then op.(retryCount := SaturatingIncrement(op.retryCount), lastError := errors[op.ToContract()])
    else op
  }

  function RetainRetried(ops: seq<QueuedOperation>, retained: set<ContractOperation>,
                         errors: map<ContractOperation, Option<string>>): seq<QueuedOperation>
  {
    if ops == [] then []
    else
      var n := |ops| - 1;
      RetainRetried(ops[..n], retained, errors)
      + (if ops[n].ToContract() in retained then [Retried(ops[n], errors)] else [])
  }

  function RetainedSet(ops: seq<QueuedOperation>, snapshot: seq<QueuedOperation>,
                       failed: seq<QueuedOperation>): set<ContractOperation>
  {
    set c | c in Finalized(Contracts(ops), Contracts(snapshot), Contracts(failed))
  }

  function MemoryFinalized(ops: seq<QueuedOperation>, snapshot: seq<QueuedOperation>,
                           failed: seq<QueuedOperation>): seq<QueuedOperation>
  {
    RetainRetried(ops, RetainedSet(ops, snapshot, failed), ErrorsByContract(failed))
  }

  class MemoryQueue {
    var inner: seq<QueuedOperation>

    constructor ()
      ensures inner == []
    {
      inner := [];
    }

    method Enqueue(op: QueuedOperation)
      modifies this
      ensures inner == Enqueued(old(inner), op)
    {
      var kept := [];
      for i := 0 to |inner|
        invariant inner == old(inner)
        invariant kept == Without(inner[..i], op.Key())
      {
        assert inner[..i + 1][..i] == inner[..i];
        if !(inner[i].table == op.table && inner[i].entityId == op.entityId) {
          kept := kept + [inner[i]];
        }
      }
      assert inner[..|inner|] == inner;
      inner := kept + [op];
    }

    method Snapshot() returns (ops: seq<QueuedOperation>)
      ensures ops == inner
    {
      ops := inner;
    }

    method FinalizeAfterProcessing(snapshot: seq<QueuedOperation>, failed: seq<QueuedOperation>)
      modifies this
      ensures inner == MemoryFinalized(old(inner), snapshot, failed)
    {
      var retainedOps := FinalizeQueueAfterProcessing(Contracts(inner), Contracts(snapshot), Contracts(failed));
      var retained := set c | c in retainedOps;
      var errors := CollectErrors(failed);
      RetainMut(retained, errors);
    }

    /** Keeps the retained operations in their order, and counts a retry on those that failed. */
    method RetainMut(retained: set<ContractOperation>, errors: map<ContractOperation, Option<string>>)
      modifies this
      ensures inner == RetainRetried(old(inner), retained, errors)
    {
      var kept := [];
      for i := 0 to |inner|
        invariant inner == old(inner)
        invariant kept == RetainRetried(inner[..i], retained, errors)
      {
        assert inner[..i + 1][..i] == inner[..i];
        var op := inner[i];
        if op.ToContract() in retained {
          if op.ToContract() in errors {
            op := op.(retryCount := SaturatingIncrement(op.retryCount), lastError := errors[op.ToContract()]);
          }
          kept := kept + [op];
        }
      }
      assert inner[..|inner|] == inner;
      inner := kept;
    }

    method Depth() returns (depth: nat)
      ensures depth == |inner|
    {
      depth := |inner|;
    }
  }

  method CollectErrors(failed: seq<QueuedOperation>) returns (errors: map<ContractOperation, Option<string>>)
    ensures errors == ErrorsByContract(failed)
  {
    errors := map[];
    for i := 0 to |failed|
      invariant errors == ErrorsByContract(failed[..i])
    {
      assert failed[..i + 1][..i] == failed[..i];
      errors := errors[failed[i].ToContract() := failed[i].lastError];
    }
    assert failed[..|failed|] == failed;
  }

  /** Every failed operation was part of the replayed snapshot. */
  predicate FailedWithin(failed: seq<QueuedOperation>, snapshot: seq<QueuedOperation>) {
    forall c :: c in Contracts(failed) ==> c in Contracts(snapshot)
  }

  lemma UniqueContracts(ops: seq<QueuedOperation>)
    ensures UniquelyKeyed(ops) <==> UniqueKeys(Contracts(ops))
  {
    if UniqueKeys(Contracts(ops)) {
      forall i, j | 0 <= i < j < |ops| ensures ops[i].Key() != ops[j].Key() {
        assert Contracts(ops)[i].Key() != Contracts(ops)[j].Key();
      }
    }
  }

  /** What the contract retains, in terms of what a replay acknowledged. */
  lemma RetainedIffUnacknowledged(ops: seq<QueuedOperation>, snapshot: seq<QueuedOperation>,
                                  failed: seq<QueuedOperation>, c: ContractOperation)
    requires UniquelyKeyed(ops) && UniquelyKeyed(snapshot) && FailedWithin(failed, snapshot)
    requires c in Contracts(ops)
    ensures c in RetainedSet(ops, snapshot, failed) <==> c !in Acknowledged(snapshot, failed)
  {
    UniqueContracts(ops);
    UniqueContracts(snapshot);
    FinalizeKeepsExactly(Contracts(ops), Contracts(snapshot), Contracts(failed), c);
  }

  lemma {:induction false} RetainRetriedIsDropping(ops: seq<QueuedOperation>, retained: set<ContractOperation>,
                                                   errors: map<ContractOperation, Option<string>>,
                                                   gone: set<ContractOperation>)
    requires forall op :: op in ops ==> (op.ToContract() in retained <==> op.ToContract() !in gone)
    ensures Cores(RetainRetried(ops, retained, errors)) == Dropping(Cores(ops), gone)
  {
    if ops != [] {
      var n := |ops| - 1;
      RetainRetriedIsDropping(ops[..n], retained, errors, gone);
      var before := RetainRetried(ops[..n], retained, errors);
      assert Cores(ops)[..n] == Cores(ops[..n]);
      assert ops[n] in ops;
      assert Cores(before + [Retried(ops[n], errors)]) == Cores(before) + [ops[n].Core()];
    }
  }

  /** Finalizing the in-memory queue removes exactly the acknowledged operations, in place and in order. */
  lemma MemoryFinalizeDropsAcknowledged(ops: seq<QueuedOperation>, snapshot: seq<QueuedOperation>,
                                        failed: seq<QueuedOperation>)
    requires UniquelyKeyed(ops) && UniquelyKeyed(snapshot) && FailedWithin(failed, snapshot)
    ensures Cores(MemoryFinalized(ops, snapshot, failed)) == Dropping(Cores(ops), Acknowledged(snapshot, failed))
  {
    forall op | op in ops
      ensures op.ToContract() in RetainedSet(ops, snapshot, failed)
              <==> op.ToContract() !in Acknowledged(snapshot, failed)
    {
      RetainedIffUnacknowledged(ops, snapshot, failed, op.ToContract());
    }
    RetainRetriedIsDropping(ops, RetainedSet(ops, snapshot, failed), ErrorsByContract(failed),
                            Acknowledged(snapshot, failed));
  }
}
