/**
  The SQLite queue. The table is a map from primary key to row; a finalize reads the table, computes
  what to retain, and only then runs a transaction of per-row statements, so other writers can change
  the table between the two halves.
 */
module SqliteQueue {
  import opened Wrappers
  import opened Contract
  import opened OfflineQueue
  import opened Sequences
  import Ordering

  /** A row's retry column is a 64-bit integer, so it may exceed what an operation can carry. */
  type Rows = map<RowKey, QueuedOperation>

  ghost predicate WellKeyed(rows: Rows) {
    forall k :: k in rows ==> rows[k].Key() == k
  }

  function ReadBack(row: QueuedOperation): QueuedOperation {
    row.(retryCount := if row.retryCount <= U32_MAX then row.retryCount else 0)
  }

  // ---------------------------------------------------------------- the ordered SELECT

  predicate KeyLess(a: RowKey, b: RowKey) {
    Ordering.Less(a.table, b.table) || (a.table == b.table && Ordering.Less(a.entityId, b.entityId))
  }

  /** ORDER BY queued_at_micros, table_name, entity_id. */
  predicate RowLess(a: QueuedOperation, b: QueuedOperation) {
    a.queuedAtMicros < b.queuedAtMicros || (a.queuedAtMicros == b.queuedAtMicros && KeyLess(a.Key(), b.Key()))
  }

  lemma RowLessIrreflexive(a: QueuedOperation)
    ensures !RowLess(a, a)
  {
    Ordering.LessIrreflexive(a.table);
    Ordering.LessIrreflexive(a.entityId);
  }

  lemma RowLessTransitive(a: QueuedOperation, b: QueuedOperation, c: QueuedOperation)
    requires RowLess(a, b) && RowLess(b, c)
    ensures RowLess(a, c)
  {
    if Ordering.Less(a.table, b.table) && Ordering.Less(b.table, c.table) {
      Ordering.LessTransitive(a.table, b.table, c.table);
    }
    if Ordering.Less(a.entityId, b.entityId) && Ordering.Less(b.entityId, c.entityId) {
      Ordering.LessTransitive(a.entityId, b.entityId, c.entityId);
    }
  }

  lemma RowLessTotal(a: QueuedOperation, b: QueuedOperation)
    ensures RowLess(a, b) || RowLess(b, a) || (a.Key() == b.Key() && a.queuedAtMicros == b.queuedAtMicros)
  {
    Ordering.LessTotal(a.table, b.table);
    Ordering.LessTotal(a.entityId, b.entityId);
  }

  predicate SortedRows(ops: seq<QueuedOperation>) {
    forall i, j :: 0 <= i < j < |ops| ==> RowLess(ops[i], ops[j])
  }

  /** `ops` is what the ordered SELECT over `rows` returns. */
  ghost predicate Listing(ops: seq<QueuedOperation>, rows: Rows) {
    && SortedRows(ops)
    && (forall op :: op in ops ==> op.Key() in rows && op == ReadBack(rows[op.Key()]))
    && (forall k :: k in rows ==> ReadBack(rows[k]) in ops)
  }

  predicate IsFirst(rows: Rows, k: RowKey)
    requires k in rows
  {
    forall other :: other in rows && other != k ==> RowLess(rows[k], rows[other])
  }

  lemma {:induction false} FirstRowExists(rows: Rows)
    requires WellKeyed(rows) && rows != map[]
    ensures exists k :: k in rows && IsFirst(rows, k)
  {
    var other :| other in rows;
    var rest := rows - {other};
    assert forall o :: o in rows && o != other ==> o in rest;
    if rest == map[] {
      assert IsFirst(rows, other);
    } else {
      FirstRowExists(rest);
      var first :| first in rest && IsFirst(rest, first);
      RowLessTotal(rows[first], rows[other]);
      if RowLess(rows[first], rows[other]) {
        assert IsFirst(rows, first);
      } else {
        forall o | o in rest && o != first ensures RowLess(rows[other], rows[o]) {
          RowLessTransitive(rows[other], rows[first], rows[o]);
        }
        assert IsFirst(rows, other);
      }
    }
  }

  lemma FirstThenRestIsListing(rows: Rows, k: RowKey, rest: seq<QueuedOperation>)
    requires WellKeyed(rows) && k in rows && IsFirst(rows, k) && Listing(rest, rows - {k})
    ensures Listing([ReadBack(rows[k])] + rest, rows)
  {
    FirstComesBefore(rows, k);
    var ops := [ReadBack(rows[k])] + rest;
    forall i, j | 0 <= i < j < |ops| ensures RowLess(ops[i], ops[j]) {
      if i == 0 {
        assert rest[j - 1] in rest;
        var o := rest[j - 1].Key();
        assert RowLess(rows[k], rows[o]);
      } else {
        assert RowLess(rest[i - 1], rest[j - 1]);
      }
    }
    forall o | o in rows ensures ReadBack(rows[o]) in ops {
      assert o == k || o in rows - {k};
    }
  }

  /** The rows in SELECT order. */
  ghost function ListingOf(rows: Rows): (ops: seq<QueuedOperation>)
    requires WellKeyed(rows)
    ensures Listing(ops, rows)
  {
    if rows == map[] then []
    else
      FirstRowExists(rows);
      var k :| k in rows && IsFirst(rows, k);
      var rest := ListingOf(rows - {k});
      FirstThenRestIsListing(rows, k, rest);
      [ReadBack(rows[k])] + rest
  }

  lemma ListingStartsWithFirst(rows: Rows, k: RowKey)
    requires WellKeyed(rows) && k in rows && IsFirst(rows, k)
    ensures ListingOf(rows) == [ReadBack(rows[k])] + ListingOf(rows - {k})
  {
    FirstThenRestIsListing(rows, k, ListingOf(rows - {k}));
    ListingIsDetermined([ReadBack(rows[k])] + ListingOf(rows - {k}), ListingOf(rows), rows);
  }

  lemma ListingIsDetermined(a: seq<QueuedOperation>, b: seq<QueuedOperation>, rows: Rows)
    requires Listing(a, rows) && Listing(b, rows)
    ensures a == b
  {
    SortedRowsAreDetermined(a, b);
  }

  lemma SortedTail(a: seq<QueuedOperation>, first: QueuedOperation)
    requires SortedRows(a) && a != [] && a[0] == first
    ensures SortedRows(a[1..])
    ensures forall op :: op in a[1..] <==> op in a && op != first
  {
    RowLessIrreflexive(first);
    assert a == [a[0]] + a[1..];
    forall op | op in a[1..] ensures op != first {
      var i :| 0 <= i < |a[1..]| && a[1..][i] == op;
      assert RowLess(a[0], a[i + 1]);
    }
  }

  lemma {:induction false} SortedRowsAreDetermined(a: seq<QueuedOperation>, b: seq<QueuedOperation>)
    requires SortedRows(a) && SortedRows(b)
    requires forall op :: op in a <==> op in b
    ensures a == b
  {
    assert a != [] ==> a[0] in b;
    assert b != [] ==> b[0] in a;
    if a != [] {
      var i :| 0 <= i < |b| && b[i] == a[0];
      var j :| 0 <= j < |a| && a[j] == b[0];
      RowLessIrreflexive(a[0]);
      if i > 0 && j > 0 {
        RowLessTransitive(a[0], b[0], a[0]);
      }
      assert a[0] == b[0];
      SortedTail(a, a[0]);
      SortedTail(b, a[0]);
      SortedRowsAreDetermined(a[1..], b[1..]);
    }
  }

  lemma FirstComesBefore(rows: Rows, k: RowKey)
    requires k in rows && IsFirst(rows, k)
    ensures forall o :: o in rows && o != k ==> RowLess(ReadBack(rows[k]), rows[o])
    ensures forall op: QueuedOperation :: RowLess(op, rows[k]) <==> RowLess(op, ReadBack(rows[k]))
  {
    forall o | o in rows && o != k ensures RowLess(ReadBack(rows[k]), rows[o]) {
      assert RowLess(rows[k], rows[o]);
    }
  }

  lemma ListingIsUniquelyKeyed(ops: seq<QueuedOperation>, rows: Rows)
    requires Listing(ops, rows)
    ensures UniquelyKeyed(ops)
  {
    forall i, j | 0 <= i < j < |ops| ensures ops[i].Key() != ops[j].Key() {
      assert ops[i] in ops && ops[j] in ops;
      if ops[i].Key() == ops[j].Key() {
        RowLessIrreflexive(ops[i]);
      }
    }
  }

  // ---------------------------------------------------------------- finalize as two steps

  /** What the read half of a finalize hands to its transaction. */
  datatype FinalizePlan = FinalizePlan(
    current: seq<QueuedOperation>, retained: set<ContractOperation>,
    errors: map<ContractOperation, Option<string>>)

  function PlanFinalize(current: seq<QueuedOperation>, snapshot: seq<QueuedOperation>,
                        failed: seq<QueuedOperation>): FinalizePlan
  {
    FinalizePlan(current, RetainedSet(current, snapshot, failed), ErrorsByContract(failed))
  }

  /** Whether a statement guarded by all three columns of `c` touches a row. */
  predicate Matches(rows: Rows, c: ContractOperation) {
    c.Key() in rows && rows[c.Key()].queuedAtMicros == c.queuedAtMicros
  }

  function Bumped(row: QueuedOperation, lastError: Option<string>): QueuedOperation {
    row.(retryCount := row.retryCount + 1, lastError := lastError)
  }

  function CommitRow(rows: Rows, op: QueuedOperation, plan: FinalizePlan): Rows {
    var c := op.ToContract();
    if !Matches(rows, c) then rows
    else if c !in plan.retained then rows - {c.Key()}
    else if c in plan.errors then rows[c.Key() := Bumped(rows[c.Key()], plan.errors[c])]
    else rows
  }

  function CommitRows(rows: Rows, current: seq<QueuedOperation>, plan: FinalizePlan): Rows {
    if current == [] then rows
    else
      var n := |current| - 1;
      CommitRow(CommitRows(rows, current[..n], plan), current[n], plan)
  }

  method PickFirst(rows: Rows) returns (k: RowKey)
    requires WellKeyed(rows) && rows != map[]
    ensures k in rows && IsFirst(rows, k)
    ensures WellKeyed(rows - {k}) && (rows - {k}).Keys < rows.Keys
    ensures ListingOf(rows) == [ReadBack(rows[k])] + ListingOf(rows - {k})
  {
    FirstRowExists(rows);
    k :| k in rows && IsFirst(rows, k);
    ListingStartsWithFirst(rows, k);
    assert k !in rows - {k};
  }

  /** The engine's ordered SELECT, as a selection sort. */
  method SelectOrdered(rows: Rows) returns (ops: seq<QueuedOperation>)
    requires WellKeyed(rows)
    ensures ops == ListingOf(rows)
  {
    ops := [];
    var rest := rows;
    while rest != map[]
      invariant WellKeyed(rest)
      invariant ops + ListingOf(rest) == ListingOf(rows)
      decreases rest.Keys
    {
      var k := PickFirst(rest);
      var row := ReadBack(rest[k]);
      ConcatAssociative(ops, [row], ListingOf(rest - {k}));
      ops := ops + [row];
      rest := rest - {k};
    }
  }

  class SqliteOfflineQueue {
    var rows: Rows

    constructor ()
      ensures rows == map[]
    {
      rows := map[];
    }

    /** INSERT OR REPLACE on the primary key. */
    method Enqueue(op: QueuedOperation)
      modifies this
      ensures rows == old(rows)[op.Key() := op]
      ensures old(WellKeyed(rows)) ==> WellKeyed(rows)
    {
      rows := rows[op.Key() := op];
    }

    method Snapshot() returns (ops: seq<QueuedOperation>)
      requires WellKeyed(rows)
      ensures ops == ListingOf(rows)
    {
      ops := SelectOrdered(rows);
    }

    method FinalizeRead(snapshot: seq<QueuedOperation>, failed: seq<QueuedOperation>) returns (plan: FinalizePlan)
      requires WellKeyed(rows)
      ensures plan == PlanFinalize(ListingOf(rows), snapshot, failed)
    {
      var current := Snapshot();
      var retainedOps := FinalizeQueueAfterProcessing(Contracts(current), Contracts(snapshot), Contracts(failed));
      var retained := set c | c in retainedOps;
      var errors := CollectErrors(failed);
      plan := FinalizePlan(current, retained, errors);
    }

    method FinalizeCommit(plan: FinalizePlan)
      modifies this
      ensures rows == CommitRows(old(rows), plan.current, plan)
    {
      for i := 0 to |plan.current|
        invariant rows == CommitRows(old(rows), plan.current[..i], plan)
      {
        assert plan.current[..i + 1][..i] == plan.current[..i];
        var c := plan.current[i].ToContract();
        if c !in plan.retained {
          if Matches(rows, c) {
            rows := rows - {c.Key()};
          }
        } else if c in plan.errors && Matches(rows, c) {
          rows := rows[c.Key() := Bumped(rows[c.Key()], plan.errors[c])];
        }
      }
      assert plan.current[..|plan.current|] == plan.current;
    }

    method FinalizeAfterProcessing(snapshot: seq<QueuedOperation>, failed: seq<QueuedOperation>)
      requires WellKeyed(rows)
      modifies this
      ensures var plan := PlanFinalize(ListingOf(old(rows)), snapshot, failed);
              rows == CommitRows(old(rows), plan.current, plan)
    {
      var plan := FinalizeRead(snapshot, failed);
      FinalizeCommit(plan);
    }

    method Depth() returns (depth: nat)
      ensures depth == |rows|
    {
      depth := |rows|;
    }
  }

  /** The row of key `k` after the transaction, in terms of what was read and what is there now. */
  predicate CommittedRow(rows: Rows, after: Rows, current: seq<QueuedOperation>, plan: FinalizePlan, k: RowKey) {
    if k !in rows then k !in after
    else
      var c := rows[k].ToContract();
      if c !in Contracts(current) then k in after && after[k] == rows[k]
      else if c !in plan.retained then k !in after
      else if c in plan.errors then k in after && after[k] == Bumped(rows[k], plan.errors[c])
      else k in after && after[k] == rows[k]
  }

  lemma CommitRowKeepsOtherKeys(rows: Rows, op: QueuedOperation, plan: FinalizePlan, k: RowKey)
    requires k != op.Key()
    ensures var after := CommitRow(rows, op, plan);
            (k in after <==> k in rows) && (k in rows ==> after[k] == rows[k])
  {
  }

  lemma {:induction false} CommitKeepsUnreadKeys(rows: Rows, current: seq<QueuedOperation>, plan: FinalizePlan,
                                                 k: RowKey)
    requires forall op :: op in current ==> op.Key() != k
    ensures var after := CommitRows(rows, current, plan);
            (k in after <==> k in rows) && (k in rows ==> after[k] == rows[k])
  {
    if current != [] {
      var n := |current| - 1;
      CommitKeepsUnreadKeys(rows, current[..n], plan, k);
      CommitRowKeepsOtherKeys(CommitRows(rows, current[..n], plan), current[n], plan, k);
    }
  }

  /**
    What the transaction does to the row of key `k`, whatever happened to the table since the read:
    the row goes exactly when the very operation that was read is not retained, it is bumped exactly
    once when the very operation that was read failed, and every other row is left alone.
   */
  lemma {:induction false} CommitRowsAt(rows: Rows, current: seq<QueuedOperation>, plan: FinalizePlan, k: RowKey)
    requires WellKeyed(rows) && UniquelyKeyed(current)
    ensures CommittedRow(rows, CommitRows(rows, current, plan), current, plan, k)
  {
    if current == [] {
      assert Contracts(current) == [];
    } else {
      var n := |current| - 1;
      var c := current[n].ToContract();
      var before := CommitRows(rows, current[..n], plan);
      assert Contracts(current) == Contracts(current[..n]) + [c];
      if k == c.Key() {
        CommitKeepsUnreadKeys(rows, current[..n], plan, k);
        forall d | d in Contracts(current[..n]) ensures d.Key() != k {
        }
      } else {
        CommitRowsAt(rows, current[..n], plan, k);
        CommitRowKeepsOtherKeys(before, current[n], plan, k);
      }
    }
  }

  /**
    A transaction that runs after any number of other writers' changes never deletes or bumps a row whose
    operation was not in the replayed snapshot.
   */
  lemma FinalizeNeverTouchesOtherOperations(before: Rows, now: Rows, snapshot: seq<QueuedOperation>,
                                            failed: seq<QueuedOperation>, k: RowKey)
    requires WellKeyed(before) && WellKeyed(now) && k in now
    requires UniquelyKeyed(snapshot) && FailedWithin(failed, snapshot)
    requires now[k].ToContract() !in Contracts(snapshot)
    ensures var after := CommitRows(now, ListingOf(before), PlanFinalize(ListingOf(before), snapshot, failed));
            k in after && after[k] == now[k]
  {
    var current := ListingOf(before);
    ListingIsUniquelyKeyed(current, before);
    var plan := PlanFinalize(current, snapshot, failed);
    var c := now[k].ToContract();
    CommitRowsAt(now, current, plan, k);
    if c in Contracts(current) {
      RetainedIffUnacknowledged(current, snapshot, failed, c);
    }
    assert c !in plan.errors;
  }
}
