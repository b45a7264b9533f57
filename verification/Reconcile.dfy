/**
  One row, any number of replicas, one server. A replica reconciles by deciding on (version, deleted) and
  carrying the decision out; a push writes the merged version to both sides.
 */
module Reconcile {
  import opened Wrappers
  import opened Contract

  datatype Row = Row(version: int, deleted: bool)

  datatype Fleet = Fleet(replicas: seq<Option<Row>>, server: Option<Row>)

  datatype RowPlan = Common(action: ReconcileAction) | CreateLocal | CreateRemote | NoRow

  function Decide(local: Option<Row>, server: Option<Row>): RowPlan {
    match (local, server)
    case (None, None) => NoRow
    case (Some(_), None) => CreateRemote
    case (None, Some(_)) => CreateLocal
    case (Some(l), Some(s)) => Common(DetermineReconcileAction(l.version, l.deleted, s.version, s.deleted))
  }

  predicate IsIdle(plan: RowPlan) { plan == NoRow || plan == Common(Skip) }

  /** Both sides after carrying the decision out. */
  function Settle(local: Option<Row>, server: Option<Row>): (Option<Row>, Option<Row>) {
    match Decide(local, server)
    case NoRow => (local, server)
    case CreateRemote => (local, local)
    case CreateLocal => (server, server)
    case Common(AdoptTombstone) => (server, server)
    case Common(Pull) => (server, server)
    case Common(Skip) => (local, server)
    case Common(Push) =>
      var merged := Some(Row(LocalWinnerMergedVersion(local.value.version, server.value.version), local.value.deleted));
      (merged, merged)
  }

  function Sync(f: Fleet, i: nat): Fleet
    requires i < |f.replicas|
  {
    var (local, server) := Settle(f.replicas[i], f.server);
    Fleet(f.replicas[i := local], server)
  }

  predicate Idle(f: Fleet, i: nat)
    requires i < |f.replicas|
  {
    IsIdle(Decide(f.replicas[i], f.server))
  }

  predicate Agreed(f: Fleet) {
    forall i :: 0 <= i < |f.replicas| ==> f.replicas[i] == f.server
  }

  /** Nothing is left to do exactly when every side has the same version and tombstone flag. */
  lemma QuietMeansAgreed(f: Fleet)
    ensures (forall i :: 0 <= i < |f.replicas| ==> Idle(f, i)) <==> Agreed(f)
  {
    if forall i :: 0 <= i < |f.replicas| ==> Idle(f, i) {
      forall i | 0 <= i < |f.replicas| ensures f.replicas[i] == f.server {
        assert Idle(f, i);
      }
    }
  }

  // ---------------------------------------------------------------- the measure

  predicate IsAhead(local: Option<Row>, server: Option<Row>) {
    local.Some? && server.Some? && local.value.version > server.value.version
  }

  function Ahead(replicas: seq<Option<Row>>, server: Option<Row>): (n: nat)
    ensures n <= |replicas|
  {
    if replicas == [] then 0
    else (if IsAhead(replicas[0], server) then 1 else 0) + Ahead(replicas[1..], server)
  }

  function Differing(replicas: seq<Option<Row>>, server: Option<Row>): (n: nat)
    ensures n <= |replicas|
  {
    if replicas == [] then 0
    else (if replicas[0] != server then 1 else 0) + Differing(replicas[1..], server)
  }

  /** Server row absent, then replicas ahead of it, then server row live, then replicas that differ. */
  function Weight(f: Fleet): nat {
    var k := |f.replicas| + 1;
    (if f.server.None? then 2 * k * k else 0)
    + 2 * k * Ahead(f.replicas, f.server)
    + (if f.server.Some? && !f.server.value.deleted then k else 0)
    + Differing(f.replicas, f.server)
  }

  lemma {:induction false} AheadAfterUpdate(replicas: seq<Option<Row>>, server: Option<Row>, i: nat, row: Option<Row>)
    requires i < |replicas|
    ensures Ahead(replicas[i := row], server) + (if IsAhead(replicas[i], server) then 1 else 0)
            == Ahead(replicas, server) + (if IsAhead(row, server) then 1 else 0)
  {
    if i > 0 {
      AheadAfterUpdate(replicas[1..], server, i - 1, row);
      assert replicas[i := row][1..] == replicas[1..][i - 1 := row];
    } else {
      assert replicas[0 := row][1..] == replicas[1..];
    }
  }

  lemma {:induction false} DifferingAfterUpdate(replicas: seq<Option<Row>>, server: Option<Row>, i: nat,
                                                row: Option<Row>)
    requires i < |replicas|
    ensures Differing(replicas[i := row], server) + (if replicas[i] != server then 1 else 0)
            == Differing(replicas, server) + (if row != server then 1 else 0)
  {
    if i > 0 {
      DifferingAfterUpdate(replicas[1..], server, i - 1, row);
      assert replicas[i := row][1..] == replicas[1..][i - 1 := row];
    } else {
      assert replicas[0 := row][1..] == replicas[1..];
    }
  }

  lemma {:induction false} NewerServerLeavesFewerAhead(replicas: seq<Option<Row>>, older: Row, newer: Row)
    requires older.version <= newer.version
    ensures Ahead(replicas, Some(newer)) <= Ahead(replicas, Some(older))
  {
    if replicas != [] {
      NewerServerLeavesFewerAhead(replicas[1..], older, newer);
    }
  }

  lemma {:induction false} Scale(x: nat, a: nat, b: nat)
    ensures a <= b ==> x * a <= x * b
    ensures a < b ==> x * a + x <= x * b
  {
    if a < b {
      Scale(x, a, b - 1);
      assert x * b == x * (b - 1) + x;
    }
  }

  lemma PullLowersWeight(f: Fleet, i: nat)
    requires i < |f.replicas| && f.server.Some? && f.replicas[i] != f.server
    ensures Weight(f.(replicas := f.replicas[i := f.server])) < Weight(f)
  {
    var k := |f.replicas| + 1;
    AheadAfterUpdate(f.replicas, f.server, i, f.server);
    DifferingAfterUpdate(f.replicas, f.server, i, f.server);
    Scale(2 * k, Ahead(f.replicas[i := f.server], f.server), Ahead(f.replicas, f.server));
  }

  lemma CreateLowersWeight(f: Fleet, i: nat)
    requires i < |f.replicas| && f.server.None? && f.replicas[i].Some?
    ensures Weight(f.(server := f.replicas[i])) < Weight(f)
  {
    var k := |f.replicas| + 1;
    var g := f.(server := f.replicas[i]);
    NobodyIsAheadOfNothing(f.replicas);
    Scale(2 * k, Ahead(g.replicas, g.server), |f.replicas|);
    assert 2 * k * k == 2 * k * |f.replicas| + 2 * k;
  }

  lemma PushLowersWeight(f: Fleet, i: nat)
    requires i < |f.replicas| && Decide(f.replicas[i], f.server) == Common(Push)
    ensures Weight(Sync(f, i)) < Weight(f)
  {
    var k := |f.replicas| + 1;
    var g := Sync(f, i);
    var (local, server) := Settle(f.replicas[i], f.server);
    AheadAfterUpdate(f.replicas, server, i, local);
    DifferingAfterUpdate(f.replicas, server, i, local);
    NewerServerLeavesFewerAhead(f.replicas, f.server.value, server.value);
    if IsAhead(f.replicas[i], f.server) {
      PushedReplicaIsNoLongerAhead(f, i);
    }
    Scale(2 * k, Ahead(g.replicas, server), Ahead(f.replicas, f.server));
  }

  /** Every reconcile that does something lowers the measure. */
  lemma SyncLowersWeight(f: Fleet, i: nat)
    requires i < |f.replicas| && !Idle(f, i)
    ensures Weight(Sync(f, i)) < Weight(f)
  {
    if f.server.None? {
      CreateLowersWeight(f, i);
      assert f.replicas[i := f.replicas[i]] == f.replicas;
    } else if Decide(f.replicas[i], f.server) == Common(Push) {
      PushLowersWeight(f, i);
    } else {
      PullLowersWeight(f, i);
    }
  }

  lemma PushedReplicaIsNoLongerAhead(f: Fleet, i: nat)
    requires i < |f.replicas| && Decide(f.replicas[i], f.server) == Common(Push) && IsAhead(f.replicas[i], f.server)
    ensures Ahead(Sync(f, i).replicas, Sync(f, i).server) < Ahead(f.replicas, f.server)
  {
    var (local, server) := Settle(f.replicas[i], f.server);
    AheadAfterUpdate(f.replicas, f.server, i, f.server);
    NewerServerLeavesFewerAhead(f.replicas[i := f.server], f.server.value, server.value);
    AheadAfterUpdate(f.replicas[i := f.server], server, i, local);
    assert f.replicas[i := f.server][i := local] == f.replicas[i := local];
  }

  // ---------------------------------------------------------------- convergence

  lemma IdleSyncChangesNothing(f: Fleet, i: nat)
    requires i < |f.replicas| && Idle(f, i)
    ensures Sync(f, i) == f
  {
    assert f.replicas[i := f.replicas[i]] == f.replicas;
  }

  predicate Within(schedule: seq<nat>, f: Fleet) {
    forall k :: 0 <= k < |schedule| ==> schedule[k] < |f.replicas|
  }

  function SyncAll(f: Fleet, schedule: seq<nat>): (g: Fleet)
    requires Within(schedule, f)
    ensures |g.replicas| == |f.replicas|
    decreases |schedule|
  {
    if schedule == [] then f else SyncAll(Sync(f, schedule[0]), schedule[1..])
  }

  /** How many reconciles of a schedule do something. */
  function Work(f: Fleet, schedule: seq<nat>): nat
    requires Within(schedule, f)
    decreases |schedule|
  {
    if schedule == [] then 0
    else (if Idle(f, schedule[0]) then 0 else 1) + Work(Sync(f, schedule[0]), schedule[1..])
  }

  lemma {:induction false} WorkIsPaidByWeight(f: Fleet, schedule: seq<nat>)
    requires Within(schedule, f)
    ensures Work(f, schedule) + Weight(SyncAll(f, schedule)) <= Weight(f)
    decreases |schedule|
  {
    if schedule != [] {
      var i := schedule[0];
      WorkIsPaidByWeight(Sync(f, i), schedule[1..]);
      if Idle(f, i) {
        IdleSyncChangesNothing(f, i);
      } else {
        SyncLowersWeight(f, i);
      }
    }
  }

  lemma WeightIsBounded(f: Fleet)
    ensures var k := |f.replicas| + 1; Weight(f) <= 2 * k * k + |f.replicas|
  {
    var k := |f.replicas| + 1;
    if f.server.None? {
      NobodyIsAheadOfNothing(f.replicas);
    } else {
      assert 2 * k * Ahead(f.replicas, f.server) <= 2 * k * |f.replicas|;
    }
  }

  lemma {:induction false} NobodyIsAheadOfNothing(replicas: seq<Option<Row>>)
    ensures Ahead(replicas, None) == 0
  {
    if replicas != [] {
      NobodyIsAheadOfNothing(replicas[1..]);
    }
  }

  /** In any order whatsoever, only boundedly many reconciles of n replicas can ever do something. */
  lemma WorkIsBounded(f: Fleet, schedule: seq<nat>)
    requires Within(schedule, f)
    ensures var k := |f.replicas| + 1; Work(f, schedule) <= 2 * k * k + |f.replicas|
  {
    WorkIsPaidByWeight(f, schedule);
    WeightIsBounded(f);
  }

  /** Every replica reconciles at least once in a round. */
  predicate CoversAll(schedule: seq<nat>, f: Fleet) {
    Within(schedule, f) && forall i: nat :: i < |f.replicas| ==> i in schedule
  }

  predicate Rounds(rounds: seq<seq<nat>>, f: Fleet) {
    forall k :: 0 <= k < |rounds| ==> CoversAll(rounds[k], f)
  }

  lemma {:induction false} IdleScheduleChangesNothing(f: Fleet, schedule: seq<nat>)
    requires Within(schedule, f) && Work(f, schedule) == 0
    ensures SyncAll(f, schedule) == f && forall i :: i in schedule ==> Idle(f, i)
    decreases |schedule|
  {
    if schedule != [] {
      IdleSyncChangesNothing(f, schedule[0]);
      IdleScheduleChangesNothing(f, schedule[1..]);
    }
  }

  function SyncRounds(f: Fleet, rounds: seq<seq<nat>>): Fleet
    requires Rounds(rounds, f)
    decreases |rounds|
  {
    if rounds == [] then f
    else
      SyncRounds(SyncAll(f, rounds[0]), rounds[1..])
  }

  /**
    Convergence: as many rounds as the measure says, each letting every replica reconcile at least once in
    an order of its own, end with every replica and the server agreeing on version and tombstone flag.
   */
  lemma {:induction false} RoundsConverge(f: Fleet, rounds: seq<seq<nat>>)
    requires Rounds(rounds, f)
    requires |rounds| >= Weight(f)
    ensures Agreed(SyncRounds(f, rounds))
    decreases |rounds|
  {
    if rounds == [] {
      if !Agreed(f) {
        QuietMeansAgreed(f);
        var i :| 0 <= i < |f.replicas| && !Idle(f, i);
        SyncLowersWeight(f, i);
      }
    } else {
      var round := rounds[0];
      var g := SyncAll(f, round);
      WorkIsPaidByWeight(f, round);
      if Work(f, round) == 0 {
        IdleScheduleChangesNothing(f, round);
        assert forall i :: 0 <= i < |f.replicas| ==> Idle(f, i);
        QuietMeansAgreed(f);
        AgreedStaysAgreed(g, rounds[1..]);
      } else {
        RoundsConverge(g, rounds[1..]);
      }
    }
  }

  lemma {:induction false} AgreedIsQuiet(f: Fleet, schedule: seq<nat>)
    requires Agreed(f) && Within(schedule, f)
    ensures SyncAll(f, schedule) == f && Work(f, schedule) == 0
    decreases |schedule|
  {
    if schedule != [] {
      QuietMeansAgreed(f);
      assert Idle(f, schedule[0]);
      IdleSyncChangesNothing(f, schedule[0]);
      AgreedIsQuiet(f, schedule[1..]);
    }
  }

  lemma {:induction false} AgreedStaysAgreed(f: Fleet, rounds: seq<seq<nat>>)
    requires Rounds(rounds, f)
    requires Agreed(f)
    ensures SyncRounds(f, rounds) == f
    decreases |rounds|
  {
    if rounds != [] {
      AgreedIsQuiet(f, rounds[0]);
      AgreedStaysAgreed(f, rounds[1..]);
    }
  }
}
