/**
  Versions and tombstones along runs that mix reconciles with local edits: the server never goes back,
  what can lift a tombstone, which deletions survive, and how large versions can get.
 */
module Tombstones {
  import opened Wrappers
  import opened Contract
  import opened Reconcile

  datatype FleetEvent =
    | SyncStep(replica: nat)
    | Create(replica: nat)
    | Mutate(replica: nat)
    | Delete(replica: nat)
    | Undelete(replica: nat)

  predicate Can(f: Fleet, e: FleetEvent) {
    && e.replica < |f.replicas|
    && (e.Create? ==> f.replicas[e.replica].None?)
    && (e.Mutate? || e.Delete? ==> f.replicas[e.replica].Some? && !f.replicas[e.replica].value.deleted)
    && (e.Undelete? ==> f.replicas[e.replica].Some? && f.replicas[e.replica].value.deleted)
  }

  /** The row an edit leaves in the local mirror. */
  function Edited(local: Option<Row>, e: FleetEvent): Row
    requires !e.SyncStep? && (e.Create? || local.Some?)
  {
    match e
    case Create(_) => Row(INITIAL_VERSION, false)
    case Mutate(_) => Row(local.value.version + STANDARD_MUTATION_VERSION_STEP, false)
    case Delete(_) => Row(local.value.version + STANDARD_MUTATION_VERSION_STEP, true)
    case Undelete(_) => Row(local.value.version + UNDELETE_VERSION_DELTA, false)
  }

  function After(f: Fleet, e: FleetEvent): Fleet
    requires Can(f, e)
  {
    if e.SyncStep? then Sync(f, e.replica)
    else f.(replicas := f.replicas[e.replica := Some(Edited(f.replicas[e.replica], e))])
  }

  function TryRun(f: Fleet, events: seq<FleetEvent>): Option<Fleet>
    decreases |events|
  {
    if events == [] then Some(f)
    else if Can(f, events[0]) then TryRun(After(f, events[0]), events[1..])
    else None
  }

  // ---------------------------------------------------------------- the server's row

  predicate IsPush(f: Fleet, e: FleetEvent) {
    e.SyncStep? && Can(f, e) && Decide(f.replicas[e.replica], f.server) == Common(Push)
  }

  /** A live row at least 1000 versions past the server's tombstone. */
  predicate MeetsUndeleteThreshold(local: Option<Row>, server: Option<Row>) {
    && local.Some? && server.Some? && server.value.deleted && !local.value.deleted
    && local.value.version >= UndeleteMinimumVersion(server.value.version)
  }

  lemma ServerStep(f: Fleet, e: FleetEvent)
    requires Can(f, e) && f.server.Some?
    ensures var after := After(f, e).server;
            && after.Some?
            && after.value.version >= f.server.value.version
            && (IsPush(f, e) ==> after.value.version > f.server.value.version)
            && (!IsPush(f, e) ==> after == f.server)
            && (f.server.value.deleted && !after.value.deleted ==>
                  e.SyncStep? && MeetsUndeleteThreshold(f.replicas[e.replica], f.server))
  {
  }

  /** Along every run the server's version never decreases, and it grows by at least one per push. */
  lemma {:induction false} ServerVersionNeverRegresses(f: Fleet, events: seq<FleetEvent>)
    requires TryRun(f, events).Some? && f.server.Some?
    ensures var end := TryRun(f, events).value;
            end.server.Some? && end.server.value.version >= f.server.value.version + Pushes(f, events)
    decreases |events|
  {
    if events != [] {
      ServerStep(f, events[0]);
      ServerVersionNeverRegresses(After(f, events[0]), events[1..]);
    }
  }

  function Pushes(f: Fleet, events: seq<FleetEvent>): nat
    requires TryRun(f, events).Some?
    decreases |events|
  {
    if events == [] then 0
    else (if IsPush(f, events[0]) then 1 else 0) + Pushes(After(f, events[0]), events[1..])
  }

  /** Whenever a server tombstone has become live, some step pushed a row 1000 past the tombstone it met. */
  lemma {:induction false} LiftedTombstoneHadAnUndelete(f: Fleet, events: seq<FleetEvent>) returns (k: nat, g: Fleet)
    requires TryRun(f, events).Some?
    requires f.server.Some? && f.server.value.deleted
    requires TryRun(f, events).value.server.Some? && !TryRun(f, events).value.server.value.deleted
    ensures k < |events| && TryRun(f, events[..k]) == Some(g)
    ensures IsPush(g, events[k]) && MeetsUndeleteThreshold(g.replicas[events[k].replica], g.server)
    ensures g.replicas[events[k].replica].value.version >= f.server.value.version + UNDELETE_VERSION_DELTA
    decreases |events|
  {
    var next := After(f, events[0]);
    ServerStep(f, events[0]);
    if next.server.value.deleted {
      k, g := LiftedTombstoneHadAnUndelete(next, events[1..]);
      k := k + 1;
      assert events[..k][1..] == events[1..][..k - 1];
    } else {
      k, g := 0, f;
    }
  }

  function Mutations(edits: nat): seq<FleetEvent> {
    if edits == 0 then [] else [Mutate(0)] + Mutations(edits - 1)
  }

  lemma {:induction false} OrdinaryEdits(local: Row, server: Option<Row>, edits: nat)
    requires !local.deleted
    ensures TryRun(Fleet([Some(local)], server), Mutations(edits))
            == Some(Fleet([Some(Row(local.version + edits, false))], server))
    decreases edits
  {
    if edits > 0 {
      var next := Row(local.version + 1, false);
      assert After(Fleet([Some(local)], server), Mutate(0)) == Fleet([Some(next)], server);
      OrdinaryEdits(next, server, edits - 1);
      assert Mutations(edits)[1..] == Mutations(edits - 1);
    }
  }

  /** A row that never saw the tombstone passes the undelete guard after enough ordinary edits. */
  lemma OrdinaryEditsPassTheGuardIff(local: Row, tombstone: Row, edits: nat)
    requires !local.deleted && tombstone.deleted
    ensures var end := TryRun(Fleet([Some(local)], Some(tombstone)), Mutations(edits));
            end.Some? && (IsPush(end.value, SyncStep(0))
                          <==> local.version + edits >= tombstone.version + UNDELETE_VERSION_DELTA)
  {
    OrdinaryEdits(local, Some(tombstone), edits);
  }

  // ---------------------------------------------------------------- which deletions survive

  predicate HoldsTombstone(row: Option<Row>) { row.Some? && row.value.deleted }

  predicate NobodyHoldsTombstone(f: Fleet) {
    forall i :: 0 <= i < |f.replicas| ==> !HoldsTombstone(f.replicas[i])
  }

  predicate TombstoneFree(f: Fleet) { NobodyHoldsTombstone(f) && !HoldsTombstone(f.server) }

  predicate RowExists(f: Fleet) {
    f.server.Some? || exists i :: 0 <= i < |f.replicas| && f.replicas[i].Some?
  }

  /** Reconciling never takes a tombstone away from a replica that has one. */
  lemma {:induction false} TombstoneHolderKeepsIt(f: Fleet, schedule: seq<nat>, i: nat)
    requires Within(schedule, f) && i < |f.replicas| && HoldsTombstone(f.replicas[i])
    ensures HoldsTombstone(SyncAll(f, schedule).replicas[i])
    decreases |schedule|
  {
    if schedule != [] {
      TombstoneHolderKeepsIt(Sync(f, schedule[0]), schedule[1..], i);
    }
  }

  lemma {:induction false} NoTombstoneAppears(f: Fleet, schedule: seq<nat>)
    requires Within(schedule, f) && TombstoneFree(f)
    ensures TombstoneFree(SyncAll(f, schedule))
    decreases |schedule|
  {
    if schedule != [] {
      NoTombstoneAppears(Sync(f, schedule[0]), schedule[1..]);
    }
  }

  lemma SyncKeepsRow(f: Fleet, i: nat)
    requires i < |f.replicas| && RowExists(f)
    ensures RowExists(Sync(f, i)) && (f.server.Some? ==> Sync(f, i).server.Some?)
  {
    if f.server.None? {
      var j :| 0 <= j < |f.replicas| && f.replicas[j].Some?;
      assert Sync(f, i).replicas[j].Some?;
    }
  }

  lemma {:induction false} RowStays(f: Fleet, schedule: seq<nat>)
    requires Within(schedule, f) && RowExists(f)
    ensures RowExists(SyncAll(f, schedule)) && (f.server.Some? ==> SyncAll(f, schedule).server.Some?)
    decreases |schedule|
  {
    if schedule != [] {
      SyncKeepsRow(f, schedule[0]);
      RowStays(Sync(f, schedule[0]), schedule[1..]);
    }
  }

  /**
    An undelete that reached the server is safe from every later reconcile exactly when no replica still
    holds the tombstone: a stale tombstone is pushed over a live row whatever the live row's version.
   */
  lemma UndeleteSticksIff(f: Fleet)
    requires f.server.Some? && !f.server.value.deleted
    ensures (forall schedule :: Within(schedule, f) ==>
               SyncAll(f, schedule).server.Some? && !SyncAll(f, schedule).server.value.deleted)
            <==> NobodyHoldsTombstone(f)
  {
    if NobodyHoldsTombstone(f) {
      forall schedule | Within(schedule, f)
        ensures SyncAll(f, schedule).server.Some? && !SyncAll(f, schedule).server.value.deleted
      {
        NoTombstoneAppears(f, schedule);
        RowStays(f, schedule);
      }
    } else {
      var i :| 0 <= i < |f.replicas| && HoldsTombstone(f.replicas[i]);
      var schedule: seq<nat> := [i];
      assert Within(schedule, f);
      assert SyncAll(f, schedule) == Sync(f, i) by {
        assert schedule[1..] == [];
        assert SyncAll(Sync(f, i), []) == Sync(f, i);
      }
    }
  }

  lemma {:induction false} RoundsKeepTombstone(f: Fleet, rounds: seq<seq<nat>>, i: nat)
    requires Rounds(rounds, f) && i < |f.replicas| && HoldsTombstone(f.replicas[i])
    ensures |SyncRounds(f, rounds).replicas| == |f.replicas|
    ensures HoldsTombstone(SyncRounds(f, rounds).replicas[i])
    decreases |rounds|
  {
    if rounds != [] {
      TombstoneHolderKeepsIt(f, rounds[0], i);
      RoundsKeepTombstone(SyncAll(f, rounds[0]), rounds[1..], i);
    }
  }

  lemma {:induction false} RoundsBringNoTombstone(f: Fleet, rounds: seq<seq<nat>>)
    requires Rounds(rounds, f) && TombstoneFree(f)
    ensures !HoldsTombstone(SyncRounds(f, rounds).server)
    decreases |rounds|
  {
    if rounds != [] {
      NoTombstoneAppears(f, rounds[0]);
      RoundsBringNoTombstone(SyncAll(f, rounds[0]), rounds[1..]);
    }
  }

  lemma {:induction false} RoundsKeepRow(f: Fleet, rounds: seq<seq<nat>>)
    requires Rounds(rounds, f) && RowExists(f)
    ensures RowExists(SyncRounds(f, rounds)) && (f.server.Some? ==> SyncRounds(f, rounds).server.Some?)
    decreases |rounds|
  {
    if rounds != [] {
      RowStays(f, rounds[0]);
      RoundsKeepRow(SyncAll(f, rounds[0]), rounds[1..]);
    }
  }

  lemma ConvergesToHeldTombstone(f: Fleet, rounds: seq<seq<nat>>)
    requires Rounds(rounds, f) && Agreed(SyncRounds(f, rounds)) && !NobodyHoldsTombstone(f)
    ensures HoldsTombstone(SyncRounds(f, rounds).server)
  {
    var i :| 0 <= i < |f.replicas| && HoldsTombstone(f.replicas[i]);
    RoundsKeepTombstone(f, rounds, i);
    assert SyncRounds(f, rounds).replicas[i] == SyncRounds(f, rounds).server;
  }

  /**
    What everyone converges to while the server's row is live or absent: deleted exactly when some replica
    deleted it, and present exactly when somebody has it.
   */
  lemma ConvergedRowIsDeletedIff(f: Fleet, rounds: seq<seq<nat>>)
    requires Rounds(rounds, f) && |rounds| >= Weight(f) && !HoldsTombstone(f.server)
    ensures var g := SyncRounds(f, rounds);
            && Agreed(g)
            && (g.server.Some? <==> RowExists(f))
            && (HoldsTombstone(g.server) <==> !NobodyHoldsTombstone(f))
  {
    RoundsConverge(f, rounds);
    if NobodyHoldsTombstone(f) {
      RoundsBringNoTombstone(f, rounds);
    } else {
      ConvergesToHeldTombstone(f, rounds);
    }
    if RowExists(f) {
      RoundsKeepRow(f, rounds);
    } else {
      AgreedStaysAgreed(f, rounds);
    }
  }

  /** The very first reconcile of the rounds is by a replica whose live row is past the undelete threshold. */
  predicate FirstToSyncUndeletes(f: Fleet, rounds: seq<seq<nat>>)
    requires Rounds(rounds, f)
  {
    rounds != [] && rounds[0] != [] && MeetsUndeleteThreshold(f.replicas[rounds[0][0]], f.server)
  }

  /**
    What everyone converges to from a tombstone on the server: the row comes back to life exactly when no
    replica holds a tombstone and the first one to reconcile has undeleted it. Any replica that goes first
    without that adopts the tombstone and later pushes it over the undelete.
   */
  lemma TombstoneIsLiftedIff(f: Fleet, rounds: seq<seq<nat>>)
    requires Rounds(rounds, f) && |rounds| >= Weight(f) && HoldsTombstone(f.server)
    ensures var g := SyncRounds(f, rounds);
            && Agreed(g)
            && g.server.Some?
            && (!g.server.value.deleted <==> NobodyHoldsTombstone(f) && FirstToSyncUndeletes(f, rounds))
  {
    RoundsConverge(f, rounds);
    RoundsKeepRow(f, rounds);
    if !NobodyHoldsTombstone(f) {
      ConvergesToHeldTombstone(f, rounds);
    } else if |f.replicas| == 0 {
      AgreedStaysAgreed(f, rounds);
    } else {
      assert !Agreed(f) by {
        assert f.replicas[0] != f.server;
      }
      assert 0 in rounds[0];
      FirstSyncDecides(f, rounds);
    }
  }

  lemma FirstSyncDecides(f: Fleet, rounds: seq<seq<nat>>)
    requires Rounds(rounds, f) && HoldsTombstone(f.server) && NobodyHoldsTombstone(f)
    requires rounds != [] && rounds[0] != [] && Agreed(SyncRounds(f, rounds))
    ensures HoldsTombstone(SyncRounds(f, rounds).server) <==> !FirstToSyncUndeletes(f, rounds)
  {
    var i, rest := rounds[0][0], rounds[0][1..];
    var h := Sync(f, i);
    var g := SyncAll(h, rest);
    assert SyncAll(f, rounds[0]) == g;
    if FirstToSyncUndeletes(f, rounds) {
      NoTombstoneAppears(h, rest);
      RoundsBringNoTombstone(g, rounds[1..]);
    } else {
      TombstoneHolderKeepsIt(h, rest, i);
      ConvergesToHeldTombstone(g, rounds[1..]);
    }
  }

  // ---------------------------------------------------------------- 64-bit versions

  predicate VersionsWithin(f: Fleet, bound: int) {
    && (forall i :: 0 <= i < |f.replicas| && f.replicas[i].Some? ==> 0 <= f.replicas[i].value.version <= bound)
    && (f.server.Some? ==> 0 <= f.server.value.version <= bound)
  }

  lemma StepGrowsVersionsBy1000(f: Fleet, e: FleetEvent, bound: int)
    requires Can(f, e) && VersionsWithin(f, bound) && bound >= 0
    ensures VersionsWithin(After(f, e), bound + UNDELETE_VERSION_DELTA)
  {
  }

  /**
    No 64-bit overflow: if versions start in 0..=bound and there is room for 1000 per step and one more for
    the undelete guard, every version in every state of the run, and every guard, fits in an i64.
   */
  lemma {:induction false} VersionsFitI64(f: Fleet, events: seq<FleetEvent>, bound: int)
    requires TryRun(f, events).Some? && VersionsWithin(f, bound) && bound >= 0
    requires bound + UNDELETE_VERSION_DELTA * (|events| + 1) <= I64_MAX
    ensures var end := TryRun(f, events).value;
            && VersionsWithin(end, I64_MAX - UNDELETE_VERSION_DELTA)
            && (end.server.Some? ==> UndeleteMinimumVersion(end.server.value.version) <= I64_MAX)
    decreases |events|
  {
    if events != [] {
      StepGrowsVersionsBy1000(f, events[0], bound);
      VersionsFitI64(After(f, events[0]), events[1..], bound + UNDELETE_VERSION_DELTA);
    }
  }

  // ---------------------------------------------------------------- why pushes merge versions

  /** Reconciling with pushes that copy the local row instead of merging versions. */
  function RawSync(f: Fleet, i: nat): Fleet
    requires i < |f.replicas|
  {
    if Decide(f.replicas[i], f.server) == Common(Push) then f.(server := f.replicas[i]) else Sync(f, i)
  }

  /**
    With unmerged pushes a tombstone at version t and a live row at version v undo each other forever
    exactly when v is at least t + 1000: the pair of reconciles works twice and returns to where it began.
   */
  lemma RawPushesCycleIff(t: int, v: int)
    ensures var f := Fleet([Some(Row(t, true)), Some(Row(v, false))], Some(Row(v, false)));
            var g := RawSync(f, 0);
            (!Idle(f, 0) && !Idle(g, 1) && RawSync(g, 1) == f) <==> v >= t + UNDELETE_VERSION_DELTA
  {
  }
}
