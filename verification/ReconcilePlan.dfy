/** The planner: two lists of version triples in, six sorted buckets of ids out. */
module ReconcilePlan {
  import opened Wrappers
  import opened Contract
  import opened Ordering
  import opened Reconcile

  datatype VersionTriple = VersionTriple(id: string, version: int, deleted: bool)

  datatype Plan = Plan(adoptTombstone: seq<string>, pull: seq<string>, push: seq<string>, skip: seq<string>,
                       createLocal: seq<string>, createRemote: seq<string>)

  datatype ActionCounts = ActionCounts(adoptTombstone: nat, pull: nat, push: nat, skip: nat)

  /** Rows by id; a repeated id keeps its last triple. */
  function IndexById(triples: seq<VersionTriple>): map<string, Row> {
    if triples == [] then map[]
    else
      var n := |triples| - 1;
      IndexById(triples[..n])[triples[n].id := Row(triples[n].version, triples[n].deleted)]
  }

  function RowOf(rows: map<string, Row>, id: string): Option<Row> {
    if id in rows then Some(rows[id]) else None
  }

  // ---------------------------------------------------------------- sorted ids

  predicate StrictlySorted(ids: seq<string>) {
    forall i, j :: 0 <= i < j < |ids| ==> Less(ids[i], ids[j])
  }

  function Insert(id: string, ids: seq<string>): seq<string> {
    if ids == [] || Less(id, ids[0]) then [id] + ids else [ids[0]] + Insert(id, ids[1..])
  }

  lemma {:induction false} InsertMembers(id: string, ids: seq<string>, x: string)
    ensures x in Insert(id, ids) <==> x == id || x in ids
  {
    if ids != [] && !Less(id, ids[0]) {
      InsertMembers(id, ids[1..], x);
    }
  }

  lemma {:induction false} InsertSorts(id: string, ids: seq<string>)
    requires StrictlySorted(ids) && id !in ids
    ensures StrictlySorted(Insert(id, ids))
  {
    if ids == [] {
    } else if Less(id, ids[0]) {
      forall k | 0 <= k < |ids| ensures Less(id, ids[k]) {
        if k > 0 {
          LessTransitive(id, ids[0], ids[k]);
        }
      }
    } else {
      LessTotal(id, ids[0]);
      InsertSorts(id, ids[1..]);
      var rest := Insert(id, ids[1..]);
      forall k | 0 <= k < |rest| ensures Less(ids[0], rest[k]) {
        InsertMembers(id, ids[1..], rest[k]);
        if rest[k] != id {
          var j :| 0 <= j < |ids[1..]| && ids[1..][j] == rest[k];
          assert Less(ids[0], ids[j + 1]);
        }
      }
    }
  }

  method SortIds(ids: set<string>) returns (sorted: seq<string>)
    ensures StrictlySorted(sorted)
    ensures forall id :: id in sorted <==> id in ids
  {
    sorted := [];
    var rest := ids;
    while rest != {}
      invariant rest <= ids && StrictlySorted(sorted)
      invariant forall id :: id in sorted <==> id in ids && id !in rest
      decreases rest
    {
      var id :| id in rest;
      InsertSorts(id, sorted);
      forall x ensures x in Insert(id, sorted) <==> x == id || x in sorted {
        InsertMembers(id, sorted, x);
      }
      sorted := Insert(id, sorted);
      rest := rest - {id};
    }
  }

  lemma SortedTailOf(ids: seq<string>)
    requires StrictlySorted(ids) && ids != []
    ensures StrictlySorted(ids[1..])
    ensures forall id :: id in ids[1..] <==> id in ids && id != ids[0]
  {
    LessIrreflexive(ids[0]);
    assert ids == [ids[0]] + ids[1..];
    forall id | id in ids[1..] ensures id != ids[0] {
      var k :| 0 <= k < |ids[1..]| && ids[1..][k] == id;
      assert Less(ids[0], ids[k + 1]);
    }
  }

  lemma {:induction false} SortedIdsAreDetermined(a: seq<string>, b: seq<string>)
    requires StrictlySorted(a) && StrictlySorted(b) && forall id :: id in a <==> id in b
    ensures a == b
  {
    assert a != [] ==> a[0] in b;
    assert b != [] ==> b[0] in a;
    if a != [] {
      var i :| 0 <= i < |b| && b[i] == a[0];
      var j :| 0 <= j < |a| && a[j] == b[0];
      LessIrreflexive(a[0]);
      if i > 0 && j > 0 {
        LessTransitive(a[0], b[0], a[0]);
      }
      SortedTailOf(a);
      SortedTailOf(b);
      SortedIdsAreDetermined(a[1..], b[1..]);
    }
  }

  lemma {:induction false} SortedIdsCountTheirMembers(ids: seq<string>)
    requires StrictlySorted(ids)
    ensures |ids| == |set id | id in ids|
  {
    if ids != [] {
      SortedTailOf(ids);
      SortedIdsCountTheirMembers(ids[1..]);
      assert (set id | id in ids) == (set id | id in ids[1..]) + {ids[0]};
    }
  }

  // ---------------------------------------------------------------- the plan

  function ActionFor(local: map<string, Row>, remote: map<string, Row>, id: string): ReconcileAction
    requires id in local && id in remote
  {
    DetermineReconcileAction(local[id].version, local[id].deleted, remote[id].version, remote[id].deleted)
  }

  /** The ids of a list whose row calls for `action`. */
  function Select(ids: seq<string>, local: map<string, Row>, remote: map<string, Row>, action: ReconcileAction)
    : (chosen: seq<string>)
    requires forall id :: id in ids ==> id in local && id in remote
    ensures forall id :: id in chosen <==> id in ids && ActionFor(local, remote, id) == action
  {
    if ids == [] then []
    else
      var n := |ids| - 1;
      Select(ids[..n], local, remote, action)
      + (if ActionFor(local, remote, ids[n]) == action then [ids[n]] else [])
  }

  lemma {:induction false} SelectSorted(ids: seq<string>, local: map<string, Row>, remote: map<string, Row>,
                                        action: ReconcileAction)
    requires StrictlySorted(ids) && forall id :: id in ids ==> id in local && id in remote
    ensures StrictlySorted(Select(ids, local, remote, action))
  {
    if ids != [] {
      var n := |ids| - 1;
      SelectSorted(ids[..n], local, remote, action);
      var before := Select(ids[..n], local, remote, action);
      forall k | 0 <= k < |before| ensures Less(before[k], ids[n]) {
        assert before[k] in ids[..n];
      }
    }
  }

  /**
    A plan for two indexes: six sorted, duplicate-free buckets; a common id sits in the bucket of its row's
    own decision, and an id known to one side only in the bucket that creates it on the other.
   */
  ghost predicate IsPlan(plan: Plan, local: map<string, Row>, remote: map<string, Row>) {
    && StrictlySorted(plan.adoptTombstone) && StrictlySorted(plan.pull) && StrictlySorted(plan.push)
    && StrictlySorted(plan.skip) && StrictlySorted(plan.createLocal) && StrictlySorted(plan.createRemote)
    && (forall id :: id in plan.adoptTombstone
                     <==> Decide(RowOf(local, id), RowOf(remote, id)) == Common(AdoptTombstone))
    && (forall id :: id in plan.pull <==> Decide(RowOf(local, id), RowOf(remote, id)) == Common(Pull))
    && (forall id :: id in plan.push <==> Decide(RowOf(local, id), RowOf(remote, id)) == Common(Push))
    && (forall id :: id in plan.skip <==> Decide(RowOf(local, id), RowOf(remote, id)) == Common(Skip))
    && (forall id :: id in plan.createLocal <==> Decide(RowOf(local, id), RowOf(remote, id)) == CreateLocal)
    && (forall id :: id in plan.createRemote <==> Decide(RowOf(local, id), RowOf(remote, id)) == CreateRemote)
  }

  method BuildIndex(triples: seq<VersionTriple>) returns (index: map<string, Row>)
    ensures index == IndexById(triples)
  {
    index := map[];
    for i := 0 to |triples|
      invariant index == IndexById(triples[..i])
    {
      assert triples[..i + 1][..i] == triples[..i];
      index := index[triples[i].id := Row(triples[i].version, triples[i].deleted)];
    }
    assert triples[..|triples|] == triples;
  }

  method BucketCommon(common: seq<string>, local: map<string, Row>, remote: map<string, Row>) returns (plan: Plan)
    requires forall id :: id in common ==> id in local && id in remote
    ensures plan.adoptTombstone == Select(common, local, remote, AdoptTombstone)
    ensures plan.pull == Select(common, local, remote, Pull)
    ensures plan.push == Select(common, local, remote, Push)
    ensures plan.skip == Select(common, local, remote, Skip)
    ensures plan.createLocal == [] && plan.createRemote == []
  {
    plan := Plan([], [], [], [], [], []);
    for i := 0 to |common|
      invariant plan.adoptTombstone == Select(common[..i], local, remote, AdoptTombstone)
      invariant plan.pull == Select(common[..i], local, remote, Pull)
      invariant plan.push == Select(common[..i], local, remote, Push)
      invariant plan.skip == Select(common[..i], local, remote, Skip)
      invariant plan.createLocal == [] && plan.createRemote == []
    {
      assert common[..i + 1][..i] == common[..i];
      var id := common[i];
      match ActionFor(local, remote, id) {
        case AdoptTombstone => plan := plan.(adoptTombstone := plan.adoptTombstone + [id]);
        case Pull => plan := plan.(pull := plan.pull + [id]);
        case Push => plan := plan.(push := plan.push + [id]);
        case Skip => plan := plan.(skip := plan.skip + [id]);
      }
    }
    assert common[..|common|] == common;
  }

  lemma SelectBuckets(common: seq<string>, local: map<string, Row>, remote: map<string, Row>)
    requires StrictlySorted(common) && forall id :: id in common <==> id in local && id in remote
    ensures forall action ::
              && StrictlySorted(Select(common, local, remote, action))
              && forall id :: id in Select(common, local, remote, action)
                              <==> Decide(RowOf(local, id), RowOf(remote, id)) == Common(action)
  {
    forall action ensures StrictlySorted(Select(common, local, remote, action)) {
      SelectSorted(common, local, remote, action);
    }
  }

  method MakePlan(local: seq<VersionTriple>, remote: seq<VersionTriple>) returns (plan: Plan)
    ensures IsPlan(plan, IndexById(local), IndexById(remote))
  {
    var localIndex := BuildIndex(local);
    var remoteIndex := BuildIndex(remote);
    var common := SortIds(localIndex.Keys * remoteIndex.Keys);
    plan := BucketCommon(common, localIndex, remoteIndex);
    SelectBuckets(common, localIndex, remoteIndex);
    var localOnly := SortIds(localIndex.Keys - remoteIndex.Keys);
    var remoteOnly := SortIds(remoteIndex.Keys - localIndex.Keys);
    plan := plan.(createRemote := localOnly, createLocal := remoteOnly);
  }

  /** The plan does not depend on the order or repetition of the input lists beyond what they index to. */
  lemma PlanIsDetermined(a: Plan, b: Plan, local: map<string, Row>, remote: map<string, Row>)
    requires IsPlan(a, local, remote) && IsPlan(b, local, remote)
    ensures a == b
  {
    SortedIdsAreDetermined(a.adoptTombstone, b.adoptTombstone);
    SortedIdsAreDetermined(a.pull, b.pull);
    SortedIdsAreDetermined(a.push, b.push);
    SortedIdsAreDetermined(a.skip, b.skip);
    SortedIdsAreDetermined(a.createLocal, b.createLocal);
    SortedIdsAreDetermined(a.createRemote, b.createRemote);
  }

  // ---------------------------------------------------------------- counts

  function ClampU32(n: nat): nat { if n <= U32_MAX then n else U32_MAX }

  function Counts(plan: Plan): ActionCounts {
    ActionCounts(ClampU32(|plan.adoptTombstone|),
                 ClampU32(|plan.pull| + |plan.createLocal|),
                 ClampU32(|plan.push| + |plan.createRemote|),
                 ClampU32(|plan.skip|))
  }

  function Ids(ids: seq<string>): set<string> { set id | id in ids }

  lemma DisjointSizes(a: set<string>, b: set<string>, c: set<string>, d: set<string>, e: set<string>, f: set<string>)
    requires a !! b !! c !! d !! e !! f
    ensures |a + b + c + d + e + f| == |a| + |b| + |c| + |d| + |e| + |f|
  {
    assert |a + b| == |a| + |b|;
    assert |a + b + c| == |a + b| + |c|;
    assert |a + b + c + d| == |a + b + c| + |d|;
    assert |a + b + c + d + e| == |a + b + c + d| + |e|;
  }

  /** The six buckets partition the ids of both sides. */
  lemma BucketsPartition(plan: Plan, local: map<string, Row>, remote: map<string, Row>)
    requires IsPlan(plan, local, remote)
    ensures Ids(plan.adoptTombstone) !! Ids(plan.pull) !! Ids(plan.push) !! Ids(plan.skip)
            !! Ids(plan.createLocal) !! Ids(plan.createRemote)
    ensures Ids(plan.adoptTombstone) + Ids(plan.pull) + Ids(plan.push) + Ids(plan.skip)
            + Ids(plan.createLocal) + Ids(plan.createRemote) == local.Keys + remote.Keys
  {
    forall id ensures
        (id in plan.adoptTombstone || id in plan.pull || id in plan.push || id in plan.skip
         || id in plan.createLocal || id in plan.createRemote) <==> id in local.Keys + remote.Keys
    {
      var decision := Decide(RowOf(local, id), RowOf(remote, id));
    }
  }

  /** So the counts add up to the number of ids while that fits in a u32. */
  lemma BucketSizesAddUp(plan: Plan, local: map<string, Row>, remote: map<string, Row>)
    requires IsPlan(plan, local, remote)
    ensures |plan.adoptTombstone| + |plan.pull| + |plan.push| + |plan.skip| + |plan.createLocal| + |plan.createRemote|
            == |local.Keys + remote.Keys|
  {
    BucketsPartition(plan, local, remote);
    DisjointSizes(Ids(plan.adoptTombstone), Ids(plan.pull), Ids(plan.push), Ids(plan.skip),
                  Ids(plan.createLocal), Ids(plan.createRemote));
    BucketSize(plan.adoptTombstone);
    BucketSize(plan.pull);
    BucketSize(plan.push);
    BucketSize(plan.skip);
    BucketSize(plan.createLocal);
    BucketSize(plan.createRemote);
  }

  lemma CountsAddUp(plan: Plan, local: map<string, Row>, remote: map<string, Row>)
    requires IsPlan(plan, local, remote)
    ensures var c := Counts(plan);
            |local.Keys + remote.Keys| <= U32_MAX ==>
              c.adoptTombstone + c.pull + c.push + c.skip == |local.Keys + remote.Keys|
  {
    BucketSizesAddUp(plan, local, remote);
  }

  lemma BucketSize(ids: seq<string>)
    requires StrictlySorted(ids)
    ensures |Ids(ids)| == |ids|
  {
    SortedIdsCountTheirMembers(ids);
  }

  // ---------------------------------------------------------------- carrying a plan out

  /** Both sides of one id after the buckets that name it have been carried out. */
  function Execute(plan: Plan, local: Option<Row>, remote: Option<Row>, id: string): (Option<Row>, Option<Row>) {
    if id in plan.adoptTombstone || id in plan.pull || id in plan.createLocal then (remote, remote)
    else if id in plan.createRemote then (local, local)
    else if id in plan.push && local.Some? && remote.Some? then
      var merged := Some(Row(LocalWinnerMergedVersion(local.value.version, remote.value.version), local.value.deleted));
      (merged, merged)
    else (local, remote)
  }

  /** Carrying out a table's plan reconciles every row the way the row alone would be reconciled. */
  lemma PlanActsRowByRow(plan: Plan, local: map<string, Row>, remote: map<string, Row>, id: string)
    requires IsPlan(plan, local, remote)
    ensures Execute(plan, RowOf(local, id), RowOf(remote, id), id) == Settle(RowOf(local, id), RowOf(remote, id))
  {
  }

  /** A second pass over settled tables only skips. */
  lemma SecondPassOnlySkips(plan: Plan, local: map<string, Row>, remote: map<string, Row>,
                            settledLocal: map<string, Row>, settledRemote: map<string, Row>, again: Plan)
    requires IsPlan(plan, local, remote) && IsPlan(again, settledLocal, settledRemote)
    requires forall id :: (RowOf(settledLocal, id), RowOf(settledRemote, id))
                          == Execute(plan, RowOf(local, id), RowOf(remote, id), id)
    ensures again.adoptTombstone == again.pull == again.push == again.createLocal == again.createRemote == []
    ensures forall id :: id in again.skip <==> id in local || id in remote
  {
    forall id ensures var next := Decide(RowOf(settledLocal, id), RowOf(settledRemote, id));
                      if id in local || id in remote then next == Common(Skip) else next == NoRow
    {
      PlanActsRowByRow(plan, local, remote, id);
    }
    NoMembers(again.adoptTombstone);
    NoMembers(again.pull);
    NoMembers(again.push);
    NoMembers(again.createLocal);
    NoMembers(again.createRemote);
  }

  lemma NoMembers(ids: seq<string>)
    ensures (forall id :: id !in ids) ==> ids == []
  {
    if ids != [] {
      assert ids[0] in ids;
    }
  }
}
