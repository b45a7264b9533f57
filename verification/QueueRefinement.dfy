/**
  The three queues run over the same traces as the abstract queue. Each one holds, at every moment, the
  abstract queue's operations up to retry count and last error; with increasing stamps all of them hand
  out the same operations in the same order. A restart ends every open replay; the file and the table keep
  their operations, the in-memory queue loses them.
 */
module QueueRefinement {
  import opened Wrappers
  import opened Contract
  import opened OfflineQueue
  import opened FileBackedQueue
  import opened SqliteQueue
  import opened QueueProtocol

  // ---------------------------------------------------------------- forgetting replay diagnostics

  lemma CoresForgetNothingElse(ops: seq<QueuedOperation>)
    ensures Contracts(Cores(ops)) == Contracts(ops)
    ensures UniquelyKeyed(Cores(ops)) <==> UniquelyKeyed(ops)
  {
    UniqueContracts(ops);
    UniqueContracts(Cores(ops));
  }

  lemma {:induction false} CoresOfDropping(ops: seq<QueuedOperation>, gone: set<ContractOperation>)
    ensures Cores(Dropping(ops, gone)) == Dropping(Cores(ops), gone)
  {
    if ops != [] {
      var n := |ops| - 1;
      CoresOfDropping(ops[..n], gone);
      assert Cores(ops)[..n] == Cores(ops[..n]);
      var before := Dropping(ops[..n], gone);
      assert Cores(before + [ops[n]]) == Cores(before) + [ops[n].Core()];
      assert before + [] == before && Cores(before) + [] == Cores(before);
    }
  }

  lemma CoresOfEnqueued(ops: seq<QueuedOperation>, op: QueuedOperation)
    ensures Cores(Enqueued(ops, op)) == Enqueued(Cores(ops), op.Core())
  {
    CoresWithout(ops, op.Key());
  }

  /** A worker of an implementation stands where the abstract worker stands. */
  predicate SamePhase(p: Phase, abs: Phase) {
    && p.takenAt == abs.takenAt
    && Cores(p.snapshot) == abs.snapshot
    && (p.Replaying? <==> abs.Replaying?)
    && (p.Finalizing? ==> p.failed == abs.failed)
  }

  predicate SamePhases(workers: map<nat, Phase>, abs: map<nat, Phase>) {
    workers.Keys == abs.Keys && forall w :: w in workers ==> SamePhase(workers[w], abs[w])
  }

  lemma SamePhaseIsSound(p: Phase, abs: Phase)
    requires SamePhase(p, abs) && UniquelyKeyed(abs.snapshot)
    requires abs.Finalizing? ==> FailedWithin(abs.failed, abs.snapshot)
    ensures UniquelyKeyed(p.snapshot)
    ensures p.Finalizing? ==> FailedWithin(p.failed, p.snapshot) &&
                              Acknowledged(p.snapshot, p.failed) == Acknowledged(abs.snapshot, abs.failed)
  {
    CoresForgetNothingElse(p.snapshot);
  }

  /** How any implementation's worker table moves, given the operations it would snapshot now. */
  function StepWorkers(workers: map<nat, Phase>, e: Event, now: nat, ops: seq<QueuedOperation>): map<nat, Phase> {
    match e
    case TakeSnapshot(w) => workers[w := Replaying(now, ops)]
    case BeginFinalize(w, failed) =>
      if w in workers then workers[w := Finalizing(workers[w].takenAt, workers[w].snapshot, failed)] else workers
    case CommitFinalize(w) => workers - {w}
    case Enqueue(_) => workers
    case Restart => map[]
  }

  predicate Committing(workers: map<nat, Phase>, e: Event) {
    e.CommitFinalize? && e.worker in workers && workers[e.worker].Finalizing?
  }

  // ---------------------------------------------------------------- memory

  datatype MemoryState = MemoryState(queue: seq<QueuedOperation>, workers: map<nat, Phase>)

  function MemoryStep(m: MemoryState, e: Event, now: nat): MemoryState {
    MemoryState(
      if e.Enqueue? then Enqueued(m.queue, e.op)
      else if Committing(m.workers, e)
      then MemoryFinalized(m.queue, m.workers[e.worker].snapshot, m.workers[e.worker].failed)
      else if e.Restart? then []
      else m.queue,
      StepWorkers(m.workers, e, now, m.queue))
  }

  /** What the process now running has done. */
  function SinceRestart(tr: seq<Event>): seq<Event> {
    if tr == [] || tr[|tr| - 1].Restart? then []
    else SinceRestart(tr[..|tr| - 1]) + [tr[|tr| - 1]]
  }

  function MemoryRun(tr: seq<Event>): MemoryState {
    if tr == [] then MemoryState([], map[])
    else
      var n := |tr| - 1;
      MemoryStep(MemoryRun(tr[..n]), tr[n], |SinceRestart(tr[..n])|)
  }

  /** A run over the in-memory queue: every process is a run of its own, from an empty queue. */
  predicate MemoryValid(tr: seq<Event>) {
    tr == [] || (MemoryValid(tr[..|tr| - 1]) && Valid(SinceRestart(tr)))
  }

  /** Whatever ran before, the in-memory queue follows the abstract queue of the process now running. */
  lemma {:induction false} MemoryFollowsItsProcess(tr: seq<Event>)
    requires MemoryValid(tr)
    ensures Valid(SinceRestart(tr))
    ensures Cores(MemoryRun(tr).queue) == Run(SinceRestart(tr)).pending
    ensures SamePhases(MemoryRun(tr).workers, Run(SinceRestart(tr)).workers)
  {
    if tr != [] && !tr[|tr| - 1].Restart? {
      var n := |tr| - 1;
      var process := SinceRestart(tr[..n]);
      MemoryFollowsItsProcess(tr[..n]);
      RunIsSound(process);
      assert SinceRestart(tr)[..|process|] == process;
      MemoryStepMatches(MemoryRun(tr[..n]), Run(process), tr[n], |process|);
    }
  }

  lemma MemoryStepMatches(m: MemoryState, s: State, e: Event, now: nat)
    requires Cores(m.queue) == s.pending && SamePhases(m.workers, s.workers)
    requires UniquelyKeyed(s.pending) && WorkersSound(s) && Enabled(s, e) && !e.Restart?
    ensures Cores(MemoryStep(m, e, now).queue) == Step(s, e, now).pending
    ensures SamePhases(MemoryStep(m, e, now).workers, Step(s, e, now).workers)
  {
    CoresForgetNothingElse(m.queue);
    match e
    case Enqueue(op) => CoresOfEnqueued(m.queue, op);
    case CommitFinalize(w) =>
      SamePhaseIsSound(m.workers[w], s.workers[w]);
      MemoryFinalizeDropsAcknowledged(m.queue, m.workers[w].snapshot, m.workers[w].failed);
    case _ =>
  }

  /** So it holds what the process now running has neither superseded nor acknowledged, and nothing older. */
  lemma MemoryHoldsItsProcess(tr: seq<Event>, op: QueuedOperation)
    requires MemoryValid(tr) && Valid(SinceRestart(tr)) && EnqueuesAreSafe(SinceRestart(tr))
    ensures op in Cores(MemoryRun(tr).queue) <==> HasOutstanding(SinceRestart(tr), op)
  {
    MemoryFollowsItsProcess(tr);
    QueueHoldsExactlyTheOutstanding(SinceRestart(tr));
  }

  /** The run of one process. */
  predicate OneProcess(tr: seq<Event>) { forall i :: 0 <= i < |tr| ==> !tr[i].Restart? }

  lemma {:induction false} OneProcessIsItsOwn(tr: seq<Event>)
    requires Valid(tr) && OneProcess(tr)
    ensures SinceRestart(tr) == tr && MemoryValid(tr)
  {
    if tr != [] {
      var n := |tr| - 1;
      ValidPrefix(tr, n);
      forall i | 0 <= i < n ensures !tr[..n][i].Restart? {
        assert tr[..n][i] == tr[i];
      }
      OneProcessIsItsOwn(tr[..n]);
      assert SinceRestart(tr) == tr[..n] + [tr[n]] == tr;
    }
  }

  /** Within one process, the in-memory queue follows the abstract one. */
  lemma MemoryRefines(tr: seq<Event>)
    requires Valid(tr) && OneProcess(tr)
    ensures Cores(MemoryRun(tr).queue) == Run(tr).pending
    ensures SamePhases(MemoryRun(tr).workers, Run(tr).workers)
  {
    OneProcessIsItsOwn(tr);
    MemoryFollowsItsProcess(tr);
  }

  /** A restart is the end of that: what a durable queue still holds, the in-memory queue has lost. */
  lemma MemorySurvivesRestartIff(tr: seq<Event>)
    requires Valid(tr) && OneProcess(tr)
    ensures Valid(tr + [Restart]) && MemoryRun(tr + [Restart]) == MemoryState([], map[])
    ensures Cores(MemoryRun(tr + [Restart]).queue) == Run(tr + [Restart]).pending <==> Run(tr).pending == []
  {
    assert (tr + [Restart])[..|tr|] == tr;
    RunExtends(tr, Restart);
  }

  // ---------------------------------------------------------------- file

  /**
    A caller first loads, and takes the cache lock for its operation later, so others can come in between. The
    list of failures is chosen by the worker alone. A restart loses the cache and every caller under way.
   */
  datatype FileEvent =
    | Load(caller: nat)
    | Locked(caller: nat, operation: Event, flush: FlushOutcome)
    | Choose(choice: Event)
    | Reopen

  datatype FileSystem = FileSystem(fs: FileState, workers: map<nat, Phase>, loaded: set<nat>)

  predicate FileEnabled(f: FileSystem, e: FileEvent) {
    match e
    case Load(_) => true
    case Locked(caller, op, _) => caller in f.loaded && (op.Enqueue? || op.TakeSnapshot? || op.CommitFinalize?)
    case Choose(choice) => choice.BeginFinalize?
    case Reopen => true
  }

  function LockedStep(f: FileSystem, op: Event, flush: FlushOutcome): FileState {
    if op.Enqueue? then EnqueuedInCache(f.fs, op.op, flush).0
    else if Committing(f.workers, op)
    then FinalizedInCache(f.fs, f.workers[op.worker].snapshot, f.workers[op.worker].failed, flush).0
    else f.fs
  }

  function FileStep(f: FileSystem, e: FileEvent, now: nat): FileSystem {
    match e
    case Load(caller) =>
      var (fs, outcome) := Loaded(f.fs);
      FileSystem(fs, f.workers, if outcome.Ok? then f.loaded + {caller} else f.loaded)
    case Locked(caller, op, flush) =>
      FileSystem(LockedStep(f, op, flush), StepWorkers(f.workers, op, now, f.fs.cache), f.loaded - {caller})
    case Choose(choice) => f.(workers := StepWorkers(f.workers, choice, now, f.fs.cache))
    case Reopen => FileSystem(f.fs.(cache := []), map[], {})
  }

  function FileRun(events: seq<FileEvent>): FileSystem {
    if events == [] then FileSystem(FileState([], Absent, false), map[], {})
    else
      var n := |events| - 1;
      FileStep(FileRun(events[..n]), events[n], |History(events[..n])|)
  }

  /** The abstract step behind a step of the file queue, at the moment it holds the lock. */
  function Behind(e: FileEvent): Option<Event> {
    match e
    case Load(_) => None
    case Locked(_, op, _) => Some(op)
    case Choose(choice) => Some(choice)
    case Reopen => Some(Restart)
  }

  function History(events: seq<FileEvent>): seq<Event> {
    if events == [] then []
    else
      var n := |events| - 1;
      var before := History(events[..n]);
      if Behind(events[n]).Some? then before + [Behind(events[n]).value] else before
  }

  predicate FileValid(events: seq<FileEvent>) {
    if events == [] then true
    else
      var n := |events| - 1;
      FileValid(events[..n]) && FileEnabled(FileRun(events[..n]), events[n])
  }

  /** The file queue stands for `s`; once somebody has loaded, a further load changes nothing. */
  predicate FileMatches(f: FileSystem, s: State) {
    && Coherent(f.fs) && !f.fs.disabled && (f.loaded != {} ==> Settled(f.fs))
    && Cores(Observed(f.fs)) == s.pending && SamePhases(f.workers, s.workers)
  }

  lemma LockedStepMatches(f: FileSystem, s: State, op: Event, now: nat)
    requires FileMatches(f, s) && Settled(f.fs) && UniquelyKeyed(s.pending) && WorkersSound(s) && Enabled(s, op)
    requires op.Enqueue? || op.TakeSnapshot? || op.CommitFinalize?
    ensures var after := LockedStep(f, op, Written);
            && Coherent(after) && Settled(after) && !after.disabled
            && Cores(Observed(after)) == Step(s, op, now).pending
    ensures SamePhases(StepWorkers(f.workers, op, now, f.fs.cache), Step(s, op, now).workers)
  {
    var ops := Observed(f.fs);
    CoresForgetNothingElse(ops);
    match op
    case Enqueue(queued) =>
      WrittenEnqueueIsCoherent(f.fs, queued);
      CoresOfEnqueued(ops, queued);
    case CommitFinalize(w) =>
      var p := f.workers[w];
      SamePhaseIsSound(p, s.workers[w]);
      WrittenFinalizeIsCoherent(f.fs, p.snapshot, p.failed);
      CoresOfDropping(ops, Acknowledged(p.snapshot, p.failed));
    case TakeSnapshot(w) =>
  }

  predicate AllWritten(events: seq<FileEvent>) {
    forall i :: 0 <= i < |events| && events[i].Locked? ==> events[i].flush.Written?
  }

  /** While writes succeed, the file queue follows the abstract queue, whoever comes between load and lock. */
  lemma {:induction false} FileRefines(events: seq<FileEvent>)
    requires FileValid(events) && Valid(History(events)) && AllWritten(events)
    ensures FileMatches(FileRun(events), Run(History(events)))
  {
    if events != [] {
      var n := |events| - 1;
      var f, tr := FileRun(events[..n]), History(events[..n]);
      if Behind(events[n]).Some? {
        assert (tr + [Behind(events[n]).value])[..|tr|] == tr;
      }
      FileRefines(events[..n]);
      RunIsSound(tr);
      FileStepMatches(f, Run(tr), events[n], |tr|);
    }
  }

  lemma FileStepMatches(f: FileSystem, s: State, e: FileEvent, now: nat)
    requires FileMatches(f, s) && UniquelyKeyed(s.pending) && WorkersSound(s) && FileEnabled(f, e)
    requires Behind(e).Some? ==> Enabled(s, Behind(e).value)
    requires e.Locked? ==> e.flush.Written?
    ensures FileMatches(FileStep(f, e, now), if Behind(e).Some? then Step(s, Behind(e).value, now) else s)
  {
    match e
    case Load(_) =>
    case Locked(_, op, _) => LockedStepMatches(f, s, op, now);
    case Choose(_) =>
    case Reopen => RestartIsInvisible(f.fs);
  }

  /** Every abstract trace is the history of some run of the file queue. */
  lemma {:induction false} EveryTraceIsAHistory(tr: seq<Event>) returns (events: seq<FileEvent>)
    requires Valid(tr)
    ensures FileValid(events) && History(events) == tr && AllWritten(events)
  {
    events := [];
    if tr != [] {
      var n := |tr| - 1;
      var before := EveryTraceIsAHistory(tr[..n]);
      FileRefines(before);
      events := OneMoreOperation(before, tr[n]);
      assert tr == tr[..n] + [tr[n]];
    }
  }

  lemma OneMoreOperation(before: seq<FileEvent>, op: Event) returns (events: seq<FileEvent>)
    requires FileValid(before) && Coherent(FileRun(before).fs) && AllWritten(before)
    ensures FileValid(events) && History(events) == History(before) + [op] && AllWritten(events)
  {
    if op.Restart? {
      events := Extended(before, Reopen);
    } else if op.BeginFinalize? {
      events := Extended(before, Choose(op));
    } else {
      var loading := Extended(before, Load(0));
      assert 0 in FileRun(loading).loaded;
      events := Extended(loading, Locked(0, op, Written));
    }
  }

  function Extended(events: seq<FileEvent>, e: FileEvent): (longer: seq<FileEvent>)
    requires FileValid(events) && FileEnabled(FileRun(events), e)
    ensures longer == events + [e] && FileValid(longer)
    ensures FileRun(longer) == FileStep(FileRun(events), e, |History(events)|)
    ensures History(longer) == History(events) + if Behind(e).Some? then [Behind(e).value] else []
  {
    assert (events + [e])[..|events|] == events;
    events + [e]
  }

  // ---------------------------------------------------------------- SQLite

  /** A worker of the SQLite queue; between its read and its transaction it carries a plan. */
  datatype SqlitePhase =
    | SqliteReplaying(snapshot: seq<QueuedOperation>)
    | SqliteFinalizing(plan: FinalizePlan)

  datatype SqliteState = SqliteState(rows: Rows, workers: map<nat, SqlitePhase>)

  ghost function SqliteStep(q: SqliteState, e: Event): SqliteState
    requires WellKeyed(q.rows)
  {
    match e
    case Enqueue(op) => q.(rows := q.rows[op.Key() := op])
    case TakeSnapshot(w) => q.(workers := q.workers[w := SqliteReplaying(ListingOf(q.rows))])
    case BeginFinalize(w, failed) =>
      if w in q.workers && q.workers[w].SqliteReplaying?
      then
        var plan := PlanFinalize(ListingOf(q.rows), q.workers[w].snapshot, failed);
        q.(workers := q.workers[w := SqliteFinalizing(plan)])
      else q
    case CommitFinalize(w) =>
      if w in q.workers && q.workers[w].SqliteFinalizing?
      then SqliteState(CommitRows(q.rows, q.workers[w].plan.current, q.workers[w].plan), q.workers - {w})
      else q
    case Restart => q.(workers := map[])
  }

  lemma {:induction false} CommitKeepsWellKeyed(rows: Rows, current: seq<QueuedOperation>, plan: FinalizePlan)
    requires WellKeyed(rows)
    ensures WellKeyed(CommitRows(rows, current, plan))
  {
    if current != [] {
      CommitKeepsWellKeyed(rows, current[..|current| - 1], plan);
    }
  }

  ghost function SqliteRun(tr: seq<Event>): (q: SqliteState)
    ensures WellKeyed(q.rows)
  {
    if tr == [] then SqliteState(map[], map[])
    else
      var q := SqliteRun(tr[..|tr| - 1]);
      var e := tr[|tr| - 1];
      assert e.CommitFinalize? && e.worker in q.workers && q.workers[e.worker].SqliteFinalizing? ==>
               WellKeyed(CommitRows(q.rows, q.workers[e.worker].plan.current, q.workers[e.worker].plan)) by {
        if e.CommitFinalize? && e.worker in q.workers && q.workers[e.worker].SqliteFinalizing? {
          CommitKeepsWellKeyed(q.rows, q.workers[e.worker].plan.current, q.workers[e.worker].plan);
        }
      }
      SqliteStep(q, e)
  }

  /** The table holds exactly the abstract operations, one row per key. */
  ghost predicate RowsMatch(rows: Rows, pending: seq<QueuedOperation>) {
    && WellKeyed(rows)
    && (forall op :: op in pending ==> op.Key() in rows && rows[op.Key()].Core() == op)
    && (forall k :: k in rows ==> rows[k].Core() in pending)
  }

  ghost predicate SameContracts(a: seq<QueuedOperation>, b: seq<QueuedOperation>) {
    forall c :: c in Contracts(a) <==> c in Contracts(b)
  }

  /**
    What links a worker to its abstract counterpart. After the read, every acknowledged operation that is
    still queued was also seen by the read, and the plan retains exactly what was not acknowledged.
   */
  ghost predicate SqlitePhaseMatches(p: SqlitePhase, abs: Phase, pending: seq<QueuedOperation>) {
    match p
    case SqliteReplaying(snapshot) =>
      abs.Replaying? && UniquelyKeyed(snapshot) && SameContracts(snapshot, abs.snapshot)
    case SqliteFinalizing(plan) =>
      && abs.Finalizing?
      && UniquelyKeyed(plan.current)
      && (forall c :: c in Contracts(plan.current) ==>
            (c in plan.retained <==> c !in Acknowledged(abs.snapshot, abs.failed)))
      && (forall op :: op in pending && op.ToContract() in Acknowledged(abs.snapshot, abs.failed) ==>
            op.ToContract() in Contracts(plan.current))
  }

  ghost predicate SqliteMatches(q: SqliteState, s: State) {
    && RowsMatch(q.rows, s.pending)
    && q.workers.Keys == s.workers.Keys
    && forall w :: w in q.workers ==> SqlitePhaseMatches(q.workers[w], s.workers[w], s.pending)
  }

  lemma ListingCore(ops: seq<QueuedOperation>, rows: Rows, pending: seq<QueuedOperation>, op: QueuedOperation)
    requires RowsMatch(rows, pending) && Listing(ops, rows)
    ensures op in Cores(ops) <==> op in pending
  {
    if i :| 0 <= i < |ops| && Cores(ops)[i] == op {
      assert ops[i] in ops && op == rows[ops[i].Key()].Core();
    }
    if op in pending {
      var row := ReadBack(rows[op.Key()]);
      assert row in ops;
      var i :| 0 <= i < |ops| && ops[i] == row;
      assert Cores(ops)[i] == op;
    }
  }

  lemma ListingCores(rows: Rows, pending: seq<QueuedOperation>)
    requires RowsMatch(rows, pending)
    ensures forall op :: op in Cores(ListingOf(rows)) <==> op in pending
  {
    forall op ensures op in Cores(ListingOf(rows)) <==> op in pending {
      ListingCore(ListingOf(rows), rows, pending, op);
    }
  }

  lemma ListingContracts(rows: Rows, pending: seq<QueuedOperation>)
    requires RowsMatch(rows, pending)
    ensures UniquelyKeyed(ListingOf(rows)) && SameContracts(ListingOf(rows), pending)
  {
    var ops := ListingOf(rows);
    ListingIsUniquelyKeyed(ops, rows);
    ListingCores(rows, pending);
    CoresForgetNothingElse(ops);
    SameMembersSameContracts(Cores(ops), pending);
  }

  lemma SameMembersSameContracts(a: seq<QueuedOperation>, b: seq<QueuedOperation>)
    requires forall op :: op in a <==> op in b
    ensures SameContracts(a, b)
  {
    ContractsOfMembers(a, b);
    ContractsOfMembers(b, a);
  }

  lemma ContractsOfMembers(a: seq<QueuedOperation>, b: seq<QueuedOperation>)
    requires forall op :: op in a ==> op in b
    ensures forall c :: c in Contracts(a) ==> c in Contracts(b)
  {
    forall i | 0 <= i < |a| ensures Contracts(a)[i] in Contracts(b) {
      assert a[i] in a && a[i] in b;
      var j :| 0 <= j < |b| && b[j] == a[i];
      assert Contracts(b)[j] == Contracts(a)[i];
    }
  }

  lemma PhaseMatchesFewer(p: SqlitePhase, abs: Phase, pending: seq<QueuedOperation>, fewer: seq<QueuedOperation>)
    requires SqlitePhaseMatches(p, abs, pending)
    requires forall op :: op in fewer && op !in pending ==> !Endangers(abs, op.ToContract())
    ensures SqlitePhaseMatches(p, abs, fewer)
  {
  }

  lemma SqliteEnqueueMatches(q: SqliteState, s: State, op: QueuedOperation)
    requires SqliteMatches(q, s)
    requires EnqueueIsSafe(s, op)
    ensures SqliteMatches(q.(rows := q.rows[op.Key() := op]), s.(pending := Enqueued(s.pending, op.Core())))
  {
    forall w | w in q.workers
      ensures SqlitePhaseMatches(q.workers[w], s.workers[w], Enqueued(s.pending, op.Core()))
    {
      PhaseMatchesFewer(q.workers[w], s.workers[w], s.pending, Enqueued(s.pending, op.Core()));
    }
  }

  lemma SqliteReadMatches(q: SqliteState, s: State, w: nat, failed: seq<QueuedOperation>)
    requires SqliteMatches(q, s) && WorkersSound(s) && Enabled(s, BeginFinalize(w, failed))
    ensures var plan := PlanFinalize(ListingOf(q.rows), q.workers[w].snapshot, failed);
            var abs := s.workers[w];
            SqlitePhaseMatches(SqliteFinalizing(plan), Finalizing(abs.takenAt, abs.snapshot, failed), s.pending)
  {
    ListingContracts(q.rows, s.pending);
    PlanRetainsUnacknowledged(ListingOf(q.rows), q.workers[w].snapshot, s.workers[w].snapshot, failed);
  }

  lemma PlanRetainsUnacknowledged(current: seq<QueuedOperation>, snapshot: seq<QueuedOperation>,
                                  abs: seq<QueuedOperation>, failed: seq<QueuedOperation>)
    requires UniquelyKeyed(current) && UniquelyKeyed(snapshot) && SameContracts(snapshot, abs)
    requires FailedWithin(failed, abs)
    ensures forall c :: c in Contracts(current) ==>
              (c in RetainedSet(current, snapshot, failed) <==> c !in Acknowledged(abs, failed))
  {
    assert Acknowledged(snapshot, failed) == Acknowledged(abs, failed);
    forall c | c in Contracts(current)
      ensures c in RetainedSet(current, snapshot, failed) <==> c !in Acknowledged(abs, failed)
    {
      RetainedIffUnacknowledged(current, snapshot, failed, c);
    }
  }

  lemma SqliteCommitMatchesRows(rows: Rows, plan: FinalizePlan, abs: Phase, pending: seq<QueuedOperation>)
    requires RowsMatch(rows, pending) && UniquelyKeyed(pending)
    requires SqlitePhaseMatches(SqliteFinalizing(plan), abs, pending)
    ensures RowsMatch(CommitRows(rows, plan.current, plan), Dropping(pending, Acknowledged(abs.snapshot, abs.failed)))
  {
    var gone := Acknowledged(abs.snapshot, abs.failed);
    var after := CommitRows(rows, plan.current, plan);
    CommitKeepsWellKeyed(rows, plan.current, plan);
    forall op | op in Dropping(pending, gone) ensures op.Key() in after && after[op.Key()].Core() == op {
      CommitRowsAt(rows, plan.current, plan, op.Key());
      assert rows[op.Key()].Core().ToContract() == op.ToContract();
    }
    forall k | k in after ensures after[k].Core() in Dropping(pending, gone) {
      CommitRowsAt(rows, plan.current, plan, k);
      var op := rows[k].Core();
      assert after[k].Core() == op && op in pending;
      assert op.ToContract() == rows[k].ToContract();
    }
  }

  lemma SqliteCommitMatches(q: SqliteState, s: State, w: nat)
    requires SqliteMatches(q, s) && UniquelyKeyed(s.pending) && w in s.workers && s.workers[w].Finalizing?
    ensures var plan := q.workers[w].plan;
            var gone := Acknowledged(s.workers[w].snapshot, s.workers[w].failed);
            SqliteMatches(SqliteState(CommitRows(q.rows, plan.current, plan), q.workers - {w}),
                          State(Dropping(s.pending, gone), s.workers - {w}))
  {
    SqliteCommitMatchesRows(q.rows, q.workers[w].plan, s.workers[w], s.pending);
    var gone := Acknowledged(s.workers[w].snapshot, s.workers[w].failed);
    forall other | other in q.workers && other != w
      ensures SqlitePhaseMatches(q.workers[other], s.workers[other], Dropping(s.pending, gone))
    {
      PhaseMatchesFewer(q.workers[other], s.workers[other], s.pending, Dropping(s.pending, gone));
    }
  }

  lemma SnapshotPhaseMatches(rows: Rows, pending: seq<QueuedOperation>, now: nat)
    requires RowsMatch(rows, pending)
    ensures SqlitePhaseMatches(SqliteReplaying(ListingOf(rows)), Replaying(now, pending), pending)
  {
    ListingContracts(rows, pending);
    ReplayMatches(ListingOf(rows), pending, now);
  }

  lemma ReplayMatches(ops: seq<QueuedOperation>, pending: seq<QueuedOperation>, now: nat)
    requires UniquelyKeyed(ops) && SameContracts(ops, pending)
    ensures SqlitePhaseMatches(SqliteReplaying(ops), Replaying(now, pending), pending)
  {
  }

  lemma PhaseAdded(q: SqliteState, s: State, w: nat, p: SqlitePhase, abs: Phase)
    requires SqliteMatches(q, s) && SqlitePhaseMatches(p, abs, s.pending)
    ensures SqliteMatches(q.(workers := q.workers[w := p]), s.(workers := s.workers[w := abs]))
  {
  }

  /** The table follows the abstract queue through every interleaving, also between a read and its commit. */
  lemma {:induction false} SqliteRefines(tr: seq<Event>)
    requires Valid(tr) && EnqueuesAreSafe(tr)
    ensures SqliteMatches(SqliteRun(tr), Run(tr))
  {
    if tr != [] {
      var n := |tr| - 1;
      SafeInPrefix(tr);
      SqliteRefines(tr[..n]);
      RunIsSound(tr[..n]);
      SqliteStepMatches(SqliteRun(tr[..n]), Run(tr[..n]), tr[n], n);
    }
  }

  lemma SqliteStepMatches(q: SqliteState, s: State, e: Event, now: nat)
    requires SqliteMatches(q, s) && WorkersSound(s) && UniquelyKeyed(s.pending) && Enabled(s, e)
    requires e.Enqueue? ==> EnqueueIsSafe(s, e.op)
    ensures SqliteMatches(SqliteStep(q, e), Step(s, e, now))
  {
    match e
    case Enqueue(op) => SqliteEnqueueMatches(q, s, op);
    case TakeSnapshot(w) =>
      SnapshotPhaseMatches(q.rows, s.pending, now);
      PhaseAdded(q, s, w, SqliteReplaying(ListingOf(q.rows)), Replaying(now, s.pending));
    case BeginFinalize(w, failed) =>
      SqliteReadMatches(q, s, w, failed);
      PhaseAdded(q, s, w, SqliteFinalizing(PlanFinalize(ListingOf(q.rows), q.workers[w].snapshot, failed)),
                 Finalizing(s.workers[w].takenAt, s.workers[w].snapshot, failed));
    case CommitFinalize(w) => SqliteCommitMatches(q, s, w);
    case Restart =>
  }

  // ---------------------------------------------------------------- all three together

  lemma SortedCores(ops: seq<QueuedOperation>)
    requires SortedRows(ops)
    ensures SortedRows(Cores(ops))
  {
    forall i, j | 0 <= i < j < |ops| ensures RowLess(Cores(ops)[i], Cores(ops)[j]) {
      assert RowLess(ops[i], ops[j]);
    }
  }

  /** SQLite lists the abstract queue's operations, and in queue order exactly when that order is sorted. */
  lemma SqliteOrderAgreesIff(tr: seq<Event>)
    requires Valid(tr) && EnqueuesAreSafe(tr)
    ensures forall op :: op in Cores(ListingOf(SqliteRun(tr).rows)) <==> op in Run(tr).pending
    ensures Cores(ListingOf(SqliteRun(tr).rows)) == Run(tr).pending <==> SortedRows(Run(tr).pending)
  {
    SqliteRefines(tr);
    var rows, pending := SqliteRun(tr).rows, Run(tr).pending;
    var ops := ListingOf(rows);
    SortedCores(ops);
    ListingCores(rows, pending);
    if SortedRows(pending) {
      SortedRowsAreDetermined(Cores(ops), pending);
    }
  }

  /**
    With increasing stamps, after any trace the queues return the same operations in the same order, whatever
    the interleaving: file and table across restarts, memory within one process.
   */
  lemma QueuesAgree(tr: seq<Event>, events: seq<FileEvent>)
    requires Valid(tr) && IncreasingStamps(tr) && FileValid(events) && AllWritten(events) && History(events) == tr
    ensures Cores(Observed(FileRun(events).fs)) == Run(tr).pending
    ensures Cores(ListingOf(SqliteRun(tr).rows)) == Run(tr).pending
    ensures OneProcess(tr) ==> Cores(MemoryRun(tr).queue) == Run(tr).pending
  {
    if OneProcess(tr) {
      MemoryRefines(tr);
    }
    FileRefines(events);
    PendingIsInStampOrder(tr);
    FreshStampsAreSafe(tr);
    SqliteOrderAgreesIff(tr);
  }

  /** The queue contract's promise, for each implementation. */
  lemma NoQueueLosesAnOperation(tr: seq<Event>, events: seq<FileEvent>, op: QueuedOperation)
    requires Valid(tr) && EnqueuesAreSafe(tr) && FileValid(events) && AllWritten(events) && History(events) == tr
    ensures op in Cores(Observed(FileRun(events).fs)) <==> HasOutstanding(tr, op)
    ensures op in Cores(ListingOf(SqliteRun(tr).rows)) <==> HasOutstanding(tr, op)
    ensures OneProcess(tr) ==> (op in Cores(MemoryRun(tr).queue) <==> HasOutstanding(tr, op))
  {
    if OneProcess(tr) {
      MemoryRefines(tr);
    }
    FileRefines(events);
    SqliteOrderAgreesIff(tr);
    QueueHoldsExactlyTheOutstanding(tr);
  }
}
