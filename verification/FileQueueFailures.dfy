/**
  The file queue when writes fail. The cache goes on as if nothing had happened; the file stays behind, and a
  restart shows what was last written.
 */
module FileQueueFailures {
  import opened Contract
  import opened FileBackedQueue
  import opened OfflineQueue
  import opened QueueProtocol
  import opened QueueRefinement

  predicate WritesFile(e: FileEvent) { e.Locked? && (e.operation.Enqueue? || e.operation.CommitFinalize?) }

  /** One process whose loads, after failed writes as well, find nothing to take from the file. */
  predicate LoadsAreIdle(events: seq<FileEvent>) {
    if events == [] then true
    else
      var n := |events| - 1;
      && LoadsAreIdle(events[..n]) && !events[n].Reopen?
      && (events[n].Load? ==> Settled(FileRun(events[..n]).fs))
  }

  lemma HistoryPrefix(events: seq<FileEvent>)
    requires events != [] && Valid(History(events))
    ensures var tr, e := History(events[..|events| - 1]), events[|events| - 1];
            && Valid(tr)
            && (Behind(e).Some? ==> Enabled(Run(tr), Behind(e).value)
                                    && Run(History(events)) == Step(Run(tr), Behind(e).value, |tr|))
  {
    var tr, e := History(events[..|events| - 1]), events[|events| - 1];
    if Behind(e).Some? {
      assert (tr + [Behind(e).value])[..|tr|] == tr;
    }
  }

  /** Whatever becomes of the writes, the cache holds the abstract queue. */
  lemma {:induction false} CacheIgnoresFailedWrites(events: seq<FileEvent>)
    requires FileValid(events) && Valid(History(events)) && LoadsAreIdle(events)
    ensures var f, s := FileRun(events), Run(History(events));
            !f.fs.disabled && Cores(f.fs.cache) == s.pending && SamePhases(f.workers, s.workers)
  {
    if events != [] {
      var n := |events| - 1;
      var f, tr := FileRun(events[..n]), History(events[..n]);
      HistoryPrefix(events);
      CacheIgnoresFailedWrites(events[..n]);
      RunIsSound(tr);
      if events[n].Locked? {
        LockedStepKeepsCache(f, Run(tr), events[n].operation, events[n].flush, |tr|);
      }
    }
  }

  lemma LockedStepKeepsCache(f: FileSystem, s: State, op: Event, flush: FlushOutcome, now: nat)
    requires Cores(f.fs.cache) == s.pending && SamePhases(f.workers, s.workers) && !f.fs.disabled
    requires UniquelyKeyed(s.pending) && WorkersSound(s) && Enabled(s, op)
    requires op.Enqueue? || op.TakeSnapshot? || op.CommitFinalize?
    ensures !LockedStep(f, op, flush).disabled && Cores(LockedStep(f, op, flush).cache) == Step(s, op, now).pending
    ensures SamePhases(StepWorkers(f.workers, op, now, f.fs.cache), Step(s, op, now).workers)
  {
    CoresForgetNothingElse(f.fs.cache);
    if op.Enqueue? {
      CoresOfEnqueued(f.fs.cache, op.op);
    } else if op.CommitFinalize? {
      var p := f.workers[op.worker];
      SamePhaseIsSound(p, s.workers[op.worker]);
      RetainedInCache(f.fs.cache, p.snapshot, p.failed);
      CoresOfDropping(f.fs.cache, Acknowledged(p.snapshot, p.failed));
    }
  }

  /** A failed write leaves the file as it was. */
  predicate FailuresSpareTheFile(events: seq<FileEvent>) {
    if events == [] then true
    else
      var n := |events| - 1;
      && FailuresSpareTheFile(events[..n])
      && (events[n].Locked? && events[n].flush.WriteFailed? ==> events[n].flush.left == FileRun(events[..n]).fs.disk)
  }

  /** The length of the run up to its last successful write. */
  function LastWritten(events: seq<FileEvent>): (k: nat)
    ensures k <= |events|
  {
    if events == [] then 0
    else if WritesFile(events[|events| - 1]) && events[|events| - 1].flush.Written? then |events|
    else LastWritten(events[..|events| - 1])
  }

  lemma {:induction false} FileHoldsWhatWasLastWritten(events: seq<FileEvent>)
    requires FileValid(events) && Valid(History(events)) && LoadsAreIdle(events) && FailuresSpareTheFile(events)
    ensures var k := LastWritten(events);
            FileRun(events).fs.disk == if k == 0 then Absent else Stored(FileRun(events[..k]).fs.cache)
  {
    if events != [] {
      var n := |events| - 1;
      HistoryPrefix(events);
      CacheIgnoresFailedWrites(events[..n]);
      FileHoldsWhatWasLastWritten(events[..n]);
      assert events[..|events|] == events;
      assert events[..n][..LastWritten(events[..n])] == events[..LastWritten(events[..n])];
    }
  }

  lemma {:induction false} IdleInPrefix(events: seq<FileEvent>, k: nat)
    requires FileValid(events) && Valid(History(events)) && LoadsAreIdle(events) && k <= |events|
    ensures FileValid(events[..k]) && Valid(History(events[..k])) && LoadsAreIdle(events[..k])
  {
    if k == |events| {
      assert events[..k] == events;
    } else {
      var n := |events| - 1;
      HistoryPrefix(events);
      IdleInPrefix(events[..n], k);
      assert events[..n][..k] == events[..k];
    }
  }

  /**
    After a restart the queue is the one of the last successful write: what was enqueued since is lost, and what
    was superseded or acknowledged since comes back.
   */
  lemma RestartShowsTheLastWrittenQueue(events: seq<FileEvent>)
    requires FileValid(events) && Valid(History(events)) && LoadsAreIdle(events) && FailuresSpareTheFile(events)
    ensures var k := LastWritten(events);
            && Valid(History(events[..k]))
            && Cores(Observed(FileRun(events + [Reopen]).fs)) == Run(History(events[..k])).pending
  {
    var k := LastWritten(events);
    FileHoldsWhatWasLastWritten(events);
    CacheIgnoresFailedWrites(events);
    IdleInPrefix(events, k);
    CacheIgnoresFailedWrites(events[..k]);
    assert (events + [Reopen])[..|events|] == events;
  }
}
