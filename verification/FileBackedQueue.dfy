/**
  The JSON-file queue: a cache that is filled from disk only while it is empty, and written back in
  full after every change. The parsed file stands for its bytes, and the outcome of a write is a
  parameter.
 */
module FileBackedQueue {
  import opened Contract
  import opened OfflineQueue

  datatype Disk = Absent | Unreadable | ZeroBytes | Corrupt | Stored(ops: seq<QueuedOperation>)

  /** What a write attempt does to the file; a failed one leaves whatever it leaves. */
  datatype FlushOutcome = Written | WriteFailed(left: Disk)

  datatype QueueError = Io | Decode

  datatype Outcome = Ok | Err(error: QueueError)

  datatype FileState = FileState(cache: seq<QueuedOperation>, disk: Disk, disabled: bool)

  function Loaded(fs: FileState): (FileState, Outcome) {
    if fs.disabled || fs.cache != [] then (fs, Ok)
    else
      match fs.disk
      case Absent => (fs, Ok)
      case Unreadable => (fs, Err(Io))
      case ZeroBytes => (fs, Ok)
      case Corrupt => (fs, Err(Decode))
      case Stored(ops) => (fs.(cache := ops), Ok)
  }

  function Flushed(fs: FileState, flush: FlushOutcome): (FileState, Outcome) {
    if fs.disabled then (fs, Ok)
    else
      match flush
      case Written => (fs.(disk := Stored(fs.cache)), Ok)
      case WriteFailed(left) => (fs.(disk := left), Err(Io))
  }

  /** What an enqueue does once it holds the cache lock, some time after its caller has loaded. */
  function EnqueuedInCache(fs: FileState, op: QueuedOperation, flush: FlushOutcome): (FileState, Outcome) {
    Flushed(fs.(cache := Enqueued(fs.cache, op)), flush)
  }

  /** An enqueue that nobody interrupts between its load and its lock. */
  function FileEnqueued(fs: FileState, op: QueuedOperation, flush: FlushOutcome): (FileState, Outcome) {
    var (loaded, outcome) := Loaded(fs);
    if outcome.Err? then (loaded, outcome) else EnqueuedInCache(loaded, op, flush)
  }

  function RetainedInFile(cache: seq<QueuedOperation>, retained: set<ContractOperation>): seq<QueuedOperation> {
    if cache == [] then []
    else
      var n := |cache| - 1;
      RetainedInFile(cache[..n], retained)
      + (if cache[n].ToContract() in retained then [cache[n]] else [])
  }

  function FinalizedInCache(fs: FileState, snapshot: seq<QueuedOperation>, failed: seq<QueuedOperation>,
                            flush: FlushOutcome): (FileState, Outcome)
  {
    Flushed(fs.(cache := RetainedInFile(fs.cache, RetainedSet(fs.cache, snapshot, failed))), flush)
  }

  function FileFinalized(fs: FileState, snapshot: seq<QueuedOperation>, failed: seq<QueuedOperation>,
                         flush: FlushOutcome): (FileState, Outcome)
  {
    var (loaded, outcome) := Loaded(fs);
    if outcome.Err? then (loaded, outcome) else FinalizedInCache(loaded, snapshot, failed, flush)
  }

  /** The queue a reader is handed: the cache, or the file's content while the cache is empty. */
  function Observed(fs: FileState): seq<QueuedOperation> {
    Loaded(fs).0.cache
  }

  /** A cache that holds anything agrees with the file, and the file can be read. */
  predicate Coherent(fs: FileState) {
    fs.disabled || (if fs.cache == [] then !fs.disk.Unreadable? && !fs.disk.Corrupt? else fs.disk == Stored(fs.cache))
  }

  /** A load would find nothing to do: who loads now gets the cache as it is. */
  predicate Settled(fs: FileState) { Loaded(fs) == (fs, Ok) }

  class FileBackedQueue {
    const disabled: bool
    var cache: seq<QueuedOperation>
    var disk: Disk

    constructor (disk: Disk, disabled: bool)
      ensures State() == FileState([], disk, disabled)
    {
      this.disabled := disabled;
      this.cache := [];
      this.disk := disk;
    }

    function State(): FileState
      reads this
    {
      FileState(cache, disk, disabled)
    }

    method LoadIntoCache() returns (outcome: Outcome)
      modifies this`cache
      ensures (State(), outcome) == Loaded(old(State()))
    {
      if disabled || cache != [] {
        return Ok;
      }
      match disk {
        case Absent => return Ok;
        case Unreadable => return Err(Io);
        case ZeroBytes => return Ok;
        case Corrupt => return Err(Decode);
        case Stored(ops) =>
          cache := ops;
          return Ok;
      }
    }

    method FlushLocked(flush: FlushOutcome) returns (outcome: Outcome)
      modifies this`disk
      ensures (State(), outcome) == Flushed(old(State()), flush)
    {
      if disabled {
        return Ok;
      }
      match flush {
        case Written =>
          disk := Stored(cache);
          return Ok;
        case WriteFailed(left) =>
          disk := left;
          return Err(Io);
      }
    }

    method Enqueue(op: QueuedOperation, flush: FlushOutcome) returns (outcome: Outcome)
      modifies this
      ensures (State(), outcome) == FileEnqueued(old(State()), op, flush)
    {
      outcome := LoadIntoCache();
      if outcome.Ok? {
        outcome := EnqueueLocked(op, flush);
      }
    }

    method EnqueueLocked(op: QueuedOperation, flush: FlushOutcome) returns (outcome: Outcome)
      modifies this
      ensures (State(), outcome) == EnqueuedInCache(old(State()), op, flush)
    {
      ghost var before := cache;
      var kept := [];
      for i := 0 to |cache|
        invariant cache == before && disk == old(disk)
        invariant kept == Without(cache[..i], op.Key())
      {
        assert cache[..i + 1][..i] == cache[..i];
        if !(cache[i].table == op.table && cache[i].entityId == op.entityId) {
          kept := kept + [cache[i]];
        }
      }
      assert cache[..|cache|] == cache;
      cache := kept + [op];
      outcome := FlushLocked(flush);
    }

    method Snapshot() returns (ops: seq<QueuedOperation>, outcome: Outcome)
      modifies this`cache
      ensures (State(), outcome) == Loaded(old(State()))
      ensures outcome.Ok? ==> ops == Observed(old(State()))
    {
      outcome := LoadIntoCache();
      ops := SnapshotLocked();
    }

    method SnapshotLocked() returns (ops: seq<QueuedOperation>)
      ensures ops == cache
    {
      ops := cache;
    }

    method FinalizeAfterProcessing(snapshot: seq<QueuedOperation>, failed: seq<QueuedOperation>, flush: FlushOutcome)
      returns (outcome: Outcome)
      modifies this
      ensures (State(), outcome) == FileFinalized(old(State()), snapshot, failed, flush)
    {
      outcome := LoadIntoCache();
      if outcome.Ok? {
        outcome := FinalizeLocked(snapshot, failed, flush);
      }
    }

    method FinalizeLocked(snapshot: seq<QueuedOperation>, failed: seq<QueuedOperation>, flush: FlushOutcome)
      returns (outcome: Outcome)
      modifies this
      ensures (State(), outcome) == FinalizedInCache(old(State()), snapshot, failed, flush)
    {
      var retainedOps := FinalizeQueueAfterProcessing(Contracts(cache), Contracts(snapshot), Contracts(failed));
      var retained := set c | c in retainedOps;
      Retain(retained);
      outcome := FlushLocked(flush);
    }

    method Retain(retained: set<ContractOperation>)
      modifies this`cache
      ensures cache == RetainedInFile(old(cache), retained)
    {
      var kept := [];
      for i := 0 to |cache|
        invariant cache == old(cache)
        invariant kept == RetainedInFile(cache[..i], retained)
      {
        assert cache[..i + 1][..i] == cache[..i];
        if cache[i].ToContract() in retained {
          kept := kept + [cache[i]];
        }
      }
      assert cache[..|cache|] == cache;
      cache := kept;
    }
  }

  lemma {:induction false} RetainedInFileIsDropping(cache: seq<QueuedOperation>, retained: set<ContractOperation>,
                                                    gone: set<ContractOperation>)
    requires forall op :: op in cache ==> (op.ToContract() in retained <==> op.ToContract() !in gone)
    ensures RetainedInFile(cache, retained) == Dropping(cache, gone)
  {
    if cache != [] {
      var n := |cache| - 1;
      RetainedInFileIsDropping(cache[..n], retained, gone);
      assert cache[n] in cache;
    }
  }

  /**
    An enqueue reports success only if its write succeeded, or none was needed, but once the load went through
    it leaves its operation in the cache whatever it reports.
   */
  lemma EnqueueStoresIff(fs: FileState, op: QueuedOperation, flush: FlushOutcome)
    ensures var (after, outcome) := FileEnqueued(fs, op, flush);
            && (outcome.Ok? <==> Loaded(fs).1.Ok? && (fs.disabled || flush.Written?))
            && (if Loaded(fs).1.Ok? then after.cache == Enqueued(Observed(fs), op) else after == fs)
  {
  }

  /** While every write succeeds, cache and file stay in step and an enqueue is the abstract one. */
  lemma WrittenEnqueueIsCoherent(fs: FileState, op: QueuedOperation)
    requires Coherent(fs)
    ensures var (after, outcome) := FileEnqueued(fs, op, Written);
            Coherent(after) && outcome.Ok? && Observed(after) == Enqueued(Observed(fs), op)
  {
  }

  /** While every write succeeds, a finalize removes exactly what the replay acknowledged. */
  lemma WrittenFinalizeIsCoherent(fs: FileState, snapshot: seq<QueuedOperation>, failed: seq<QueuedOperation>)
    requires Coherent(fs) && UniquelyKeyed(Observed(fs)) && UniquelyKeyed(snapshot) && FailedWithin(failed, snapshot)
    ensures var (after, outcome) := FileFinalized(fs, snapshot, failed, Written);
            && Coherent(after) && outcome.Ok?
            && Observed(after) == Dropping(Observed(fs), Acknowledged(snapshot, failed))
  {
    RetainedInCache(Observed(fs), snapshot, failed);
  }

  /** What a finalize leaves in the cache. */
  lemma RetainedInCache(cache: seq<QueuedOperation>, snapshot: seq<QueuedOperation>, failed: seq<QueuedOperation>)
    requires UniquelyKeyed(cache) && UniquelyKeyed(snapshot) && FailedWithin(failed, snapshot)
    ensures RetainedInFile(cache, RetainedSet(cache, snapshot, failed))
            == Dropping(cache, Acknowledged(snapshot, failed))
  {
    forall queued | queued in cache
      ensures queued.ToContract() in RetainedSet(cache, snapshot, failed)
              <==> queued.ToContract() !in Acknowledged(snapshot, failed)
    {
      RetainedIffUnacknowledged(cache, snapshot, failed, queued.ToContract());
    }
    RetainedInFileIsDropping(cache, RetainedSet(cache, snapshot, failed), Acknowledged(snapshot, failed));
  }

  /** Losing the process, and with it the cache, is invisible while cache and file are coherent. */
  lemma RestartIsInvisible(fs: FileState)
    requires Coherent(fs) && !fs.disabled
    ensures var restarted := fs.(cache := []); Coherent(restarted) && Observed(restarted) == Observed(fs)
  {
  }

  /**
    A finalize whose write fails, whatever that leaves of the file. A reader who has already loaded sees the
    finalized queue. A reader who still has to load does so exactly when some operation was not acknowledged,
    or what is left of the file reads as an empty queue: otherwise an emptied cache is filled from it again.
   */
  lemma UnwrittenFinalizeIsSeenIff(fs: FileState, snapshot: seq<QueuedOperation>, failed: seq<QueuedOperation>,
                                   left: Disk)
    requires Coherent(fs) && !fs.disabled
    requires UniquelyKeyed(Observed(fs)) && UniquelyKeyed(snapshot) && FailedWithin(failed, snapshot)
    ensures var (after, outcome) := FileFinalized(fs, snapshot, failed, WriteFailed(left));
            var wanted := Dropping(Observed(fs), Acknowledged(snapshot, failed));
            && outcome == Err(Io) && after.cache == wanted
            && (Settled(after)
                <==> (exists op :: op in Observed(fs) && op.ToContract() !in Acknowledged(snapshot, failed))
                     || left.Absent? || left.ZeroBytes? || left == Stored([]))
  {
    var after := FileFinalized(fs, snapshot, failed, WriteFailed(left)).0;
    RetainedInCache(Observed(fs), snapshot, failed);
    SomethingIsKeptIff(Observed(fs), Acknowledged(snapshot, failed));
    LoadKeepsCacheIff(after);
  }

  lemma SomethingIsKeptIff(ops: seq<QueuedOperation>, gone: set<ContractOperation>)
    ensures Dropping(ops, gone) != [] <==> exists op :: op in ops && op.ToContract() !in gone
  {
    var kept := Dropping(ops, gone);
    if op :| op in ops && op.ToContract() !in gone {
      assert op in kept;
    }
    if kept != [] {
      assert kept[0] in kept;
    }
  }

  lemma LoadKeepsCacheIff(fs: FileState)
    requires !fs.disabled
    ensures Settled(fs) <==> fs.cache != [] || fs.disk.Absent? || fs.disk.ZeroBytes? || fs.disk == Stored([])
  {
  }

  /** In particular, a write that fails before it touches the file brings acknowledged operations back. */
  lemma UntouchedFileIsSeenIff(fs: FileState, snapshot: seq<QueuedOperation>, failed: seq<QueuedOperation>)
    requires Coherent(fs) && !fs.disabled
    ensures var (after, outcome) := FileFinalized(fs, snapshot, failed, WriteFailed(fs.disk));
            var wanted := RetainedInFile(Observed(fs), RetainedSet(Observed(fs), snapshot, failed));
            outcome == Err(Io) &&
            (Observed(after) == wanted <==> wanted != [] || Observed(fs) == [])
  {
  }
}
