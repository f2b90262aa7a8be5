/** The lock sections of src/http/upload_file_writer.cpp: one upload session and the counters of its pool. */
module UploadSessions {
  import opened Bytes

  datatype Options = Options(blockSize: nat, highWatermark: nat, lowWatermark: nat, maxUploadSize: nat)

  /** The fields guarded by the session mutex; an empty pending block is no pending block. */
  datatype Session = Session(ready: seq<Bytes>, pending: Bytes, finished: bool, canceled: bool, failed: bool,
                             workerDone: bool, aboveHigh: bool, queued: nat, written: nat)

  const FRESH := Session([], [], false, false, false, false, false, 0, 0)

  function Min(a: nat, b: nat): nat { if a <= b then a else b }

  function Capacity(o: Options): (c: nat)
    ensures c >= 1
  {
    if o.blockSize >= 1 then o.blockSize else 1
  }

  /** Data poured into the pending block; full blocks become ready. */
  function Fill(capacity: nat, ready: seq<Bytes>, pending: Bytes, data: Bytes): (seq<Bytes>, Bytes)
    requires |pending| < capacity
    decreases |data|
  {
    if data == [] then (ready, pending)
    else
      var n := Min(|data|, capacity - |pending|);
      var block := pending + data[..n];
      if |block| == capacity then Fill(capacity, ready + [block], [], data[n..])
      else Fill(capacity, ready, block, data[n..])
  }

  /** What the blocks of a session look like between lock sections. */
  predicate BlocksFit(capacity: nat, s: Session) {
    && |s.pending| < capacity
    && (forall b | b in s.ready :: 0 < |b| <= capacity)
    && s.queued >= |Concat(s.ready)| + |s.pending|
  }

  /** Nothing is lost, reordered or left over when data is cut into blocks. */
  lemma {:induction false} FillKeeps(capacity: nat, ready: seq<Bytes>, pending: Bytes, data: Bytes)
    requires |pending| < capacity
    requires forall b | b in ready :: 0 < |b| <= capacity
    ensures var (more, last) := Fill(capacity, ready, pending, data);
            && |last| < capacity
            && (forall b | b in more :: 0 < |b| <= capacity)
            && Concat(more) + last == Concat(ready) + pending + data
    decreases |data|
  {
    if data != [] {
      var n := Min(|data|, capacity - |pending|);
      var block := pending + data[..n];
      assert pending + data == block + data[n..];
      if |block| == capacity {
        ConcatSnoc(ready, block);
        assert (Concat(ready) + block) + [] + data[n..] == Concat(ready) + pending + data;
        FillKeeps(capacity, ready + [block], [], data[n..]);
      } else {
        assert Concat(ready) + block + data[n..] == Concat(ready) + pending + data;
        FillKeeps(capacity, ready, block, data[n..]);
      }
    }
  }

  function Failed(s: Session): Session {
    if s.finished || s.canceled || s.failed then s else s.(failed := true, finished := true)
  }

  predicate Refuses(s: Session) { s.finished || s.canceled || s.failed || s.workerDone }

  predicate FitsUpload(o: Options, s: Session, n: nat) { s.written + s.queued + n <= o.maxUploadSize }

  datatype Appended = Appended(session: Session, total: int, ok: bool)

  /** append: the session, the bytes queued in the pool, and the answer. */
  function AfterAppend(o: Options, limit: nat, s: Session, total: int, data: Bytes): Appended
    requires |s.pending| < Capacity(o)
  {
    if data == [] then Appended(s, total, true)
    else if Refuses(s) then Appended(s, total, false)
    else if !FitsUpload(o, s, |data|) || total + |data| > limit then Appended(Failed(s), total, false)
    else
      var (ready, pending) := Fill(Capacity(o), s.ready, s.pending, data);
      var queued := s.queued + |data|;
      Appended(s.(ready := ready, pending := pending, queued := queued,
        aboveHigh := s.aboveHigh || queued >= o.highWatermark),
               total + |data|, true)
  }

  function Flushed(s: Session): Session {
    if s.pending == [] then s else s.(ready := s.ready + [s.pending], pending := [])
  }

  function AfterFinish(s: Session): Session {
    if s.canceled || s.failed then s else Flushed(s).(finished := true)
  }

  function AfterCancel(s: Session): Session {
    if s.workerDone then s else s.(canceled := true, finished := true)
  }

  function Discarded(s: Session): Session { s.(ready := [], pending := [], queued := 0) }

  /** The condition the worker waits for. */
  predicate Awake(s: Session) { s.finished || s.canceled || s.failed || s.ready != [] }

  datatype Taken = Stop | Nothing | Block(bytes: Bytes)

  predicate MustDiscard(s: Session, ok: bool) { s.canceled || s.failed || !ok }

  /** The first lock section of a worker turn. */
  function AfterTake(o: Options, s: Session, ok: bool): (Session, Taken)
    requires BlocksFit(Capacity(o), s)
  {
    if MustDiscard(s, ok) then (Discarded(s), Stop)
    else if s.ready != [] then
      QueuedCovers(Capacity(o), s);
      var queued := s.queued - |s.ready[0]|;
      (s.(ready := s.ready[1..], queued := queued, aboveHigh := s.aboveHigh && queued > o.lowWatermark),
        Block(s.ready[0]))
    else (s, if s.finished then Stop else Nothing)
  }

  lemma QueuedCovers(capacity: nat, s: Session)
    requires BlocksFit(capacity, s) && s.ready != []
    ensures s.queued >= |s.ready[0]| && |Concat(s.ready)| == |s.ready[0]| + |Concat(s.ready[1..])|
  {
  }

  lemma PendingFits(capacity: nat, s: Session)
    requires BlocksFit(capacity, s)
    ensures |s.pending| < capacity
  {
  }

  lemma TakeFits(o: Options, s: Session, ok: bool)
    requires BlocksFit(Capacity(o), s)
    ensures BlocksFit(Capacity(o), AfterTake(o, s, ok).0)
  {
    if !MustDiscard(s, ok) && s.ready != [] {
      QueuedCovers(Capacity(o), s);
      hide Concat;
      assert forall b | b in s.ready[1..] :: b in s.ready;
    }
  }

  lemma AppendFits(o: Options, limit: nat, s: Session, total: int, data: Bytes)
    requires BlocksFit(Capacity(o), s)
    ensures BlocksFit(Capacity(o), AfterAppend(o, limit, s, total, data).session)
  {
    FillKeeps(Capacity(o), s.ready, s.pending, data);
    hide Fill, Concat;
  }

  /** The second lock section of a worker turn. */
  function AfterRecord(s: Session, size: nat, ok: bool): Session {
    var t := s.(written := s.written + size);
    if ok then t else Failed(t)
  }

  /** release_session_blocks_to_pool as far as the session shows it. */
  function Released(s: Session): Session { s.(ready := [], pending := []) }

  class UploadFileWriterPoolState {
    const maxActiveUploads: nat
    const maxTotalQueuedBytes: nat
    var activeUploads: nat
    var totalQueuedBytes: nat

    constructor (maxActiveUploads: nat, maxTotalQueuedBytes: nat)
      ensures this.maxActiveUploads == maxActiveUploads && this.maxTotalQueuedBytes == maxTotalQueuedBytes
      ensures activeUploads == 0 && totalQueuedBytes == 0
    {
      this.maxActiveUploads, this.maxTotalQueuedBytes := maxActiveUploads, maxTotalQueuedBytes;
      activeUploads, totalQueuedBytes := 0, 0;
    }

    method TryIncrementActive() returns (ok: bool)
      modifies this`activeUploads
      ensures ok == (old(activeUploads) < maxActiveUploads)
      ensures activeUploads == old(activeUploads) + if ok then 1 else 0
    {
      if activeUploads >= maxActiveUploads {
        return false;
      }
      activeUploads := activeUploads + 1;
      return true;
    }

    method TryReserveQueued(bytes: nat) returns (ok: bool)
      modifies this`totalQueuedBytes
      ensures ok == (old(totalQueuedBytes) + bytes <= maxTotalQueuedBytes)
      ensures totalQueuedBytes == old(totalQueuedBytes) + if ok then bytes else 0
    {
      if bytes > maxTotalQueuedBytes || totalQueuedBytes > maxTotalQueuedBytes - bytes {
        return false;
      }
      totalQueuedBytes := totalQueuedBytes + bytes;
      return true;
    }

    method ReleaseQueued(bytes: nat)
      requires bytes <= totalQueuedBytes
      modifies this`totalQueuedBytes
      ensures totalQueuedBytes == old(totalQueuedBytes) - bytes
    {
      if bytes == 0 {
        return;
      }
      totalQueuedBytes := totalQueuedBytes - bytes;
    }
  }

  class UploadFileWriterSession {
    const options: Options
    const pool: UploadFileWriterPoolState
    var readyBlocks: seq<Bytes>
    var pendingBlock: Bytes
    var hasPendingBlock: bool
    var finished: bool
    var canceled: bool
    var failed: bool
    var workerDone: bool
    var aboveHighWatermark: bool
    var queued: nat
    var written: nat

    function State(): Session
      reads this
    {
      Session(readyBlocks, pendingBlock, finished, canceled, failed, workerDone, aboveHighWatermark, queued, written)
    }

    predicate Valid()
      reads this
    {
      BlocksFit(Capacity(options), State()) && hasPendingBlock == (pendingBlock != [])
    }

    constructor (options: Options, pool: UploadFileWriterPoolState)
      ensures this.options == options && this.pool == pool && Valid() && State() == FRESH
    {
      this.options, this.pool := options, pool;
      readyBlocks, pendingBlock, hasPendingBlock := [], [], false;
      finished, canceled, failed, workerDone, aboveHighWatermark := false, false, false, false, false;
      queued, written := 0, 0;
    }

    method FailLocked()
      modifies this`failed, this`finished
      ensures State() == Failed(old(State()))
    {
      if finished || canceled || failed {
        return;
      }
      failed, finished := true, true;
    }

    method FlushPendingBlockLocked()
      modifies this`readyBlocks, this`pendingBlock, this`hasPendingBlock
      requires hasPendingBlock == (pendingBlock != [])
      ensures State() == Flushed(old(State())) && hasPendingBlock == (pendingBlock != [])
    {
      if !hasPendingBlock || |pendingBlock| == 0 {
        return;
      }
      readyBlocks := readyBlocks + [pendingBlock];
      pendingBlock, hasPendingBlock := [], false;
    }

    method Append(data: Bytes) returns (ok: bool, becameHigh: bool)
      requires Valid()
      modifies this, pool`totalQueuedBytes
      ensures Valid()
      ensures Appended(State(), pool.totalQueuedBytes, ok) ==
              AfterAppend(options, pool.maxTotalQueuedBytes, old(State()), old(pool.totalQueuedBytes), data)
      ensures becameHigh == (aboveHighWatermark && !old(aboveHighWatermark))
    {
      becameHigh := false;
      AppendFits(options, pool.maxTotalQueuedBytes, State(), pool.totalQueuedBytes, data);
      PendingFits(Capacity(options), State());
      hide Fill, BlocksFit, Concat;
      if data == [] {
        return true, false;
      }
      if finished || canceled || failed || workerDone {
        return false, false;
      }
      if |data| > options.maxUploadSize || written + queued > options.maxUploadSize - |data| {
        FailLocked();
        return false, false;
      }
      var reserved := pool.TryReserveQueued(|data|);
      if !reserved {
        FailLocked();
        return false, false;
      }
      CopyIn(data);
      if !aboveHighWatermark && queued >= options.highWatermark {
        aboveHighWatermark := true;
        becameHigh := true;
      }
      ok := true;
    }

    /** The copy loop of append. */
    method CopyIn(data: Bytes)
      requires Valid() && |pendingBlock| < Capacity(options)
      modifies this`readyBlocks, this`pendingBlock, this`hasPendingBlock, this`queued
      ensures hasPendingBlock == (pendingBlock != []) && queued == old(queued) + |data|
      ensures (readyBlocks, pendingBlock) == Fill(Capacity(options), old(readyBlocks), old(pendingBlock), data)
    {
      hide Concat, BlocksFit;
      var capacity := Capacity(options);
      ghost var goal := Fill(capacity, readyBlocks, pendingBlock, data);
      var remaining := data;
      while remaining != []
        invariant |pendingBlock| < capacity && hasPendingBlock == (pendingBlock != [])
        invariant Fill(capacity, readyBlocks, pendingBlock, remaining) == goal
        invariant queued == old(queued) + |data| - |remaining| && |remaining| <= |data|
        decreases |remaining|
      {
        if !hasPendingBlock {
          pendingBlock, hasPendingBlock := [], true;
        }
        var writable := capacity - |pendingBlock|;
        var copySize := Min(|remaining|, writable);
        pendingBlock := pendingBlock + remaining[..copySize];
        queued := queued + copySize;
        remaining := remaining[copySize..];
        if |pendingBlock| == capacity {
          FlushPendingBlockLocked();
        }
      }
    }

    method Finish()
      requires Valid()
      modifies this
      ensures State() == AfterFinish(old(State())) && Valid()
    {
      if canceled || failed {
        return;
      }
      FlushKeeps(Capacity(options), State());
      FlushPendingBlockLocked();
      finished := true;
    }

    method Cancel()
      requires Valid()
      modifies this
      ensures State() == AfterCancel(old(State())) && Valid()
    {
      if workerDone {
        return;
      }
      canceled, finished := true, true;
    }

    method DiscardReadyBlocksLocked()
      requires queued <= pool.totalQueuedBytes
      modifies this`queued, this`readyBlocks, this`pendingBlock, this`hasPendingBlock, pool`totalQueuedBytes
      ensures State() == Discarded(old(State())) && !hasPendingBlock
      ensures pool.totalQueuedBytes == old(pool.totalQueuedBytes) - old(queued)
    {
      var q := queued;
      queued := 0;
      pendingBlock, hasPendingBlock := [], false;
      while readyBlocks != []
        invariant State() == Discarded(old(State())).(ready := readyBlocks) && !hasPendingBlock
        invariant pool.totalQueuedBytes == old(pool.totalQueuedBytes)
        decreases |readyBlocks|
      {
        readyBlocks := readyBlocks[1..];
      }
      pool.ReleaseQueued(q);
    }

    /** The part of that lock section that takes the first ready block. */
    method PopReady() returns (block: Bytes, becameLow: bool)
      requires readyBlocks != [] && |readyBlocks[0]| <= queued <= pool.totalQueuedBytes
      modifies this, pool`totalQueuedBytes
      ensures block == old(readyBlocks[0]) && hasPendingBlock == old(hasPendingBlock)
      ensures var left := old(queued) - |block|;
              State() == old(State()).(ready := old(readyBlocks[1..]), queued := left,
                                       aboveHigh := old(aboveHighWatermark) && left > options.lowWatermark)
      ensures pool.totalQueuedBytes == old(pool.totalQueuedBytes) - |block|
      ensures becameLow == (old(aboveHighWatermark) && !aboveHighWatermark)
    {
      becameLow := false;
      block := readyBlocks[0];
      readyBlocks := readyBlocks[1..];
      queued := queued - |block|;
      pool.ReleaseQueued(|block|);
      if aboveHighWatermark && queued <= options.lowWatermark {
        aboveHighWatermark, becameLow := false, true;
      }
    }

    /** The lock section in which the worker takes a block or learns that it must stop. */
    method TakeBlock(ok: bool) returns (taken: Taken, becameLow: bool)
      requires Valid() && queued <= pool.totalQueuedBytes
      modifies this, pool`totalQueuedBytes
      ensures Valid()
      ensures (State(), taken) == AfterTake(options, old(State()), ok)
      ensures pool.totalQueuedBytes == old(pool.totalQueuedBytes) - (old(queued) - queued)
      ensures becameLow == (old(aboveHighWatermark) && !aboveHighWatermark)
    {
      taken, becameLow := Nothing, false;
      TakeFits(options, State(), ok);
      hide Concat, BlocksFit;
      if canceled || failed || !ok {
        DiscardReadyBlocksLocked();
        taken := Stop;
      } else if readyBlocks != [] {
        QueuedCovers(Capacity(options), State());
        var block;
        block, becameLow := PopReady();
        taken := Block(block);
      } else if finished {
        taken := Stop;
      }
    }

    /** The lock section after a write. */
    method RecordWrite(size: nat, ok: bool)
      requires Valid()
      modifies this
      ensures Valid() && State() == AfterRecord(old(State()), size, ok)
    {
      written := written + size;
      if !ok {
        FailLocked();
      }
    }
  }

  lemma FlushKeeps(capacity: nat, s: Session)
    requires BlocksFit(capacity, s)
    ensures BlocksFit(capacity, Flushed(s))
    ensures Concat(Flushed(s).ready) + Flushed(s).pending == Concat(s.ready) + s.pending
    ensures Flushed(s).pending == []
  {
    ConcatSnoc(s.ready, s.pending);
    assert Concat(s.ready) + [] == Concat(s.ready);
  }
}
