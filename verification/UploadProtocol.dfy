/**
 * Uploads under every interleaving of producers, workers and cancellation. Each step is one lock
 * section, one atomic operation or one file operation of src/http/upload_file_writer.cpp.
 */
module UploadProtocol {
  import opened Bytes
  import opened UploadSessions

  datatype Result = Result(ok: bool, canceled: bool, bytes: nat)

  /** Where the worker of a session stands. */
  datatype Worker =
    | Starting
    | Taking
    | Writing(block: Bytes)
    | Recording(block: Bytes)
    | Closing
    | Reading
    | Renaming(bytes: nat)
    | Removing(result: Result)
    | Releasing(result: Result)
    | Retiring(result: Result)
    | Counting(result: Result)
    | Marking(result: Result)
    | Complete(result: Result)

  datatype Mark = High | Low

  /**
   * A session with its worker's locals and its files. History: the bytes of accepted appends, the
   * watermark transitions, whether queued blocks were thrown away, and what was accepted after that.
   */
  datatype Job = Job(options: Options, session: Session, worker: Worker, ok: bool, fileOpened: bool, file: Bytes,
                     finalFile: Option<Bytes>, accepted: Bytes, marks: seq<Mark>, discarded: bool, late: Bytes)

  function NewJob(o: Options): Job { Job(o, FRESH, Starting, true, false, [], None, [], [], false, []) }

  /** What a producer or the worker does next; the flags are the outcomes of file operations. */
  datatype JobEvent =
    | Append(data: Bytes)
    | Finish
    | Cancel
    | OpenFile(ok: bool)
    | TakeBlock
    | WriteBlock(ok: bool, kept: nat)
    | RecordBlock
    | CloseFile(ok: bool)
    | ReadFlags
    | RenameFile(ok: bool)
    | RemoveFile
    | ReleaseBlocks
    | Retire
    | CountResult
    | MarkDone

  predicate Fits(j: Job) { BlocksFit(Capacity(j.options), j.session) }

  function Marked(j: Job, s: Session): seq<Mark> {
    if !j.session.aboveHigh && s.aboveHigh then j.marks + [High]
    else if j.session.aboveHigh && !s.aboveHigh then j.marks + [Low]
    else j.marks
  }

  function AppendStep(limit: nat, total: int, j: Job, data: Bytes): (Job, int)
    requires Fits(j)
  {
    var r := AfterAppend(j.options, limit, j.session, total, data);
    (j.(session := r.session, accepted := if r.ok then j.accepted + data else j.accepted,
        late := if r.ok && j.discarded then j.late + data else j.late, marks := Marked(j, r.session)),
     r.total)
  }

  function TakeStep(total: int, j: Job): (Job, int)
    requires Fits(j)
  {
    if !j.worker.Taking? || !Awake(j.session) then (j, total)
    else
      var (s, taken) := AfterTake(j.options, j.session, j.ok);
      (j.(session := s, marks := Marked(j, s), discarded := j.discarded || MustDiscard(j.session, j.ok),
          worker := match taken case Stop => Closing case Nothing => Taking case Block(b) => Writing(b)),
       total - (j.session.queued - s.queued))
  }

  /** The steps of the worker that touch neither the queue nor the pool's queued bytes. */
  function WorkerStep(j: Job, e: JobEvent): Job {
    var at := j.worker;
    var s := j.session;
    match e
    case OpenFile(ok) => if !at.Starting? then j else j.(worker := Taking, ok := ok, fileOpened := ok)
    case WriteBlock(ok, kept) =>
      if !at.Writing? then j
      else j.(worker := Recording(at.block), ok := ok,
        file := j.file + if ok then at.block else at.block[..Min(kept, |at.block|)])
    case RecordBlock => if !at.Recording? then j else j.(worker := Taking, session := AfterRecord(s, |at.block|, j.ok))
    case CloseFile(ok) => if !at.Closing? then j else j.(worker := Reading, ok := j.ok && (j.fileOpened ==> ok))
    case ReadFlags =>
      if !at.Reading? then j
      else if s.canceled || s.failed || !j.ok then j.(worker := Removing(Result(false, s.canceled, s.written)))
      else j.(worker := Renaming(s.written))
    case RenameFile(ok) =>
      if !at.Renaming? then j
      else j.(worker := Releasing(Result(ok, false, at.bytes)), finalFile := if ok then Some(j.file) else None)
    case RemoveFile => if !at.Removing? then j else j.(worker := Releasing(at.result))
    case ReleaseBlocks => if !at.Releasing? then j else j.(worker := Retiring(at.result), session := Released(s))
    case Retire => if !at.Retiring? then j else j.(worker := Counting(at.result))
    case CountResult => if !at.Counting? then j else j.(worker := Marking(at.result))
    case MarkDone => if !at.Marking? then j else j.(worker := Complete(at.result), session := s.(workerDone := true))
    case _ => j
  }

  function JobStep(limit: nat, total: int, j: Job, e: JobEvent): (Job, int)
    requires Fits(j)
  {
    match e
    case Append(data) => AppendStep(limit, total, j, data)
    case Finish => (j.(session := AfterFinish(j.session)), total)
    case Cancel => (j.(session := AfterCancel(j.session)), total)
    case TakeBlock => TakeStep(total, j)
    case _ => (WorkerStep(j, e), total)
  }

  /** The block that left the queue but is not in the file yet. */
  function InFlight(j: Job): Bytes { if j.worker.Writing? then j.worker.block else [] }

  /** Bytes taken from the queue that `written` does not count yet. */
  function Unrecorded(j: Job): nat { if j.worker.Writing? || j.worker.Recording? then |j.worker.block| else 0 }

  /** The worker has not left its loop. */
  predicate Working(j: Job) { j.worker.Starting? || j.worker.Taking? || j.worker.Writing? || j.worker.Recording? }

  predicate SessionInvariant(j: Job) {
    var s := j.session;
    && Fits(j)
    && (Working(j) || j.fileOpened ==> s.queued == |Concat(s.ready)| + |s.pending|)
    && (s.canceled || s.failed ==> s.finished)
    && (s.finished && !s.canceled && !s.failed ==> s.pending == [])
    && s.workerDone == j.worker.Complete?
  }

  predicate WorkerInvariant(j: Job) {
    var s := j.session;
    && (Working(j) ==> !j.discarded)
    && (j.worker.Starting? ==> j.ok && !j.fileOpened && j.file == [] && s.written == 0)
    && (j.worker.Writing? || j.worker.Recording? ==> j.fileOpened && 0 < |j.worker.block| <= Capacity(j.options))
    && (j.worker.Writing? ==> j.ok)
    && (j.worker.Taking? && j.fileOpened && !j.ok ==> s.finished)
    && (!j.fileOpened && !j.worker.Starting? ==> !j.ok)
    && (!Working(j) && j.fileOpened ==> s.finished && s.ready == [] && s.pending == [])
    && (j.discarded ==> s.canceled || s.failed || !j.ok)
    && (!Working(j) && !j.discarded ==> j.fileOpened)
  }

  /** Byte for byte until something is thrown away or a file operation fails. */
  predicate FlowInvariant(j: Job) {
    var s := j.session;
    && (!j.discarded && j.ok ==> j.file + InFlight(j) + Concat(s.ready) + s.pending == j.accepted)
    && (!j.discarded && j.ok ==> s.written + Unrecorded(j) == |j.file| + |InFlight(j)|)
    && (!j.discarded ==> |j.accepted| == s.written + Unrecorded(j) + s.queued)
    && (j.fileOpened || !j.discarded ==> |j.accepted| <= j.options.maxUploadSize + Capacity(j.options))
  }

  predicate HasResult(j: Job) {
    j.worker.Removing? || j.worker.Releasing? || j.worker.Retiring? || j.worker.Counting? || j.worker.Marking?
      || j.worker.Complete?
  }

  predicate ResultInvariant(j: Job) {
    && (j.worker.Renaming? ==> j.ok && !j.discarded && j.worker.bytes == j.session.written)
    && (j.finalFile.Some? <==> HasResult(j) && j.worker.result.ok)
    && (j.finalFile.Some? ==> j.finalFile == Some(j.accepted) && j.worker.result == Result(true, false, |j.accepted|)
                              && j.fileOpened)
  }

  /** The watermarks leave room for the pending block. */
  predicate SaneMarks(o: Options) { Capacity(o) <= o.lowWatermark < o.highWatermark }

  predicate MarkInvariant(j: Job) {
    && (forall k | 0 <= k < |j.marks| :: j.marks[k] == if k % 2 == 0 then High else Low)
    && j.session.aboveHigh == (|j.marks| % 2 == 1)
    && (SaneMarks(j.options) && !j.discarded ==>
          if j.session.aboveHigh then j.session.queued > j.options.lowWatermark
          else j.session.queued < j.options.highWatermark)
  }

  predicate JobInvariant(j: Job) {
    SessionInvariant(j) && WorkerInvariant(j) && FlowInvariant(j) && ResultInvariant(j) && MarkInvariant(j)
  }

  /** An accepted append, described by what it adds. */
  predicate Adds(j: Job, data: Bytes, t: Job) {
    var s, u := j.session, t.session;
    && data != [] && !Refuses(s) && FitsUpload(j.options, s, |data|)
    && u == s.(ready := u.ready, pending := u.pending, queued := s.queued + |data|, aboveHigh := u.aboveHigh)
    && u.aboveHigh == (s.aboveHigh || u.queued >= j.options.highWatermark)
    && BlocksFit(Capacity(j.options), u)
    && Concat(u.ready) + u.pending == Concat(s.ready) + s.pending + data
    && t == j.(session := u, accepted := j.accepted + data, late := if j.discarded then j.late + data else j.late,
       marks := Marked(j, u))
  }

  lemma AcceptedBlocks(o: Options, limit: nat, s: Session, total: int, data: Bytes)
    requires BlocksFit(Capacity(o), s)
    requires data != [] && !Refuses(s) && FitsUpload(o, s, |data|) && total + |data| <= limit
    ensures var u := AfterAppend(o, limit, s, total, data).session;
            && BlocksFit(Capacity(o), u)
            && Concat(u.ready) + u.pending == Concat(s.ready) + s.pending + data
  {
    FillKeeps(Capacity(o), s.ready, s.pending, data);
    hide Fill, Concat;
  }

  lemma AppendCases(limit: nat, total: int, j: Job, data: Bytes)
    requires Fits(j)
    ensures var (t, total') := AppendStep(limit, total, j, data);
            || (t == j && total' == total)
            || (t == j.(session := Failed(j.session)) && total' == total)
            || (Adds(j, data, t) && total' == total + |data| <= limit)
  {
    var s := j.session;
    if data == [] {
      assert j.accepted + data == j.accepted && j.late + data == j.late;
    } else if !Refuses(s) && FitsUpload(j.options, s, |data|) && total + |data| <= limit {
      AcceptedBlocks(j.options, limit, s, total, data);
      hide Concat, BlocksFit, Fill;
    }
  }

  lemma FailKeeps(j: Job)
    requires JobInvariant(j)
    ensures JobInvariant(j.(session := Failed(j.session)))
  {
    hide Concat;
  }

  lemma AddKeepsFlow(j: Job, data: Bytes, t: Job)
    requires SessionInvariant(j) && WorkerInvariant(j) && FlowInvariant(j) && Adds(j, data, t)
    ensures FlowInvariant(t)
  {
    hide Concat, BlocksFit, Marked;
    var s, u := j.session, t.session;
    var base := j.file + InFlight(j);
    assert base + Concat(u.ready) + u.pending == base + (Concat(u.ready) + u.pending);
    assert base + Concat(s.ready) + s.pending + data == base + (Concat(s.ready) + s.pending + data);
  }

  lemma AddKeepsSession(j: Job, data: Bytes, t: Job)
    requires SessionInvariant(j) && WorkerInvariant(j) && Adds(j, data, t)
    ensures SessionInvariant(t) && WorkerInvariant(t)
  {
    hide Concat, BlocksFit, Marked;
    assert |Concat(t.session.ready) + t.session.pending| == |Concat(j.session.ready) + j.session.pending + data|;
  }

  lemma AddKeepsMarks(j: Job, data: Bytes, t: Job)
    requires SessionInvariant(j) && WorkerInvariant(j) && ResultInvariant(j) && MarkInvariant(j) && Adds(j, data, t)
    ensures ResultInvariant(t) && MarkInvariant(t)
  {
    hide Concat, BlocksFit;
  }

  lemma AddKeeps(j: Job, data: Bytes, t: Job)
    requires JobInvariant(j) && Adds(j, data, t)
    ensures JobInvariant(t)
  {
    hide Adds, SessionInvariant, WorkerInvariant, FlowInvariant, ResultInvariant, MarkInvariant;
    AddKeepsSession(j, data, t);
    AddKeepsFlow(j, data, t);
    AddKeepsMarks(j, data, t);
  }

  lemma AppendKeeps(limit: nat, total: int, j: Job, data: Bytes)
    requires JobInvariant(j)
    ensures JobInvariant(AppendStep(limit, total, j, data).0)
  {
    AppendCases(limit, total, j, data);
    FailKeeps(j);
    hide JobInvariant, AppendStep, Adds;
    var t := AppendStep(limit, total, j, data).0;
    if Adds(j, data, t) {
      AddKeeps(j, data, t);
    }
  }

  /** The queue is regrouped without changing its bytes. */
  lemma RegroupFlow(j: Job, u: Session)
    requires FlowInvariant(j)
    requires Concat(u.ready) + u.pending == Concat(j.session.ready) + j.session.pending
    requires u.queued == j.session.queued && u.written == j.session.written
    ensures FlowInvariant(j.(session := u))
  {
    hide Concat;
    var s := j.session;
    var base := j.file + InFlight(j);
    assert base + Concat(s.ready) + s.pending == base + (Concat(s.ready) + s.pending);
    assert base + Concat(u.ready) + u.pending == base + (Concat(u.ready) + u.pending);
  }

  lemma FinishKeeps(j: Job)
    requires JobInvariant(j)
    ensures JobInvariant(j.(session := AfterFinish(j.session)))
  {
    var s, u := j.session, AfterFinish(j.session);
    if !s.canceled && !s.failed {
      FlushKeeps(Capacity(j.options), s);
      hide Concat, BlocksFit, FlowInvariant;
      RegroupFlow(j, u);
      assert |Concat(u.ready) + u.pending| == |Concat(s.ready) + s.pending|;
    }
  }

  lemma CancelKeeps(j: Job)
    requires JobInvariant(j)
    ensures JobInvariant(j.(session := AfterCancel(j.session)))
  {
    hide Concat;
  }

  /** The worker throws the queue away. */
  lemma DiscardKeeps(total: int, j: Job)
    requires JobInvariant(j) && j.worker.Taking? && Awake(j.session) && MustDiscard(j.session, j.ok)
    ensures JobInvariant(TakeStep(total, j).0)
  {
    assert Concat([]) == [];
    hide Concat;
  }

  /** The worker takes the first ready block. */
  lemma TakeFlow(j: Job, u: Session, t: Job)
    requires FlowInvariant(j) && j.worker.Taking? && j.session.ready != []
    requires u.ready == j.session.ready[1..] && u.pending == j.session.pending && u.written == j.session.written
    requires u.queued == j.session.queued - |j.session.ready[0]|
    requires t == j.(session := u, marks := t.marks, worker := Writing(j.session.ready[0]))
    ensures FlowInvariant(t)
  {
    var s := j.session;
    assert Concat(s.ready) == s.ready[0] + Concat(u.ready);
    hide Concat;
    assert j.file + [] == j.file;
    assert j.file + s.ready[0] + Concat(u.ready) + s.pending == j.file + (s.ready[0] + Concat(u.ready)) + s.pending;
  }

  lemma TakeKeeps(total: int, j: Job)
    requires JobInvariant(j) && j.worker.Taking? && !MustDiscard(j.session, j.ok) && j.session.ready != []
    ensures JobInvariant(TakeStep(total, j).0)
  {
    hide Concat, BlocksFit, FlowInvariant;
    TakeFlow(j, AfterTake(j.options, j.session, j.ok).0, TakeStep(total, j).0);
    TakeFits(j.options, j.session, j.ok);
    QueuedCovers(Capacity(j.options), j.session);
    BlockSize(Capacity(j.options), j.session);
  }

  lemma BlockSize(capacity: nat, s: Session)
    requires BlocksFit(capacity, s) && s.ready != []
    ensures 0 < |s.ready[0]| <= capacity
  {
  }

  lemma StopKeeps(total: int, j: Job)
    requires JobInvariant(j) && j.worker.Taking? && Awake(j.session) && !MustDiscard(j.session, j.ok)
             && j.session.ready == []
    ensures JobInvariant(TakeStep(total, j).0)
  {
    hide Concat;
  }

  lemma TakeStepKeeps(total: int, j: Job)
    requires JobInvariant(j)
    ensures JobInvariant(TakeStep(total, j).0)
  {
    if j.worker.Taking? && Awake(j.session) {
      hide JobInvariant, TakeStep;
      if MustDiscard(j.session, j.ok) {
        DiscardKeeps(total, j);
      } else if j.session.ready != [] {
        TakeKeeps(total, j);
      } else {
        StopKeeps(total, j);
      }
    }
  }

  lemma WriteKeeps(j: Job, ok: bool, kept: nat)
    requires JobInvariant(j) && j.worker.Writing?
    ensures JobInvariant(WorkerStep(j, WriteBlock(ok, kept)))
  {
    hide Concat, BlocksFit;
    var b := j.worker.block;
    assert j.file + b + [] == j.file + b;
  }

  lemma RecordKeeps(j: Job)
    requires JobInvariant(j) && j.worker.Recording?
    ensures JobInvariant(WorkerStep(j, RecordBlock))
  {
    hide Concat;
  }

  lemma RenameKeeps(j: Job, ok: bool)
    requires JobInvariant(j) && j.worker.Renaming?
    ensures JobInvariant(WorkerStep(j, RenameFile(ok)))
  {
    assert Concat([]) == [];
    hide Concat, BlocksFit;
    assert j.file + [] + [] + [] == j.file;
  }

  lemma ReleaseKeeps(j: Job)
    requires JobInvariant(j) && j.worker.Releasing?
    ensures JobInvariant(WorkerStep(j, ReleaseBlocks))
  {
    assert Concat([]) == [];
    hide Concat;
  }

  lemma OpenKeeps(j: Job, ok: bool)
    requires JobInvariant(j) && j.worker.Starting?
    ensures JobInvariant(WorkerStep(j, OpenFile(ok)))
  {
    hide Concat, BlocksFit;
  }

  lemma CloseKeeps(j: Job, e: JobEvent)
    requires JobInvariant(j) && ((e.CloseFile? && j.worker.Closing?) || (e.ReadFlags? && j.worker.Reading?)
             || (e.RemoveFile? && j.worker.Removing?))
    ensures JobInvariant(WorkerStep(j, e))
  {
    hide Concat, BlocksFit;
  }

  lemma CountKeeps(j: Job, e: JobEvent)
    requires JobInvariant(j) && ((e.Retire? && j.worker.Retiring?) || (e.CountResult? && j.worker.Counting?)
             || (e.MarkDone? && j.worker.Marking?))
    ensures JobInvariant(WorkerStep(j, e))
  {
    hide Concat;
  }

  lemma WorkerStepKeeps(j: Job, e: JobEvent)
    requires JobInvariant(j)
    ensures JobInvariant(WorkerStep(j, e))
  {
    hide JobInvariant;
    match e
    case WriteBlock(ok, kept) => if j.worker.Writing? { WriteKeeps(j, ok, kept); }
    case RecordBlock => if j.worker.Recording? { RecordKeeps(j); }
    case RenameFile(ok) => if j.worker.Renaming? { RenameKeeps(j, ok); }
    case ReleaseBlocks => if j.worker.Releasing? { ReleaseKeeps(j); }
    case Append(_) =>
    case Finish =>
    case Cancel =>
    case TakeBlock =>
    case OpenFile(ok) => if j.worker.Starting? { OpenKeeps(j, ok); }
    case CloseFile(_) => if j.worker.Closing? { CloseKeeps(j, e); }
    case ReadFlags => if j.worker.Reading? { CloseKeeps(j, e); }
    case RemoveFile => if j.worker.Removing? { CloseKeeps(j, e); }
    case Retire => if j.worker.Retiring? { CountKeeps(j, e); }
    case CountResult => if j.worker.Counting? { CountKeeps(j, e); }
    case MarkDone => if j.worker.Marking? { CountKeeps(j, e); }
  }

  lemma JobStepKeeps(limit: nat, total: int, j: Job, e: JobEvent)
    requires JobInvariant(j)
    ensures JobInvariant(JobStep(limit, total, j, e).0)
  {
    match e
    case Append(data) => AppendKeeps(limit, total, j, data);
    case Finish => FinishKeeps(j);
    case Cancel => CancelKeeps(j);
    case TakeBlock => TakeStepKeeps(total, j);
    case _ => WorkerStepKeeps(j, e);
  }

  lemma NewJobFits(o: Options)
    ensures JobInvariant(NewJob(o))
  {
    assert Concat([]) == [];
  }

  /** The pool: its limits, its sessions in order of creation, and its counters. */
  datatype World = World(limit: nat, maxActive: nat, jobs: seq<Job>, total: int, active: int,
                         completed: nat, failed: nat, canceled: nat)

  datatype Event = Create(options: Options) | At(i: nat, event: JobEvent)

  /** The counter that a finished session moves. */
  function Counted(w: World, r: Result): World {
    if r.canceled then w.(canceled := w.canceled + 1)
    else if r.ok then w.(completed := w.completed + 1)
    else w.(failed := w.failed + 1)
  }

  predicate AllFit(w: World) { forall j | j in w.jobs :: Fits(j) }

  function Next(w: World, e: Event): World
    requires AllFit(w)
  {
    match e
    case Create(o) =>
      if w.active >= w.maxActive then w
      else w.(active := w.active + 1, jobs := w.jobs + [NewJob(o)])
    case At(i, event) =>
      if i >= |w.jobs| then w
      else
        var j := w.jobs[i];
        var (t, total) := JobStep(w.limit, w.total, j, event);
        var v := w.(jobs := w.jobs[i := t], total := total);
        if j.worker.Retiring? && event.Retire? then v.(active := v.active - 1)
        else if j.worker.Counting? && event.CountResult? then Counted(v, j.worker.result)
        else v
  }

  /** What a session counts as. */
  datatype Stage = Active | Leaving | Completed | Broken | Canceled

  function StageOf(j: Job): Stage {
    match j.worker
    case Counting(_) => Leaving
    case Marking(r) => if r.canceled then Canceled else if r.ok then Completed else Broken
    case Complete(r) => if r.canceled then Canceled else if r.ok then Completed else Broken
    case _ => Active
  }

  function Tally(jobs: seq<Job>, stage: Stage): nat {
    if jobs == [] then 0 else Tally(jobs[..|jobs| - 1], stage) + if StageOf(jobs[|jobs| - 1]) == stage then 1 else 0
  }

  function SumQueued(jobs: seq<Job>): nat {
    if jobs == [] then 0 else SumQueued(jobs[..|jobs| - 1]) + jobs[|jobs| - 1].session.queued
  }

  predicate Invariant(w: World) {
    && (forall j | j in w.jobs :: JobInvariant(j))
    && w.total == SumQueued(w.jobs) <= w.limit
    && w.active == Tally(w.jobs, Active) <= w.maxActive
    && w.completed == Tally(w.jobs, Completed) && w.failed == Tally(w.jobs, Broken)
       && w.canceled == Tally(w.jobs, Canceled)
  }

  lemma {:induction false} SumUpdated(jobs: seq<Job>, i: nat, t: Job)
    requires i < |jobs|
    ensures SumQueued(jobs[i := t]) == SumQueued(jobs) - jobs[i].session.queued + t.session.queued
    decreases |jobs|
  {
    var n := |jobs| - 1;
    if i < n {
      SumUpdated(jobs[..n], i, t);
      assert jobs[i := t][..n] == jobs[..n][i := t];
    } else {
      assert jobs[i := t][..n] == jobs[..n];
    }
  }

  lemma {:induction false} TallyUpdated(jobs: seq<Job>, i: nat, t: Job, stage: Stage)
    requires i < |jobs|
    ensures Tally(jobs[i := t], stage) ==
            Tally(jobs, stage) - (if StageOf(jobs[i]) == stage then 1 else 0) + if StageOf(t) == stage then 1 else 0
    decreases |jobs|
  {
    var n := |jobs| - 1;
    if i < n {
      TallyUpdated(jobs[..n], i, t, stage);
      assert jobs[i := t][..n] == jobs[..n][i := t];
    } else {
      assert jobs[i := t][..n] == jobs[..n];
    }
  }

  lemma {:induction false} StagesAddUp(jobs: seq<Job>)
    ensures |jobs| == Tally(jobs, Active) + Tally(jobs, Leaving) + Tally(jobs, Completed) + Tally(jobs, Broken)
            + Tally(jobs, Canceled)
    decreases |jobs|
  {
    if jobs != [] {
      StagesAddUp(jobs[..|jobs| - 1]);
    }
  }

  lemma AppendCounts(limit: nat, total: int, j: Job, data: Bytes)
    requires Fits(j)
    ensures var (t, total') := AppendStep(limit, total, j, data);
            total' - total == t.session.queued - j.session.queued && (total' <= total || total' <= limit)
  {
    AppendCases(limit, total, j, data);
    hide AppendStep, Concat, BlocksFit;
  }

  lemma TakeCounts(total: int, j: Job)
    requires Fits(j)
    ensures var (t, total') := TakeStep(total, j);
            total' - total == t.session.queued - j.session.queued && total' <= total
  {
    hide Concat, BlocksFit;
  }

  /** The worker changes the session in three of its steps only. */
  lemma WorkerLeaves(j: Job, e: JobEvent)
    requires !e.RecordBlock? && !e.ReleaseBlocks? && !e.MarkDone?
    ensures WorkerStep(j, e).session == j.session
  {
    hide Min;
  }

  lemma WorkerCounts(j: Job, e: JobEvent)
    ensures WorkerStep(j, e).session.queued == j.session.queued
  {
    if !e.RecordBlock? && !e.ReleaseBlocks? && !e.MarkDone? {
      WorkerLeaves(j, e);
      hide WorkerStep;
    }
  }

  /** What a step of one session does to the pool's bytes. */
  lemma JobStepCounts(limit: nat, total: int, j: Job, e: JobEvent)
    requires Fits(j)
    ensures var (t, total') := JobStep(limit, total, j, e);
            && total' - total == t.session.queued - j.session.queued
            && (total' <= total || total' <= limit)
  {
    hide AppendStep, TakeStep, WorkerStep, Fits;
    match e
    case Append(data) => AppendCounts(limit, total, j, data);
    case Finish =>
    case Cancel =>
    case TakeBlock => TakeCounts(total, j);
    case _ => WorkerCounts(j, e);
  }

  lemma JobStepStage(limit: nat, total: int, j: Job, e: JobEvent)
    requires Fits(j)
    ensures var s, t := StageOf(j), StageOf(JobStep(limit, total, j, e).0);
            if j.worker.Retiring? && e.Retire? then s == Active && t == Leaving
            else if j.worker.Counting? && e.CountResult? then
              s == Leaving
              && t == (if j.worker.result.canceled then Canceled else if j.worker.result.ok then Completed else Broken)
            else s == t
  {
    hide Concat, BlocksFit, AfterAppend;
  }

  lemma CreateKeeps(w: World, o: Options)
    requires Invariant(w)
    ensures Invariant(Next(w, Create(o)))
  {
    NewJobFits(o);
    hide JobInvariant;
    var jobs := w.jobs + [NewJob(o)];
    assert jobs[..|w.jobs|] == w.jobs;
  }

  /** One session moves from stage `was` to stage `now`, and the counters with it. */
  lemma CountersKeep(w: World, v: World, i: nat, t: Job)
    requires Invariant(w) && i < |w.jobs| && v.jobs == w.jobs[i := t]
    requires v.limit == w.limit && v.maxActive == w.maxActive
    requires v.total - w.total == t.session.queued - w.jobs[i].session.queued && v.total <= w.limit
    requires var was, now := StageOf(w.jobs[i]), StageOf(t);
             && (now == Active ==> was == Active)
             && v.active == w.active - (if was == Active then 1 else 0) + (if now == Active then 1 else 0)
             && v.completed == w.completed - (if was == Completed then 1 else 0) + (if now == Completed then 1 else 0)
             && v.failed == w.failed - (if was == Broken then 1 else 0) + (if now == Broken then 1 else 0)
             && v.canceled == w.canceled - (if was == Canceled then 1 else 0) + (if now == Canceled then 1 else 0)
    requires JobInvariant(t)
    ensures Invariant(v)
  {
    SumUpdated(w.jobs, i, t);
    TallyUpdated(w.jobs, i, t, Active);
    TallyUpdated(w.jobs, i, t, Completed);
    TallyUpdated(w.jobs, i, t, Broken);
    TallyUpdated(w.jobs, i, t, Canceled);
    hide JobInvariant, StageOf, Tally, SumQueued;
    assert forall j | j in v.jobs :: j == t || j in w.jobs;
  }

  lemma AtKeeps(w: World, i: nat, e: JobEvent)
    requires Invariant(w) && AllFit(w) && i < |w.jobs|
    ensures Invariant(Next(w, At(i, e)))
  {
    var j := w.jobs[i];
    assert JobInvariant(j) && w.total <= w.limit;
    assert Fits(j);
    JobStepKeeps(w.limit, w.total, j, e);
    JobStepCounts(w.limit, w.total, j, e);
    JobStepStage(w.limit, w.total, j, e);
    hide JobInvariant, JobStep, StageOf, Fits, Tally, SumQueued, Invariant;
    CountersKeep(w, Next(w, At(i, e)), i, JobStep(w.limit, w.total, j, e).0);
  }

  lemma InvariantFits(w: World)
    requires Invariant(w)
    ensures AllFit(w)
  {
  }

  lemma StepKeeps(w: World, e: Event)
    requires Invariant(w) && AllFit(w)
    ensures Invariant(Next(w, e)) && AllFit(Next(w, e))
  {
    match e {
      case Create(o) => CreateKeeps(w, o);
      case At(i, event) => if i < |w.jobs| { AtKeeps(w, i, event); }
    }
    InvariantFits(Next(w, e));
  }

  function Start(limit: nat, maxActive: nat): (w: World)
    ensures Invariant(w)
  {
    World(limit, maxActive, [], 0, 0, 0, 0, 0)
  }

  function Run(w: World, events: seq<Event>): (v: World)
    requires Invariant(w)
    ensures Invariant(v)
    decreases |events|
  {
    if events == [] then w
    else
      InvariantFits(w);
      StepKeeps(w, events[0]);
      Run(Next(w, events[0]), events[1..])
  }

  function AfterRun(limit: nat, maxActive: nat, events: seq<Event>): (w: World)
    ensures Invariant(w)
  {
    Run(Start(limit, maxActive), events)
  }

  /**
   * Byte exact: as long as the worker has thrown nothing away and no file operation failed, the file,
   * the block in flight, the ready blocks and the pending block are the accepted bytes. A final
   * file exists exactly when the result is ok, and then it is all accepted bytes.
   */
  lemma ByteExact(limit: nat, maxActive: nat, events: seq<Event>, i: nat)
    requires i < |AfterRun(limit, maxActive, events).jobs|
    ensures var j := AfterRun(limit, maxActive, events).jobs[i];
            && (!j.discarded && j.ok ==>
               j.file + InFlight(j) + Concat(j.session.ready) + j.session.pending == j.accepted)
            && (j.discarded ==> j.session.canceled || j.session.failed || !j.ok)
            && (j.finalFile.Some? <==> HasResult(j) && j.worker.result.ok)
            && (j.finalFile.Some? ==> j.finalFile.value == j.accepted && j.worker.result.bytes == |j.accepted|)
  {
    var w := AfterRun(limit, maxActive, events);
    assert w.jobs[i] in w.jobs;
    hide AfterRun;
    FactsOfJob(w.jobs[i]);
  }

  lemma FactsOfJob(j: Job)
    requires JobInvariant(j)
    ensures !j.discarded && j.ok ==> j.file + InFlight(j) + Concat(j.session.ready) + j.session.pending == j.accepted
    ensures j.discarded ==> j.session.canceled || j.session.failed || !j.ok
    ensures j.finalFile.Some? <==> HasResult(j) && j.worker.result.ok
    ensures j.finalFile.Some? ==> j.finalFile.value == j.accepted && j.worker.result.bytes == |j.accepted|
    ensures j.worker.Complete? && j.fileOpened ==> j.session.queued == 0
    ensures j.fileOpened || !j.discarded ==> |j.accepted| <= j.options.maxUploadSize + Capacity(j.options)
  {
    assert Concat([]) == [];
  }

  /** The counters of the pool at any moment. */
  lemma Accounting(limit: nat, maxActive: nat, events: seq<Event>)
    ensures var w := AfterRun(limit, maxActive, events);
            && w.total == SumQueued(w.jobs) <= limit
            && w.active == Tally(w.jobs, Active) <= maxActive
            && |w.jobs| == w.active + w.completed + w.failed + w.canceled + Tally(w.jobs, Leaving)
  {
    var w := AfterRun(limit, maxActive, events);
    LimitsStay(Start(limit, maxActive), events);
    StagesAddUp(w.jobs);
    hide Tally, SumQueued, AfterRun;
    assert Invariant(w);
  }

  lemma {:induction false} LimitsStay(w: World, events: seq<Event>)
    requires Invariant(w)
    ensures Run(w, events).limit == w.limit && Run(w, events).maxActive == w.maxActive
    decreases |events|
  {
    if events != [] {
      InvariantFits(w);
      StepKeeps(w, events[0]);
      assert Next(w, events[0]).limit == w.limit && Next(w, events[0]).maxActive == w.maxActive by { hide JobStep; }
      hide Next, Invariant, AllFit;
      LimitsStay(Next(w, events[0]), events[1..]);
    }
  }

  /** The watermark transitions alternate, and a paused producer always has a block to wait for. */
  lemma Watermarks(limit: nat, maxActive: nat, events: seq<Event>, i: nat)
    requires i < |AfterRun(limit, maxActive, events).jobs|
    ensures var j := AfterRun(limit, maxActive, events).jobs[i];
            && (forall k | 0 <= k < |j.marks| :: j.marks[k] == if k % 2 == 0 then High else Low)
            && (j.session.aboveHigh <==> |j.marks| % 2 == 1)
            && (SaneMarks(j.options) && !j.discarded ==>
                  && (j.session.aboveHigh ==> j.session.queued > j.options.lowWatermark)
                  && (!j.session.aboveHigh ==> j.session.queued < j.options.highWatermark)
                  && (j.session.ready == [] ==> !j.session.aboveHigh))
  {
    var w := AfterRun(limit, maxActive, events);
    assert w.jobs[i] in w.jobs;
    hide AfterRun;
    MarkFacts(w.jobs[i]);
  }

  lemma MarkFacts(j: Job)
    requires JobInvariant(j)
    ensures MarkInvariant(j)
    ensures SaneMarks(j.options) && !j.discarded && j.session.ready == [] ==> !j.session.aboveHigh
  {
    assert Concat([]) == [];
    if Working(j) || j.fileOpened {
      assert j.session.ready == [] ==> j.session.queued == |j.session.pending|;
    }
  }

  /** One step, together with what it keeps. */
  function Kept(limit: nat, total: int, j: Job, e: JobEvent): (r: (Job, int))
    requires JobInvariant(j)
    ensures JobInvariant(r.0)
  {
    JobStepKeeps(limit, total, j, e);
    JobStep(limit, total, j, e)
  }

  /** One worker turn of one session with nothing else happening: take, write, record. */
  function Turn(limit: nat, total: int, j: Job): (r: (Job, int))
    requires JobInvariant(j)
    ensures JobInvariant(r.0)
  {
    var (j1, t1) := Kept(limit, total, j, TakeBlock);
    var (j2, t2) := Kept(limit, t1, j1, WriteBlock(true, 0));
    Kept(limit, t2, j2, RecordBlock)
  }

  function Turns(limit: nat, total: int, j: Job, n: nat): (r: (Job, int))
    requires JobInvariant(j)
    ensures JobInvariant(r.0)
    decreases n
  {
    if n == 0 then (j, total)
    else
      var (t, total') := Turn(limit, total, j);
      Turns(limit, total', t, n - 1)
  }

  /** A session whose worker is about to take a block and may do so. */
  predicate Drainable(j: Job) {
    j.worker.Taking? && !MustDiscard(j.session, j.ok) && SaneMarks(j.options) && !j.discarded
  }

  lemma TakeDoes(limit: nat, total: int, j: Job)
    requires JobInvariant(j) && Drainable(j) && j.session.ready != []
    ensures var t := Kept(limit, total, j, TakeBlock).0;
            && t.worker == Writing(j.session.ready[0]) && t.session.ready == j.session.ready[1..]
            && t.ok == j.ok && t.session.canceled == j.session.canceled && t.session.failed == j.session.failed
            && t.file == j.file && t.options == j.options && t.discarded == j.discarded
  {
    hide JobInvariant, Concat, BlocksFit;
  }

  lemma TurnDoes(limit: nat, total: int, j: Job)
    requires JobInvariant(j) && Drainable(j) && j.session.ready != []
    ensures var t := Turn(limit, total, j).0;
            Drainable(t) && t.session.ready == j.session.ready[1..] && t.file == j.file + j.session.ready[0]
  {
    TakeDoes(limit, total, j);
    var (j1, t1) := Kept(limit, total, j, TakeBlock);
    var (j2, t2) := Kept(limit, t1, j1, WriteBlock(true, 0));
    assert j2 == WorkerStep(j1, WriteBlock(true, 0));
    var (j3, t3) := Kept(limit, t2, j2, RecordBlock);
    assert j3 == WorkerStep(j2, RecordBlock);
    hide JobInvariant, Kept;
  }

  lemma NothingToDrain(j: Job)
    requires JobInvariant(j) && Drainable(j) && j.session.ready == []
    ensures !j.session.aboveHigh && j.file + Concat(j.session.ready) == j.file
  {
    MarkFacts(j);
    assert Concat([]) == [];
    assert j.file + [] == j.file;
  }

  lemma FileGrows(file: Bytes, ready: seq<Bytes>)
    requires ready != []
    ensures (file + ready[0]) + Concat(ready[1..]) == file + Concat(ready)
  {
    assert Concat(ready) == ready[0] + Concat(ready[1..]);
  }

  /** No stall: as many worker turns as there are ready blocks bring the session below its low watermark. */
  lemma {:induction false} DrainResumes(limit: nat, total: int, j: Job)
    requires JobInvariant(j) && Drainable(j)
    ensures var t := Turns(limit, total, j, |j.session.ready|).0;
            !t.session.aboveHigh && t.session.ready == [] && t.file == j.file + Concat(j.session.ready)
    decreases |j.session.ready|
  {
    hide JobInvariant, Turn, Drainable, Concat;
    if j.session.ready == [] {
      NothingToDrain(j);
    } else {
      TurnDoes(limit, total, j);
      var (t, total') := Turn(limit, total, j);
      DrainResumes(limit, total', t);
      FileGrows(j.file, j.session.ready);
    }
  }
}
