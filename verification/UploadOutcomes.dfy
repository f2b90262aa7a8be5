/** How an upload ends, told from the events of its session: what spoils it, and what does not. */
module UploadOutcomes {
  import opened Bytes
  import opened UploadSessions
  import opened UploadProtocol
  import opened UploadLeaks

  /** The worker has not looked at the flags of the session yet. */
  predicate Undecided(j: Job) { Working(j) || j.worker.Closing? || j.worker.Reading? }

  /** An append of data to an open session that would exceed the upload's limit or the pool's. */
  predicate OverLimit(w: World, j: Job, data: Bytes) {
    var s := j.session;
    && data != [] && !s.finished && !s.canceled && !s.failed && !s.workerDone
    && (s.written + s.queued + |data| > j.options.maxUploadSize || w.total + |data| > w.limit)
  }

  /** The events that spoil the upload of a session: over a limit, cancelled in time, or a failed file operation. */
  predicate Spoils(w: World, i: nat, e: Event)
    requires i < |w.jobs|
  {
    var j := w.jobs[i];
    e.At? && e.i == i &&
    match e.event
    case Append(data) => OverLimit(w, j, data)
    case Cancel => Undecided(j)
    case OpenFile(ok) => j.worker.Starting? && !ok
    case WriteBlock(ok, _) => j.worker.Writing? && !ok
    case CloseFile(ok) => j.worker.Closing? && j.fileOpened && !ok
    case RenameFile(ok) => j.worker.Renaming? && !ok
    case _ => false
  }

  predicate CancelsInTime(w: World, i: nat, e: Event)
    requires i < |w.jobs|
  {
    e == At(i, Cancel) && Undecided(w.jobs[i])
  }

  /** One of the events, at its moment, spoils the upload of session i. */
  predicate Spoiled(w: World, events: seq<Event>, i: nat)
    requires Invariant(w)
    decreases |events|
  {
    events != [] && (
      InvariantFits(w);
      StepKeeps(w, events[0]);
      (i < |w.jobs| && Spoils(w, i, events[0])) || Spoiled(Next(w, events[0]), events[1..], i))
  }

  predicate Canceled(w: World, events: seq<Event>, i: nat)
    requires Invariant(w)
    decreases |events|
  {
    events != [] && (
      InvariantFits(w);
      StepKeeps(w, events[0]);
      (i < |w.jobs| && CancelsInTime(w, i, events[0])) || Canceled(Next(w, events[0]), events[1..], i))
  }

  /** A session against what has happened to it. */
  predicate Tracks(j: Job, spoiled: bool, canceled: bool) {
    && (Undecided(j) ==> (spoiled <==> j.session.canceled || j.session.failed || !j.ok))
    && (Undecided(j) ==> (canceled <==> j.session.canceled))
    && (j.worker.Renaming? ==> !spoiled && !canceled)
    && (HasResult(j) ==> (j.worker.result.ok <==> !spoiled) && (j.worker.result.canceled <==> canceled))
  }

  lemma AppendTracks(w: World, j: Job, data: Bytes, spoiled: bool, canceled: bool)
    requires JobInvariant(j) && Tracks(j, spoiled, canceled)
    ensures Tracks(AppendStep(w.limit, w.total, j, data).0, spoiled || OverLimit(w, j, data), canceled)
  {
    DecidedIsFinished(j);
    hide Concat, BlocksFit, Fill, SessionInvariant, WorkerInvariant, FlowInvariant, ResultInvariant, MarkInvariant;
    assert Fits(j) by { JobFits(j); }
  }

  lemma JobFits(j: Job)
    requires JobInvariant(j)
    ensures Fits(j)
  {
  }

  /** Once the flags have been read, an open session has a failed result. */
  lemma DecidedIsFinished(j: Job)
    requires JobInvariant(j)
    ensures !Undecided(j) ==> j.session.finished || (HasResult(j) && !j.worker.result.ok)
    ensures HasResult(j) || j.worker.Renaming? || Undecided(j)
  {
    hide Concat, BlocksFit;
  }

  lemma FinishTracks(j: Job, spoiled: bool, canceled: bool)
    requires Tracks(j, spoiled, canceled)
    ensures Tracks(j.(session := AfterFinish(j.session)), spoiled, canceled)
  {
  }

  lemma CancelTracks(j: Job, spoiled: bool, canceled: bool)
    requires JobInvariant(j) && Tracks(j, spoiled, canceled)
    ensures Tracks(j.(session := AfterCancel(j.session)), spoiled || Undecided(j), canceled || Undecided(j))
  {
    hide Concat, BlocksFit, FlowInvariant, MarkInvariant;
  }

  lemma TakeTracks(total: int, j: Job, spoiled: bool, canceled: bool)
    requires Fits(j) && Tracks(j, spoiled, canceled)
    ensures Tracks(TakeStep(total, j).0, spoiled, canceled)
  {
    hide Concat, BlocksFit;
  }

  /** The worker's other steps: failed file operations spoil, and nothing else does. */
  lemma WorkerTracks(j: Job, e: JobEvent, spoiled: bool, canceled: bool)
    requires JobInvariant(j) && Tracks(j, spoiled, canceled) && !e.Append? && !e.Cancel?
    ensures var fails := (e.OpenFile? && j.worker.Starting? && !e.ok) || (e.WriteBlock? && j.worker.Writing? && !e.ok)
                         || (e.CloseFile? && j.worker.Closing? && j.fileOpened && !e.ok)
                         || (e.RenameFile? && j.worker.Renaming? && !e.ok);
            Tracks(WorkerStep(j, e), spoiled || fails, canceled)
  {
    hide Concat, BlocksFit, FlowInvariant, MarkInvariant;
  }

  lemma JobTracks(w: World, i: nat, e: JobEvent, spoiled: bool, canceled: bool)
    requires i < |w.jobs| && JobInvariant(w.jobs[i]) && Fits(w.jobs[i]) && Tracks(w.jobs[i], spoiled, canceled)
    ensures var t := JobStep(w.limit, w.total, w.jobs[i], e).0;
            Tracks(t, spoiled || Spoils(w, i, At(i, e)), canceled || CancelsInTime(w, i, At(i, e)))
  {
    hide JobInvariant, Tracks, AppendStep, TakeStep, WorkerStep, Fits, OverLimit;
    var j := w.jobs[i];
    match e
    case Append(data) => AppendTracks(w, j, data, spoiled, canceled);
    case Finish => FinishTracks(j, spoiled, canceled);
    case Cancel => CancelTracks(j, spoiled, canceled);
    case TakeBlock => TakeTracks(w.total, j, spoiled, canceled);
    case _ => WorkerTracks(j, e, spoiled, canceled);
  }

  lemma StepTracks(w: World, i: nat, e: Event, spoiled: bool, canceled: bool)
    requires Invariant(w) && AllFit(w) && i < |w.jobs| && Tracks(w.jobs[i], spoiled, canceled)
    ensures i < |Next(w, e).jobs|
    ensures Tracks(Next(w, e).jobs[i], spoiled || Spoils(w, i, e), canceled || CancelsInTime(w, i, e))
  {
    assert w.jobs[i] in w.jobs;
    hide JobInvariant, Tracks, JobStep, Fits;
    if e.At? && e.i == i {
      JobTracks(w, i, e.event, spoiled, canceled);
    }
  }

  lemma {:induction false} RunTracks(w: World, i: nat, events: seq<Event>, spoiled: bool, canceled: bool)
    requires Invariant(w) && i < |w.jobs| && Tracks(w.jobs[i], spoiled, canceled)
    ensures i < |Run(w, events).jobs|
    ensures Tracks(Run(w, events).jobs[i], spoiled || Spoiled(w, events, i), canceled || Canceled(w, events, i))
    decreases |events|
  {
    if events != [] {
      InvariantFits(w);
      StepKeeps(w, events[0]);
      StepTracks(w, i, events[0], spoiled, canceled);
      var s, c := Spoils(w, i, events[0]), CancelsInTime(w, i, events[0]);
      hide Invariant, Tracks, Next, Spoils, AllFit, CancelsInTime;
      RunTracks(Next(w, events[0]), i, events[1..], spoiled || s, canceled || c);
    }
  }

  /** The session that a run creates later. */
  lemma {:induction false} BirthTracks(w: World, i: nat, events: seq<Event>)
    requires Invariant(w) && i >= |w.jobs| && i < |Run(w, events).jobs|
    ensures Tracks(Run(w, events).jobs[i], Spoiled(w, events, i), Canceled(w, events, i))
    decreases |events|
  {
    if events != [] {
      InvariantFits(w);
      StepKeeps(w, events[0]);
      if i < |Next(w, events[0]).jobs| {
        Born(w, i, events[0]);
      }
      hide Invariant, Tracks, Next, Spoils, AllFit, CancelsInTime;
      if i < |Next(w, events[0]).jobs| {
        RunTracks(Next(w, events[0]), i, events[1..], false, false);
      } else {
        BirthTracks(Next(w, events[0]), i, events[1..]);
      }
    }
  }

  lemma Born(w: World, i: nat, e: Event)
    requires AllFit(w) && i >= |w.jobs| && i < |Next(w, e).jobs|
    ensures Tracks(Next(w, e).jobs[i], false, false)
  {
    hide JobStep;
  }

  /**
   * In every run: once there is a result, it is ok, and a final file exists, if and only if nothing
   * spoiled the upload. So an append refused by a limit, one cancel in time or one failed file operation
   * loses it, and only these do. It counts as cancelled if and only if it was cancelled in time.
   */
  lemma OutcomeIff(limit: nat, maxActive: nat, events: seq<Event>, i: nat)
    requires i < |AfterRun(limit, maxActive, events).jobs| && HasResult(AfterRun(limit, maxActive, events).jobs[i])
    ensures var j := AfterRun(limit, maxActive, events).jobs[i];
            var start := Start(limit, maxActive);
            && (j.worker.result.ok <==> !Spoiled(start, events, i))
            && (j.finalFile.Some? <==> !Spoiled(start, events, i))
            && (j.worker.result.canceled <==> Canceled(start, events, i))
  {
    var w := AfterRun(limit, maxActive, events);
    BirthTracks(Start(limit, maxActive), i, events);
    assert w.jobs[i] in w.jobs;
    hide AfterRun, Run, Spoiled, Canceled;
    ResultFacts(w.jobs[i]);
  }

  lemma ResultFacts(j: Job)
    requires JobInvariant(j)
    ensures HasResult(j) ==> (j.finalFile.Some? <==> j.worker.result.ok)
  {
    hide Concat, BlocksFit;
  }

  /** What an append makes ready are full blocks: of the block size, or of one byte when that is 0. */
  lemma {:induction false} FillsFull(o: UploadSessions.Options, ready: seq<Bytes>, pending: Bytes, data: Bytes)
    requires |pending| < Capacity(o)
    ensures var size := if o.blockSize == 0 then 1 else o.blockSize;
            var (more, last) := Fill(Capacity(o), ready, pending, data);
            && ready <= more && |last| < size && forall i | |ready| <= i < |more| :: |more[i]| == size
    decreases |data|
  {
    if data != [] {
      var n := UploadSessions.Min(|data|, Capacity(o) - |pending|);
      var block := pending + data[..n];
      if |block| == Capacity(o) {
        FillsFull(o, ready + [block], [], data[n..]);
      } else {
        FillsFull(o, ready, block, data[n..]);
      }
    }
  }

  /** What append answers: true for no data, otherwise exactly when the session is open and both limits hold. */
  lemma AppendAnswers(o: UploadSessions.Options, limit: nat, s: Session, total: int, data: Bytes)
    requires |s.pending| < Capacity(o)
    ensures var r := AfterAppend(o, limit, s, total, data);
            var open := !s.finished && !s.canceled && !s.failed && !s.workerDone;
            var fits := s.written + s.queued + |data| <= o.maxUploadSize && total + |data| <= limit;
            && (r.ok <==> data == [] || (open && fits))
            && r.total == (if r.ok then total + |data| else total)
            && (!r.ok && open ==> r.session == s.(failed := true, finished := true))
            && (!r.ok && !open ==> r.session == s)
  {
    hide Fill;
  }

  /** What the worker does with the queue empty: it closes, reads the flags, renames or removes, and reports. */
  function LastSteps(renames: bool): seq<JobEvent> {
    [TakeBlock, CloseFile(true), ReadFlags, if renames then RenameFile(true) else RemoveFile, ReleaseBlocks, Retire,
     CountResult, MarkDone]
  }

  /** The same after so many blocks, each taken, written and recorded. */
  function WorkerSteps(n: nat, renames: bool): seq<JobEvent> {
    if n == 0 then LastSteps(renames) else [TakeBlock, WriteBlock(true, 0), RecordBlock] + WorkerSteps(n - 1, renames)
  }

  lemma Then(limit: nat, total: int, j: Job, e: JobEvent, es: seq<JobEvent>)
    requires JobInvariant(j)
    ensures var r := Kept(limit, total, j, e); Steps(limit, total, j, [e] + es) == Steps(limit, r.1, r.0, es)
  {
    hide JobInvariant, Kept;
    assert ([e] + es)[1..] == es;
  }

  lemma StepOf(limit: nat, total: int, j: Job, e: JobEvent, es: seq<JobEvent>) returns (t: Job, left: int)
    requires JobInvariant(j) && !e.Append? && !e.Finish? && !e.Cancel? && !e.TakeBlock?
    ensures t == WorkerStep(j, e) && left == total && JobInvariant(t)
    ensures Steps(limit, total, j, [e] + es) == Steps(limit, left, t, es)
  {
    Then(limit, total, j, e, es);
    t, left := Kept(limit, total, j, e).0, total;
    hide JobInvariant, WorkerStep;
  }

  lemma LastTake(limit: nat, total: int, j: Job, es: seq<JobEvent>) returns (t: Job, left: int)
    requires JobInvariant(j) && j.worker.Taking? && j.session.finished
    requires MustDiscard(j.session, j.ok) || j.session.ready == []
    ensures JobInvariant(t) && t.worker == Closing && t.ok == j.ok && t.fileOpened == j.fileOpened
    ensures t.session.canceled == j.session.canceled && t.session.failed == j.session.failed
    ensures t.accepted == j.accepted && Steps(limit, total, j, [TakeBlock] + es) == Steps(limit, left, t, es)
  {
    Then(limit, total, j, TakeBlock, es);
    t, left := Kept(limit, total, j, TakeBlock).0, Kept(limit, total, j, TakeBlock).1;
    hide JobInvariant, Concat, BlocksFit;
  }

  lemma ReleasingSteps(j: Job)
    ensures j.worker.Releasing? ==>
              WorkerStep(j, ReleaseBlocks)
              == j.(worker := Retiring(j.worker.result), session := j.session.(ready := [], pending := []))
    ensures j.worker.Retiring? ==> WorkerStep(j, Retire) == j.(worker := Counting(j.worker.result))
    ensures j.worker.Counting? ==> WorkerStep(j, CountResult) == j.(worker := Marking(j.worker.result))
    ensures j.worker.Marking? ==>
              WorkerStep(j, MarkDone)
              == j.(worker := Worker.Complete(j.worker.result), session := j.session.(workerDone := true))
  {
  }

  /** A worker with a result reports it and is done. */
  lemma Retires(limit: nat, total: int, j: Job)
    requires JobInvariant(j) && j.worker.Releasing?
    ensures var t := Steps(limit, total, j, [ReleaseBlocks, Retire, CountResult, MarkDone]).0;
            && t.worker == Worker.Complete(j.worker.result) && t.session.workerDone && t.accepted == j.accepted
            && t.finalFile == j.finalFile
  {
    hide JobInvariant, Steps, WorkerStep, Released;
    var e, te := StepOf(limit, total, j, ReleaseBlocks, [Retire, CountResult, MarkDone]);
    ReleasingSteps(j);
    ReleasingSteps(e);
    var f, tf := StepOf(limit, te, e, Retire, [CountResult, MarkDone]);
    ReleasingSteps(f);
    var g, tg := StepOf(limit, tf, f, CountResult, [MarkDone]);
    ReleasingSteps(g);
    var h, th := StepOf(limit, tg, g, MarkDone, []);
    NoSteps(limit, th, h);
    assert [ReleaseBlocks] + [Retire, CountResult, MarkDone] == [ReleaseBlocks, Retire, CountResult, MarkDone];
    assert [Retire] + [CountResult, MarkDone] == [Retire, CountResult, MarkDone];
    assert [CountResult] + [MarkDone] == [CountResult, MarkDone] && [MarkDone] + [] == [MarkDone];
  }

  lemma ClosingSteps(j: Job)
    ensures j.worker.Closing? ==> WorkerStep(j, CloseFile(true)) == j.(worker := Reading)
    ensures j.worker.Reading? ==>
              var s := j.session;
              WorkerStep(j, ReadFlags)
              == j.(worker := if MustDiscard(s, j.ok) then Removing(Result(false, s.canceled, s.written))
                              else Renaming(s.written))
    ensures j.worker.Removing? ==> WorkerStep(j, RemoveFile) == j.(worker := Releasing(j.worker.result))
    ensures j.worker.Renaming? ==>
              WorkerStep(j, RenameFile(true))
              == j.(worker := Releasing(Result(true, false, j.worker.bytes)), finalFile := Some(j.file))
  {
  }

  /** From the last take on the worker reports, with the result that the flags say. */
  lemma Reports(limit: nat, total: int, j: Job, renames: bool)
    requires JobInvariant(j) && j.worker.Taking? && j.session.finished
    requires renames <==> !MustDiscard(j.session, j.ok)
    requires renames ==> j.session.ready == []
    ensures var t := Steps(limit, total, j, LastSteps(renames)).0;
            && t.worker.Complete? && t.session.workerDone && t.accepted == j.accepted
            && t.worker.result.ok == renames && t.worker.result.canceled == j.session.canceled
  {
    hide JobInvariant, Steps, WorkerStep;
    var last := if renames then RenameFile(true) else RemoveFile;
    var tail := [ReleaseBlocks, Retire, CountResult, MarkDone];
    var a, ta := LastTake(limit, total, j, [CloseFile(true)] + ([ReadFlags] + ([last] + tail)));
    ClosingSteps(a);
    var b, tb := StepOf(limit, ta, a, CloseFile(true), [ReadFlags] + ([last] + tail));
    ClosingSteps(b);
    var c, tc := StepOf(limit, tb, b, ReadFlags, [last] + tail);
    ClosingSteps(c);
    var d, td := StepOf(limit, tc, c, last, tail);
    Retires(limit, td, d);
    assert LastSteps(renames) == [TakeBlock] + ([CloseFile(true)] + ([ReadFlags] + ([last] + tail)));
  }

  lemma NoSteps(limit: nat, total: int, j: Job)
    requires JobInvariant(j)
    ensures Steps(limit, total, j, []) == (j, total)
  {
  }

  /** finish and cancel: a cancelled, failed or done session stays as it is for the one or the other. */
  lemma FlagsAre(s: Session)
    ensures var t := AfterFinish(s);
            && (s.canceled || s.failed ==> t == s)
            && (!s.canceled && !s.failed ==>
                  t.finished && t.pending == [] && t.queued == s.queued
                  && Concat(t.ready) == Concat(s.ready) + s.pending)
    ensures AfterCancel(s) == if s.workerDone then s else s.(canceled := true, finished := true)
  {
    ConcatSnoc(s.ready, s.pending);
    assert Concat(s.ready) + [] == Concat(s.ready);
  }

  /** The worker is about to take a block of a finished session and has no reason to throw it away. */
  predicate Takes(j: Job) { j.worker.Taking? && j.session.finished && !MustDiscard(j.session, j.ok) }

  lemma TakesBlock(limit: nat, total: int, j: Job, es: seq<JobEvent>) returns (t: Job, left: int)
    requires JobInvariant(j) && Takes(j) && j.session.ready != []
    ensures JobInvariant(t) && t.worker == Writing(j.session.ready[0]) && t.session.ready == j.session.ready[1..]
    ensures t.session.finished && !MustDiscard(t.session, t.ok) && t.accepted == j.accepted
    ensures t.session.canceled == j.session.canceled
    ensures Steps(limit, total, j, [TakeBlock] + es) == Steps(limit, left, t, es)
  {
    Then(limit, total, j, TakeBlock, es);
    t, left := Kept(limit, total, j, TakeBlock).0, Kept(limit, total, j, TakeBlock).1;
    hide JobInvariant, Concat, BlocksFit, Steps;
  }

  lemma WritingSteps(j: Job)
    ensures j.worker.Writing? ==>
              WorkerStep(j, WriteBlock(true, 0))
              == j.(worker := Recording(j.worker.block), ok := true, file := j.file + j.worker.block)
    ensures j.worker.Recording? && j.ok ==>
              var t := WorkerStep(j, RecordBlock);
              t == j.(worker := Taking, session := t.session)
              && t.session == j.session.(written := j.session.written + |j.worker.block|)
  {
  }

  lemma OneBlockDone(limit: nat, total: int, j: Job, es: seq<JobEvent>) returns (t: Job, left: int)
    requires JobInvariant(j) && Takes(j) && j.session.ready != []
    ensures JobInvariant(t) && Takes(t) && t.session.ready == j.session.ready[1..] && t.accepted == j.accepted
    ensures Steps(limit, total, j, [TakeBlock, WriteBlock(true, 0), RecordBlock] + es) == Steps(limit, left, t, es)
  {
    hide JobInvariant, Steps, WorkerStep;
    var a, ta := TakesBlock(limit, total, j, [WriteBlock(true, 0)] + ([RecordBlock] + es));
    WritingSteps(a);
    var b, tb := StepOf(limit, ta, a, WriteBlock(true, 0), [RecordBlock] + es);
    WritingSteps(b);
    t, left := StepOf(limit, tb, b, RecordBlock, es);
    assert [TakeBlock, WriteBlock(true, 0), RecordBlock] + es
           == [TakeBlock] + ([WriteBlock(true, 0)] + ([RecordBlock] + es));
  }

  /**
   * No session hangs: from any state in which the worker is about to take from a finished session, its
   * own steps, as many as there are ready blocks need, end with the result, and the final file is all that
   * was accepted, if the upload was neither cancelled nor has failed.
   */
  lemma {:induction false} FinishCompletes(limit: nat, total: int, j: Job)
    requires JobInvariant(j) && j.worker.Taking? && j.session.finished
    ensures var good := !MustDiscard(j.session, j.ok);
            var t := Steps(limit, total, j, WorkerSteps(if good then |j.session.ready| else 0, good)).0;
            && t.worker.Complete? && t.session.workerDone
            && t.worker.result.ok == good && t.worker.result.canceled == j.session.canceled
            && t.finalFile == if good then Some(j.accepted) else None
    decreases |j.session.ready|
  {
    var good := !MustDiscard(j.session, j.ok);
    if good && j.session.ready != [] {
      var t, left := OneBlockDone(limit, total, j, WorkerSteps(|j.session.ready| - 1, true));
      FinishCompletes(limit, left, t);
    } else {
      Reports(limit, total, j, good);
      var es := LastSteps(good);
      hide Steps, Concat;
      ResultFacts(Steps(limit, total, j, es).0);
    }
  }
}
