/** What an upload session whose queue was thrown away still accepts, and what the pool then never gets back. */
module UploadLeaks {
  import opened Bytes
  import opened UploadSessions
  import opened UploadProtocol

  /** `late` against the session: it is what stays queued, and it is bounded. */
  predicate LateInvariant(j: Job) {
    && (!j.discarded ==> j.late == [])
    && (j.discarded ==> j.session.queued == |j.late|)
    && (j.fileOpened ==> j.late == [])
    && (!j.fileOpened ==> j.session.written == 0)
    && |j.late| <= j.options.maxUploadSize
    && |j.late| <= |j.accepted| <= |j.late| + j.options.maxUploadSize + if j.fileOpened then Capacity(j.options) else 0
  }

  lemma AddKeepsLate(j: Job, data: Bytes, t: Job)
    requires JobInvariant(j) && LateInvariant(j) && Adds(j, data, t)
    ensures LateInvariant(t)
  {
    AddKeepsFlow(j, data, t);
    hide Concat, BlocksFit, Marked, ResultInvariant, MarkInvariant, Capacity;
  }

  lemma AppendKeepsLate(limit: nat, total: int, j: Job, data: Bytes)
    requires JobInvariant(j) && LateInvariant(j)
    ensures LateInvariant(AppendStep(limit, total, j, data).0)
  {
    AppendCases(limit, total, j, data);
    hide JobInvariant, AppendStep, Adds;
    var t := AppendStep(limit, total, j, data).0;
    if Adds(j, data, t) {
      AddKeepsLate(j, data, t);
    }
  }

  lemma TakeKeepsLate(total: int, j: Job)
    requires JobInvariant(j) && LateInvariant(j)
    ensures LateInvariant(TakeStep(total, j).0)
  {
    hide Concat, BlocksFit, FlowInvariant, ResultInvariant, MarkInvariant, Marked;
  }

  lemma OpenKeepsLate(j: Job, ok: bool)
    requires JobInvariant(j) && LateInvariant(j)
    ensures LateInvariant(WorkerStep(j, OpenFile(ok)))
  {
    hide Concat, BlocksFit, FlowInvariant, ResultInvariant, MarkInvariant;
  }

  lemma RecordKeepsLate(j: Job)
    requires JobInvariant(j) && LateInvariant(j)
    ensures LateInvariant(WorkerStep(j, RecordBlock))
  {
    hide Concat, BlocksFit, FlowInvariant, ResultInvariant, MarkInvariant;
  }

  lemma OtherKeepsLate(j: Job, e: JobEvent)
    requires LateInvariant(j) && !e.OpenFile? && !e.RecordBlock?
    ensures LateInvariant(WorkerStep(j, e))
  {
    hide Min, Capacity;
  }

  lemma JobStepKeepsLate(limit: nat, total: int, j: Job, e: JobEvent)
    requires JobInvariant(j) && LateInvariant(j)
    ensures LateInvariant(JobStep(limit, total, j, e).0)
  {
    match e
    case Append(data) => AppendKeepsLate(limit, total, j, data);
    case TakeBlock => TakeKeepsLate(total, j);
    case OpenFile(ok) => OpenKeepsLate(j, ok);
    case RecordBlock => RecordKeepsLate(j);
    case Finish => hide JobInvariant, Capacity;
    case Cancel => hide JobInvariant, Capacity;
    case _ => OtherKeepsLate(j, e);
  }

  predicate AllLate(w: World) { forall j | j in w.jobs :: LateInvariant(j) }

  lemma StepKeepsLate(w: World, e: Event)
    requires Invariant(w) && AllFit(w) && AllLate(w)
    ensures AllLate(Next(w, e))
  {
    match e {
      case Create(o) =>
        assert LateInvariant(NewJob(o));
        hide LateInvariant, NewJob;
      case At(i, event) =>
        if i < |w.jobs| {
          assert w.jobs[i] in w.jobs;
          JobStepKeepsLate(w.limit, w.total, w.jobs[i], event);
          hide LateInvariant, JobStep, JobInvariant;
        }
    }
  }

  lemma {:induction false} RunKeepsLate(w: World, events: seq<Event>)
    requires Invariant(w) && AllLate(w)
    ensures AllLate(Run(w, events))
    decreases |events|
  {
    if events != [] {
      InvariantFits(w);
      StepKeeps(w, events[0]);
      StepKeepsLate(w, events[0]);
      hide Invariant, AllLate, Next, AllFit;
      RunKeepsLate(Next(w, events[0]), events[1..]);
    }
  }

  lemma ReachedJob(limit: nat, maxActive: nat, events: seq<Event>, j: Job)
    requires j in AfterRun(limit, maxActive, events).jobs
    ensures JobInvariant(j) && LateInvariant(j)
  {
    RunKeepsLate(Start(limit, maxActive), events);
    hide LateInvariant, JobInvariant, Run;
  }

  lemma StoppedQueue(j: Job)
    requires JobInvariant(j) && LateInvariant(j) && j.worker.Complete?
    ensures j.session.queued == |j.late| && (j.late != [] ==> j.discarded && !j.fileOpened)
  {
    assert Concat([]) == [];
    hide Concat, BlocksFit, FlowInvariant, MarkInvariant;
  }

  /**
   * What a finished session leaves counted as queued is exactly what it accepted after its queue
   * was thrown away; that is nothing when its file could be opened.
   */
  lemma LeavesLateBytes(limit: nat, maxActive: nat, events: seq<Event>, i: nat)
    requires i < |AfterRun(limit, maxActive, events).jobs|
             && AfterRun(limit, maxActive, events).jobs[i].worker.Complete?
    ensures var j := AfterRun(limit, maxActive, events).jobs[i];
            j.session.queued == |j.late| && (j.late != [] ==> j.discarded && !j.fileOpened)
  {
    var j := AfterRun(limit, maxActive, events).jobs[i];
    ReachedJob(limit, maxActive, events, j);
    hide AfterRun, JobInvariant, LateInvariant;
    StoppedQueue(j);
  }

  function SumLate(jobs: seq<Job>): nat {
    if jobs == [] then 0 else SumLate(jobs[..|jobs| - 1]) + |jobs[|jobs| - 1].late|
  }

  lemma {:induction false} SumsAgree(jobs: seq<Job>)
    requires forall j | j in jobs :: j.session.queued == |j.late|
    ensures SumQueued(jobs) == SumLate(jobs)
    ensures SumLate(jobs) == 0 <==> forall j | j in jobs :: j.late == []
    decreases |jobs|
  {
    if jobs != [] {
      var init, last := jobs[..|jobs| - 1], jobs[|jobs| - 1];
      SumsAgree(init);
      assert jobs == init + [last];
    }
  }

  /**
   * When every session is done, the pool still counts exactly the bytes accepted too late; it
   * counts nothing if and only if no session accepted anything after its queue was thrown away.
   */
  lemma NothingLeaks(limit: nat, maxActive: nat, events: seq<Event>)
    requires forall j | j in AfterRun(limit, maxActive, events).jobs :: j.worker.Complete?
    ensures var w := AfterRun(limit, maxActive, events);
            && w.total == SumLate(w.jobs)
            && (w.total == 0 <==> forall j | j in w.jobs :: j.late == [])
            && ((forall j | j in w.jobs :: j.fileOpened) ==> w.total == 0)
  {
    var w := AfterRun(limit, maxActive, events);
    forall j | j in w.jobs ensures j.session.queued == |j.late| && (j.late != [] ==> !j.fileOpened) {
      ReachedJob(limit, maxActive, events, j);
      StoppedQueue(j);
    }
    SumsAgree(w.jobs);
    hide AfterRun, SumLate, SumQueued, JobInvariant;
    assert Invariant(w);
  }

  /**
   * What a session accepts: the upload limit and one block when its file was opened; without a
   * file the limit once before its queue is thrown away and once after.
   */
  lemma AcceptedBounded(limit: nat, maxActive: nat, events: seq<Event>, i: nat)
    requires i < |AfterRun(limit, maxActive, events).jobs|
    ensures var j := AfterRun(limit, maxActive, events).jobs[i];
            && |j.accepted| <= j.options.maxUploadSize + |j.late| + (if j.fileOpened then Capacity(j.options) else 0)
            && |j.late| <= j.options.maxUploadSize
            && (j.fileOpened || !j.discarded ==> j.late == [])
  {
    var j := AfterRun(limit, maxActive, events).jobs[i];
    ReachedJob(limit, maxActive, events, j);
    hide AfterRun, JobInvariant;
  }

  /** The steps of a worker whose file could not be opened, from leaving its loop to the end. */
  const WIND_UP: seq<JobEvent> := [CloseFile(true), ReadFlags, RemoveFile, ReleaseBlocks, Retire, CountResult, MarkDone]

  /** One session's steps, one after the other. */
  function Steps(limit: nat, total: int, j: Job, es: seq<JobEvent>): (r: (Job, int))
    requires JobInvariant(j)
    ensures JobInvariant(r.0)
    decreases |es|
  {
    if es == [] then (j, total)
    else
      var (t, left) := Kept(limit, total, j, es[0]);
      Steps(limit, left, t, es[1..])
  }

  function AtFirst(es: seq<JobEvent>): seq<Event> {
    if es == [] then [] else [At(0, es[0])] + AtFirst(es[1..])
  }

  /** A pool with a single session follows that session. */
  lemma SoleStep(w: World, j: Job, e: JobEvent)
    requires AllFit(w) && JobInvariant(j) && w.jobs == [j]
    ensures var v, r := Next(w, At(0, e)), Kept(w.limit, w.total, j, e);
            v.jobs == [r.0] && v.total == r.1 && v.limit == w.limit
  {
    assert w.jobs[0] == j;
    hide JobStep, JobInvariant, AllFit;
  }

  lemma {:induction false} SoleSession(w: World, j: Job, es: seq<JobEvent>)
    requires Invariant(w) && w.jobs == [j]
    ensures JobInvariant(j)
    ensures var v, r := Run(w, AtFirst(es)), Steps(w.limit, w.total, j, es); v.jobs == [r.0] && v.total == r.1
    decreases |es|
  {
    assert j in w.jobs;
    InvariantFits(w);
    if es != [] {
      var e := At(0, es[0]);
      StepKeeps(w, e);
      var (t, left) := Kept(w.limit, w.total, j, es[0]);
      SoleStep(w, j, es[0]);
      hide Invariant, Next, Kept, JobInvariant, AllFit;
      assert AtFirst(es)[0] == e && AtFirst(es)[1..] == AtFirst(es[1..]);
      SoleSession(Next(w, e), t, es[1..]);
    }
  }

  lemma {:induction false} StepsAppend(limit: nat, total: int, j: Job, a: seq<JobEvent>, b: seq<JobEvent>)
    requires JobInvariant(j)
    ensures var r := Steps(limit, total, j, a); Steps(limit, total, j, a + b) == Steps(limit, r.1, r.0, b)
    decreases |a|
  {
    hide JobInvariant, Kept;
    if a == [] {
      assert a + b == b;
    } else {
      assert (a + b)[0] == a[0] && (a + b)[1..] == a[1..] + b;
      var (t, left) := Kept(limit, total, j, a[0]);
      StepsAppend(limit, left, t, a[1..], b);
    }
  }

  lemma OneStep(limit: nat, total: int, j: Job, e: JobEvent)
    requires JobInvariant(j)
    ensures Fits(j) && Steps(limit, total, j, [e]) == JobStep(limit, total, j, e)
  {
    hide JobStep;
    assert [e][1..] == [];
    var (t, left) := Kept(limit, total, j, e);
    assert Steps(limit, left, t, []) == (t, left);
  }

  /** One more step at the end of some. */
  lemma StepsSnoc(limit: nat, total: int, j: Job, es: seq<JobEvent>, e: JobEvent)
    requires JobInvariant(j)
    ensures var r := Steps(limit, total, j, es);
            Fits(r.0) && Steps(limit, total, j, es + [e]) == JobStep(limit, r.1, r.0, e)
  {
    var r := Steps(limit, total, j, es);
    StepsAppend(limit, total, j, es, [e]);
    OneStep(limit, r.1, r.0, e);
  }

  lemma FirstBlockReady(limit: nat, o: Options, data: Bytes)
    requires Capacity(o) <= |data| <= o.maxUploadSize && |data| <= limit
    ensures Fits(NewJob(o))
    ensures var (j, total) := AppendStep(limit, 0, NewJob(o), data);
            && total == |data| && j.session.ready != [] && j.session.queued == |data|
            && j == NewJob(o).(session := j.session, accepted := data, marks := j.marks)
            && !Refuses(j.session) && j.session.written == 0
  {
    assert Concat([]) == [];
    AcceptedBlocks(o, limit, FRESH, 0, data);
    hide Fill, Capacity;
    var u := AfterAppend(o, limit, FRESH, 0, data).session;
    assert Concat(u.ready) + u.pending == [] + [] + data == data;
    assert NewJob(o).accepted + data == data;
    assert |Concat(u.ready)| + |u.pending| == |data|;
  }

  lemma AcceptsOnce(limit: nat, j: Job, data: Bytes)
    requires Fits(j) && data != [] && |data| <= j.options.maxUploadSize && |data| <= limit
    requires !Refuses(j.session) && j.session.written == 0 && j.session.queued == 0 && j.discarded
    ensures var (t, total) := AppendStep(limit, 0, j, data);
            && t == j.(session := t.session, accepted := j.accepted + data, late := j.late + data, marks := t.marks)
            && t.session.queued == |data| == total && !t.session.canceled && !t.session.failed && t.session.written == 0
  {
    hide Fill, Concat;
  }

  lemma ThrownAway(total: int, j: Job)
    requires Fits(j) && j.worker.Taking? && !j.ok && j.session.ready != []
    ensures var (t, left) := TakeStep(total, j);
            && left == total - j.session.queued
            && t == j.(session := Discarded(j.session), worker := Closing, discarded := true, marks := t.marks)
  {
    hide Concat;
  }

  /** A step of the worker alone at the end of some steps. */
  lemma WorkerSnoc(limit: nat, total: int, j: Job, es: seq<JobEvent>, t: Job, left: int, e: JobEvent)
    requires JobInvariant(j) && Steps(limit, total, j, es) == (t, left)
    requires !e.Append? && !e.Finish? && !e.Cancel? && !e.TakeBlock?
    ensures Steps(limit, total, j, es + [e]) == (WorkerStep(t, e), left)
  {
    StepsSnoc(limit, total, j, es, e);
    hide Steps, WorkerStep, JobInvariant, Fits;
  }

  lemma ClosingSteps(j: Job)
    requires j.worker.Closing? && !j.ok
    ensures WorkerStep(j, CloseFile(true)) == j.(worker := Reading)
    ensures WorkerStep(j.(worker := Reading), ReadFlags)
            == j.(worker := Removing(Result(false, j.session.canceled, j.session.written)))
  {
  }

  lemma FlagsRead(limit: nat, total: int, j: Job)
    requires JobInvariant(j) && j.worker.Closing? && !j.ok
    ensures Steps(limit, total, j, [CloseFile(true), ReadFlags])
            == (j.(worker := Removing(Result(false, j.session.canceled, j.session.written))), total)
  {
    hide Steps, JobInvariant, WorkerStep;
    ClosingSteps(j);
    var none: seq<JobEvent>, first: seq<JobEvent> := [], [CloseFile(true)];
    StepsOfNone(limit, total, j);
    WorkerSnoc(limit, total, j, none, j, total, CloseFile(true));
    assert none + [CloseFile(true)] == first;
    WorkerSnoc(limit, total, j, first, j.(worker := Reading), total, ReadFlags);
    assert first + [ReadFlags] == [CloseFile(true), ReadFlags];
  }

  lemma ReleasingSteps(j: Job, r: Result)
    requires j.worker == Removing(r)
    ensures WorkerStep(j, RemoveFile) == j.(worker := Releasing(r))
    ensures WorkerStep(j.(worker := Releasing(r)), ReleaseBlocks)
            == j.(worker := Retiring(r), session := Released(j.session))
  {
  }

  lemma BlocksReleased(limit: nat, total: int, j: Job, r: Result)
    requires JobInvariant(j) && j.worker == Removing(r)
    ensures Steps(limit, total, j, [RemoveFile, ReleaseBlocks])
            == (j.(worker := Retiring(r), session := Released(j.session)), total)
  {
    hide Steps, JobInvariant, WorkerStep;
    ReleasingSteps(j, r);
    var none: seq<JobEvent>, first: seq<JobEvent> := [], [RemoveFile];
    StepsOfNone(limit, total, j);
    WorkerSnoc(limit, total, j, none, j, total, RemoveFile);
    assert none + [RemoveFile] == first;
    WorkerSnoc(limit, total, j, first, j.(worker := Releasing(r)), total, ReleaseBlocks);
    assert first + [ReleaseBlocks] == [RemoveFile, ReleaseBlocks];
  }

  lemma CountedDone(j: Job, r: Result)
    requires j.worker == Retiring(r)
    ensures WorkerStep(j, Retire) == j.(worker := Counting(r))
    ensures WorkerStep(j.(worker := Counting(r)), CountResult) == j.(worker := Marking(r))
    ensures WorkerStep(j.(worker := Marking(r)), MarkDone)
            == j.(worker := Complete(r), session := j.session.(workerDone := true))
  {
  }

  lemma WoundUp(limit: nat, total: int, j: Job, r: Result)
    requires JobInvariant(j) && j.worker == Retiring(r)
    ensures Steps(limit, total, j, [Retire, CountResult, MarkDone])
            == (j.(worker := Complete(r), session := j.session.(workerDone := true)), total)
  {
    hide Steps, JobInvariant, WorkerStep;
    CountedDone(j, r);
    var none: seq<JobEvent>, one: seq<JobEvent>, two: seq<JobEvent> := [], [Retire], [Retire, CountResult];
    StepsOfNone(limit, total, j);
    WorkerSnoc(limit, total, j, none, j, total, Retire);
    assert none + [Retire] == one;
    WorkerSnoc(limit, total, j, one, j.(worker := Counting(r)), total, CountResult);
    assert one + [CountResult] == two;
    WorkerSnoc(limit, total, j, two, j.(worker := Marking(r)), total, MarkDone);
    assert two + [MarkDone] == [Retire, CountResult, MarkDone];
  }

  lemma StepsOfNone(limit: nat, total: int, j: Job)
    requires JobInvariant(j)
    ensures Steps(limit, total, j, []) == (j, total)
  {
  }

  lemma WindUpDoes(limit: nat, total: int, j: Job)
    requires JobInvariant(j) && j.worker.Closing? && !j.ok
    ensures var (t, left) := Steps(limit, total, j, WIND_UP);
            && left == total && t.worker == Complete(Result(false, j.session.canceled, j.session.written))
            && t.session.queued == j.session.queued && t.accepted == j.accepted && t.late == j.late
  {
    hide JobInvariant, Steps;
    var a: seq<JobEvent>, b: seq<JobEvent>, c: seq<JobEvent> :=
      [CloseFile(true), ReadFlags], [RemoveFile, ReleaseBlocks], [Retire, CountResult, MarkDone];
    assert WIND_UP == a + (b + c);
    FlagsRead(limit, total, j);
    StepsAppend(limit, total, j, a, b + c);
    var r := Result(false, j.session.canceled, j.session.written);
    var x := Steps(limit, total, j, a).0;
    BlocksReleased(limit, total, x, r);
    StepsAppend(limit, total, x, b, c);
    WoundUp(limit, total, Steps(limit, total, x, b).0, r);
  }

  /** Accepting, failing to open, throwing away, accepting again. */
  function LeakSteps(data: Bytes): seq<JobEvent> { [Append(data), OpenFile(false), TakeBlock, Append(data)] }

  lemma LeakFirst(limit: nat, o: Options, data: Bytes)
    requires Capacity(o) <= |data| <= o.maxUploadSize && |data| <= limit
    ensures JobInvariant(NewJob(o))
    ensures var (j, total) := Steps(limit, 0, NewJob(o), [Append(data), OpenFile(false)]);
            && total == |data| && j.session.ready != [] && j.session.queued == |data|
            && j == NewJob(o).(session := j.session, accepted := data, marks := j.marks, worker := Taking, ok := false)
            && !Refuses(j.session) && j.session.written == 0
  {
    NewJobFits(o);
    FirstBlockReady(limit, o, data);
    OneStep(limit, 0, NewJob(o), Append(data));
    hide JobInvariant, Steps, Fits, AppendStep, Capacity;
    var one: seq<JobEvent> := [Append(data)];
    var (t, left) := Steps(limit, 0, NewJob(o), one);
    WorkerSnoc(limit, 0, NewJob(o), one, t, left, OpenFile(false));
    assert one + [OpenFile(false)] == [Append(data), OpenFile(false)];
  }

  lemma LeakSecond(limit: nat, o: Options, data: Bytes)
    requires Capacity(o) <= |data| <= o.maxUploadSize && |data| <= limit
    ensures JobInvariant(NewJob(o))
    ensures var (j, total) := Steps(limit, 0, NewJob(o), [Append(data), OpenFile(false), TakeBlock]);
            && total == 0 && j.worker.Closing? && !j.ok && j.discarded && j.accepted == data && j.late == []
            && j.options == o && !Refuses(j.session) && j.session.written == 0 && j.session.queued == 0
  {
    hide JobInvariant, Steps, AppendStep, TakeStep, Capacity, Concat, BlocksFit, Marked;
    LeakFirst(limit, o, data);
    var two: seq<JobEvent> := [Append(data), OpenFile(false)];
    StepsSnoc(limit, 0, NewJob(o), two, TakeBlock);
    assert two + [TakeBlock] == [Append(data), OpenFile(false), TakeBlock];
    ThrownAway(|data|, Steps(limit, 0, NewJob(o), two).0);
    hide Fits;
  }

  lemma LeakStart(limit: nat, o: Options, data: Bytes)
    requires Capacity(o) <= |data| <= o.maxUploadSize && |data| <= limit
    ensures JobInvariant(NewJob(o))
    ensures var (j, total) := Steps(limit, 0, NewJob(o), LeakSteps(data));
            && total == |data| == j.session.queued && j.worker.Closing? && !j.ok && !j.session.canceled
               && j.session.written == 0
            && j.accepted == data + data && j.late == data
  {
    LeakSecond(limit, o, data);
    hide JobInvariant, Steps, Fits, AppendStep, Capacity, Refuses;
    var three: seq<JobEvent> := [Append(data), OpenFile(false), TakeBlock];
    StepsSnoc(limit, 0, NewJob(o), three, Append(data));
    assert three + [Append(data)] == LeakSteps(data);
    AcceptsOnce(limit, Steps(limit, 0, NewJob(o), three).0, data);
    assert [] + data == data;
  }

  /**
   * The leak, for every upload limit of at least one block: a run of the pool in which the file of
   * its only session cannot be opened. The session accepts its limit twice over, and when it is
   * done the pool still counts the second half.
   */
  lemma OpenFailureLeaks(limit: nat, maxActive: nat, o: Options, data: Bytes)
    requires Capacity(o) <= |data| <= o.maxUploadSize && |data| <= limit && maxActive > 0
    ensures var w := AfterRun(limit, maxActive, [Create(o)] + AtFirst(LeakSteps(data) + WIND_UP));
            && |w.jobs| == 1 && w.jobs[0].worker == Complete(Result(false, false, 0))
            && w.jobs[0].accepted == data + data && w.jobs[0].late == data && w.total == |data|
  {
    var es := LeakSteps(data) + WIND_UP;
    var start := Start(limit, maxActive);
    InvariantFits(start);
    StepKeeps(start, Create(o));
    var w := Next(start, Create(o));
    assert w.jobs == [NewJob(o)] && w.total == 0 && w.limit == limit;
    var events := [Create(o)] + AtFirst(es);
    assert events[0] == Create(o) && events[1..] == AtFirst(es);
    assert AfterRun(limit, maxActive, events) == Run(w, AtFirst(es));
    hide Invariant, Next, AllFit, AfterRun, Run, AtFirst, JobInvariant, Steps, Capacity, LeakSteps;
    SoleSession(w, NewJob(o), es);
    LeakStart(limit, o, data);
    StepsAppend(limit, 0, NewJob(o), LeakSteps(data), WIND_UP);
    var (j, total) := Steps(limit, 0, NewJob(o), LeakSteps(data));
    WindUpDoes(limit, total, j);
  }
}
