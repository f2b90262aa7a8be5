/**
 * Which accepted pieces reach the connection. The source accepts whatever is put before the state is
 * closed (src/http/http_response_writer.cpp:115-135), but a flush looks at no sequence number below the
 * next one to send.
 */
module ResponseStranding {
  import opened Bytes
  import opened ChunkedCoding
  import opened ResponseProtocol
  import opened ResponseWriting

  /** Piece j of those accepted for i has been sent, behind all earlier outputs. */
  predicate Delivered(w: World, i: nat, j: nat) {
    && i < |w.outputs| && j < |w.outputs[i].log|
    && Joined(w.outputs[..i]) + Rendered(w.outputs[i].log[..j + 1]) <= w.sent
  }

  /** Response k closes the connection, or everything that can still finish it will. */
  predicate Closing(w: World, k: nat)
    requires k < |w.outputs| && k < |w.writers|
  {
    var x := w.writers[k];
    || w.outputs[k].close
    || (!Finished(w.outputs[k].log) && (x.closeConnection || (x.phase.Putting? && x.phase.entry.close)))
  }

  /** A response before i, not yet sent to its end, closes the connection. */
  predicate Cut(w: World, i: nat)
    requires i <= |w.outputs| && i <= |w.writers|
  {
    exists k | w.shared.nextToSend <= k < i :: Closing(w, k)
  }

  lemma {:induction false} RenderedPrefix(log: seq<Piece>, j: nat)
    requires j <= |log|
    ensures Rendered(log[..j]) <= Rendered(log)
    decreases |log|
  {
    hide Render;
    if j == |log| {
      assert log[..j] == log;
    } else {
      var shorter := log[..|log| - 1];
      RenderedPrefix(shorter, j);
      assert shorter[..j] == log[..j];
    }
  }

  lemma RenderedNext(log: seq<Piece>, j: nat)
    requires j < |log|
    ensures Rendered(log[..j + 1]) == Rendered(log[..j]) + Render(log[j])
  {
    hide Render;
    assert log[..j + 1][..j] == log[..j];
  }

  /** How many outputs have bytes on the connection, at most. */
  function Reach(w: World): nat
    requires w.shared.nextToSend <= |w.outputs|
  {
    if w.shared.closed then w.shared.nextToSend else Least(w.shared.nextToSend + 1, |w.outputs|)
  }

  lemma SentReaches(w: World)
    requires Invariant(w)
    ensures w.shared.nextToSend <= |w.outputs| && |w.writers| == |w.outputs|
    ensures Reach(w) <= |w.outputs| && w.sent <= Joined(w.outputs[..Reach(w)])
  {
    hide Joined, Concat, WriterFits, Shaped;
  }

  lemma BeyondReach(w: World, i: nat, j: nat)
    requires Invariant(w) && i < |w.outputs| && j < |w.outputs[i].log| && Render(w.outputs[i].log[j]) != []
    requires w.shared.nextToSend <= |w.outputs| && Reach(w) <= i
    ensures !Delivered(w, i, j)
  {
    SentReaches(w);
    hide Joined, Rendered, Render, Invariant;
    var r := Reach(w);
    JoinedPrefix(w.outputs[..i], r);
    assert w.outputs[..i][..r] == w.outputs[..r];
    RenderedNext(w.outputs[i].log, j);
    var bytes := Rendered(w.outputs[i].log[..j + 1]);
    assert |w.sent| <= |Joined(w.outputs[..i])| < |Joined(w.outputs[..i]) + bytes|;
  }

  /** A writer's own log is frozen once its sequence number is behind the queue. */
  lemma StepFreezes(w: World, e: Event, i: nat)
    requires Invariant(w) && i < w.shared.nextToSend
    ensures var v := Next(w, e);
            i < v.shared.nextToSend && i < |w.outputs| && i < |v.outputs| && v.outputs[i].log == w.outputs[i].log
  {
    hide Put, Begin, WriterFits, Shaped, SentFits, Holds, Agrees, Drained;
    if e.Flush? {
      DrainAdvances(w.shared);
    }
    if e.LockAndPut? {
      if e.writer < |w.writers| && w.writers[e.writer].phase.Putting? {
        PutLeavesOpen(w.shared, e.writer, w.writers[e.writer].phase.entry);
      }
    }
  }

  lemma {:induction false} DrainAdvances(s: Shared)
    ensures Drain(s).shared.nextToSend >= s.nextToSend
    decreases |s.pending|
  {
    if s.nextToSend in s.pending && s.pending[s.nextToSend].finished && !s.pending[s.nextToSend].closeConnection {
      Removed(s.pending, s.nextToSend);
      DrainAdvances(Shared(s.pending - {s.nextToSend}, s.nextToSend + 1, false));
    }
  }

  lemma {:induction false} RunFreezes(w: World, later: seq<Event>, i: nat)
    requires Invariant(w) && i < w.shared.nextToSend
    ensures var v := Run(w, later); i < |w.outputs| && i < |v.outputs| && v.outputs[i].log == w.outputs[i].log
    decreases |later|
  {
    WaitingWithin(w);
    hide Invariant, Next;
    if later != [] {
      StepKeeps(w, later[0]);
      StepFreezes(w, later[0], i);
      RunFreezes(Next(w, later[0]), later[1..], i);
    }
  }

  /** Nothing accepted for i can reach the connection any more: an earlier response k closes it. */
  predicate Barred(w: World, k: nat) {
    && k < |w.outputs| && k < |w.writers|
    && if w.shared.closed then w.shared.nextToSend <= k + 1 else Closing(w, k)
  }

  lemma FlushBars(w: World, k: nat)
    requires Invariant(w) && Barred(w, k)
    ensures Barred(FlushStep(w), k)
  {
    FlushKeeps(w);
    var v := FlushStep(w);
    assert v.outputs == w.outputs && v.writers == w.writers;
    if v.shared.closed && !w.shared.closed {
      hide Drain, FlushStep, SentFits, Drained, WriterFits, Shaped, Concat, Finished, Agrees, Holds;
      assert QueueFits(v.shared, v.outputs);
    }
  }

  lemma PutBars(w: World, i: nat, k: nat)
    requires Invariant(w) && Barred(w, k) && i < |w.writers|
    ensures Barred(PutStep(w, i), k)
  {
    hide Put, Begin, Shaped, SentFits, Holds, Agrees, Drained, Finished, Accepted, Concat;
    var x := w.writers[i];
    if x.phase.Putting? {
      PutLeavesOpen(w.shared, i, x.phase.entry);
      if i == k && !w.shared.closed {
        assert WriterFits(x, Accepted(w.outputs[i]));
      }
    }
  }

  lemma StepBars(w: World, e: Event, k: nat)
    requires Invariant(w) && Barred(w, k)
    ensures Barred(Next(w, e), k)
  {
    match e
    case LockAndPut(i) => if i < |w.writers| { PutBars(w, i, k); }
    case Flush => FlushBars(w, k);
    case Call(i, call) =>
      hide Invariant, Finished, Begin;
    case Open(_, _) =>
      hide Invariant, Finished;
    case QueueFlush(i) =>
      hide Invariant, Finished;
    case Disconnect =>
      hide Invariant, Finished;
  }

  lemma {:induction false} RunBars(w: World, later: seq<Event>, k: nat)
    requires Invariant(w) && Barred(w, k)
    ensures Barred(Run(w, later), k)
    decreases |later|
  {
    hide Invariant, Barred, Next;
    if later != [] {
      StepKeeps(w, later[0]);
      StepBars(w, later[0], k);
      RunBars(Next(w, later[0]), later[1..], k);
    }
  }

  lemma BarredEnds(w: World, k: nat, i: nat, j: nat)
    requires Invariant(w) && Barred(w, k) && k < i < |w.outputs|
    requires j < |w.outputs[i].log| && Render(w.outputs[i].log[j]) != []
    ensures !Delivered(w, i, j)
  {
    SentReaches(w);
    assert Reach(w) <= i by {
      hide SentFits, Drained, WriterFits, Shaped, Concat, Finished, Agrees, Holds, Joined;
    }
    hide Invariant, Barred, Delivered, Reach, Render;
    BeyondReach(w, i, j);
  }

  /** After a disconnect nothing more is sent. */
  lemma {:induction false} Silent(w: World, later: seq<Event>)
    requires !w.connected
    ensures Run(w, later).sent == w.sent
    decreases |later|
  {
    hide Begin, Put, Drain;
    if later != [] {
      Silent(Next(w, later[0]), later[1..]);
    }
  }

  /** A piece just put at i that the queue has not passed is not sent without a flush. */
  lemma PutUnsent(w: World, i: nat)
    requires Invariant(w) && i < |w.writers| && w.writers[i].phase.Putting? && !w.shared.closed
    requires w.shared.nextToSend <= i
    ensures i < |w.outputs| && w.sent <= Joined(w.outputs[..i]) + Rendered(w.outputs[i].log)
  {
    SentReaches(w);
    hide Invariant;
    var r := Reach(w);
    hide Rendered;
    JoinedNext(w.outputs, i);
    hide Joined;
    JoinedPrefix(w.outputs[..i + 1], r);
    assert w.outputs[..i + 1][..r] == w.outputs[..r];
  }

  lemma {:induction false} RunAppend(w: World, a: seq<Event>, b: seq<Event>)
    ensures Run(w, a + b) == Run(Run(w, a), b)
    decreases |a|
  {
    hide Next;
    if a == [] {
      assert a + b == b;
    } else {
      assert (a + b)[1..] == a[1..] + b;
      RunAppend(Next(w, a[0]), a[1..], b);
    }
  }

  /** Only writer, output and entry of k differ, and nothing more has been sent. */
  predicate Beside(w: World, v: World, k: nat) {
    && |v.writers| == |w.writers| && |v.outputs| == |w.outputs|
    && (forall m | 0 <= m < |w.writers| && m != k :: v.writers[m] == w.writers[m])
    && (forall m | 0 <= m < |w.outputs| && m != k :: v.outputs[m] == w.outputs[m])
    && v.shared.nextToSend == w.shared.nextToSend && v.shared.closed == w.shared.closed
    && v.connected == w.connected && v.queuedFlushes >= w.queuedFlushes
  }

  /** Writer k is about to end a response that will not close the connection. */
  predicate AboutToEnd(w: World, k: nat) {
    && Invariant(w) && !w.shared.closed && w.shared.nextToSend <= k < |w.writers| && |w.writers| == |w.outputs|
    && w.writers[k].phase.Putting? && w.writers[k].phase.entry.finished
    && !w.writers[k].phase.entry.close && !w.outputs[k].close
  }

  /** What writer k still has to do before it puts the piece that ends its response. */
  function Approach(x: Writer, k: nat): seq<Event> {
    match x.phase
    case Putting(e) => if e.finished then [] else [LockAndPut(k), QueueFlush(k), Call(k, Finish)]
    case Scheduling => [QueueFlush(k), Call(k, Finish)]
    case Resting => [Call(k, if x.writeState == UNUSED then Send([], false) else Finish)]
  }

  lemma RunSteps(w: World, a: Event, b: Event, c: Event)
    ensures Run(w, [a]) == Next(w, a)
    ensures Run(w, [a, b]) == Next(Next(w, a), b)
    ensures Run(w, [a, b, c]) == Next(Next(Next(w, a), b), c)
  {
    hide Next;
    assert forall u, x :: Run(u, [x]) == Next(u, x) by {
      forall u, x ensures Run(u, [x]) == Next(u, x) {
        assert [x][1..] == [];
      }
    }
    assert [a, b][1..] == [b] && [b, c][1..] == [c] && [a, b, c][1..] == [b, c];
    assert Run(Next(w, a), [b, c]) == Run(Next(Next(w, a), b), [c]);
  }

  /** Writer k has a response still open, and may end it without closing the connection. */
  predicate CanEnd(w: World, k: nat) {
    && Invariant(w) && !w.shared.closed && w.shared.nextToSend <= k < |w.writers| && |w.writers| == |w.outputs|
    && !Finished(w.outputs[k].log) && !Closing(w, k)
  }

  lemma OpenWriter(w: World, k: nat)
    requires CanEnd(w, k)
    ensures WriterFits(w.writers[k], w.outputs[k].log)
  {
    assert w.outputs[k].log + [] == w.outputs[k].log;
  }

  /** A writer whose response is open has not used up its calls. */
  lemma OpenPhase(x: Writer, log: seq<Piece>)
    requires WriterFits(x, log) && !Finished(log)
    ensures x.phase.Scheduling? ==> x.writeState == STREAMING
    ensures x.phase.Resting? ==> x.writeState in {UNUSED, STREAMING}
    ensures x.phase.Putting? && !x.phase.entry.finished ==> x.writeState == STREAMING
  {
    if log != [] {
      assert log[0] in log && log[|log| - 1] in log;
    }
  }

  lemma CallEnds(w: World, k: nat)
    requires CanEnd(w, k) && w.writers[k].phase.Resting?
    ensures var v := Run(w, Approach(w.writers[k], k)); AboutToEnd(v, k) && Beside(w, v, k)
  {
    hide Invariant, WriterFits, Finished;
    var x := w.writers[k];
    OpenWriter(w, k);
    OpenPhase(x, w.outputs[k].log);
    var call := if x.writeState == UNUSED then Send([], false) else ResponseWriting.Finish;
    CallKeeps(w, k, call);
    RunSteps(w, Call(k, call), Flush, Flush);
  }

  lemma QueueRests(w: World, k: nat)
    requires CanEnd(w, k) && w.writers[k].phase.Scheduling?
    ensures var v := Next(w, QueueFlush(k)); CanEnd(v, k) && Beside(w, v, k) && v.writers[k].phase.Resting?
  {
    hide Invariant, WriterFits, Finished;
    QueueKeeps(w, k);
  }

  /** What accepting the piece of writer k changes. */
  lemma PutChanges(w: World, k: nat)
    requires !w.shared.closed && w.shared.nextToSend <= k < |w.writers| && |w.writers| == |w.outputs|
    requires w.writers[k].phase.Putting?
    ensures var v := Next(w, LockAndPut(k));
            && Beside(w, v, k) && v.writers[k] == w.writers[k].(phase := Scheduling)
            && v.outputs[k] == Accept(w.outputs[k], w.writers[k].phase.entry, true)
  {
    PutLeavesOpen(w.shared, k, w.writers[k].phase.entry);
    hide Put, Accept;
  }

  lemma PutSchedules(w: World, k: nat)
    requires CanEnd(w, k) && w.writers[k].phase.Putting? && !w.writers[k].phase.entry.finished
    ensures var v := Next(w, LockAndPut(k)); CanEnd(v, k) && Beside(w, v, k) && v.writers[k].phase.Scheduling?
  {
    OpenWriter(w, k);
    hide Invariant, WriterFits, Finished, Next;
    EntryFinishes(w.writers[k], w.outputs[k].log);
    FinishedSnoc(w.outputs[k].log, w.writers[k].phase.entry.piece);
    PutKeeps(w, k);
    PutChanges(w, k);
    NextPuts(w, k);
  }

  lemma NextPuts(w: World, k: nat)
    requires k < |w.writers|
    ensures Next(w, LockAndPut(k)) == PutStep(w, k)
  {
  }

  lemma PutEnds(w: World, k: nat)
    requires AboutToEnd(w, k)
    ensures var v := Next(w, LockAndPut(k));
            Invariant(v) && Beside(w, v, k) && Finished(v.outputs[k].log) && !v.outputs[k].close
  {
    assert WriterFits(w.writers[k], Accepted(w.outputs[k]));
    EntryFinishes(w.writers[k], Accepted(w.outputs[k]));
    FinishedSnoc(w.outputs[k].log, w.writers[k].phase.entry.piece);
    PutKeeps(w, k);
    hide Invariant, WriterFits, Finished, Next;
    PutChanges(w, k);
    NextPuts(w, k);
  }

  lemma BesideTwice(u: World, v: World, w: World, k: nat)
    requires Beside(u, v, k) && Beside(v, w, k)
    ensures Beside(u, w, k)
  {
  }

  /** Writer k gets as far as the piece that ends its response, whatever it was doing. */
  lemma Approaches(w: World, k: nat)
    requires CanEnd(w, k)
    ensures var v := Run(w, Approach(w.writers[k], k)); AboutToEnd(v, k) && Beside(w, v, k)
  {
    var x := w.writers[k];
    OpenWriter(w, k);
    OpenPhase(x, w.outputs[k].log);
    hide CanEnd, AboutToEnd, Beside, Next, WriterFits, Finished;
    match x.phase
    case Resting => CallEnds(w, k);
    case Scheduling =>
      var v := Next(w, QueueFlush(k));
      QueueRests(w, k);
      QueueKeepsState(w, k);
      CallEnds(v, k);
      RunSteps(w, QueueFlush(k), Call(k, Finish), Flush);
      RunSteps(v, Call(k, Finish), Flush, Flush);
      BesideTwice(w, v, Run(v, [Call(k, Finish)]), k);
    case Putting(e) =>
      if e.finished {
        AlreadyThere(w, k);
      } else {
        var u := Next(w, LockAndPut(k));
        PutSchedules(w, k);
        PutKeepsState(w, k);
        var v := Next(u, QueueFlush(k));
        QueueRests(u, k);
        QueueKeepsState(u, k);
        CallEnds(v, k);
        RunSteps(w, LockAndPut(k), QueueFlush(k), Call(k, Finish));
        RunSteps(v, Call(k, Finish), Flush, Flush);
        BesideTwice(w, u, v, k);
        BesideTwice(w, v, Run(v, [Call(k, Finish)]), k);
      }
  }

  lemma QueueKeepsState(w: World, k: nat)
    requires k < |w.writers|
    ensures k < |Next(w, QueueFlush(k)).writers|
    ensures Next(w, QueueFlush(k)).writers[k].writeState == w.writers[k].writeState
  {
  }

  lemma PutKeepsState(w: World, k: nat)
    requires k < |w.writers|
    ensures k < |Next(w, LockAndPut(k)).writers|
    ensures Next(w, LockAndPut(k)).writers[k].writeState == w.writers[k].writeState
  {
    hide Put;
  }

  lemma AlreadyThere(w: World, k: nat)
    requires CanEnd(w, k) && w.writers[k].phase.Putting? && w.writers[k].phase.entry.finished
    ensures AboutToEnd(w, k) && Beside(w, w, k)
  {
    hide Invariant, Finished;
  }

  /** All responses from m up to i are finished and keep the connection open. */
  predicate Passable(w: World, m: nat, i: nat) {
    forall k | m <= k < i && k < |w.outputs| :: Finished(w.outputs[k].log) && !w.outputs[k].close
  }

  /** All responses from m up to i may end without closing the connection. */
  predicate Endable(w: World, m: nat, i: nat) {
    i <= |w.writers| && i <= |w.outputs| && forall k | m <= k < i :: !Closing(w, k)
  }

  /** Nothing outside m up to i has changed, and nothing more has been sent. */
  predicate BesideRange(w: World, v: World, m: nat, i: nat) {
    && |v.writers| == |w.writers| && |v.outputs| == |w.outputs|
    && (forall k | 0 <= k < |w.writers| && !(m <= k < i) :: v.writers[k] == w.writers[k])
    && (forall k | 0 <= k < |w.outputs| && !(m <= k < i) :: v.outputs[k] == w.outputs[k])
    && v.shared.nextToSend == w.shared.nextToSend && v.shared.closed == w.shared.closed
    && v.connected == w.connected && v.queuedFlushes >= w.queuedFlushes
  }

  /** The writer of m ends its response, unless it already has. */
  lemma EndOne(w: World, m: nat) returns (later: seq<Event>)
    requires Invariant(w) && !w.shared.closed && w.shared.nextToSend <= m < |w.writers| && |w.writers| == |w.outputs|
    requires !Closing(w, m)
    ensures var v := Run(w, later);
            Invariant(v) && Beside(w, v, m) && Finished(v.outputs[m].log) && !v.outputs[m].close
  {
    if Finished(w.outputs[m].log) {
      later := [];
    } else {
      Approaches(w, m);
      var first := Approach(w.writers[m], m);
      var v := Run(w, first);
      PutEnds(v, m);
      later := first + [LockAndPut(m)];
      RunAppend(w, first, [LockAndPut(m)]);
      RunSteps(v, LockAndPut(m), Flush, Flush);
      BesideTwice(w, v, Next(v, LockAndPut(m)), m);
    }
  }

  lemma EndableAfter(w: World, v: World, m: nat, i: nat)
    requires m < i && Endable(w, m, i) && Beside(w, v, m)
    ensures Endable(v, m + 1, i)
  {
    forall k | m + 1 <= k < i ensures !Closing(v, k) {
      assert !Closing(w, k) && v.writers[k] == w.writers[k] && v.outputs[k] == w.outputs[k];
    }
  }

  lemma RangeGrows(w: World, v: World, u: World, m: nat, i: nat)
    requires m < i && i <= |w.outputs| && Beside(w, v, m) && BesideRange(v, u, m + 1, i)
    requires Finished(v.outputs[m].log) && !v.outputs[m].close && Passable(u, m + 1, i)
    ensures BesideRange(w, u, m, i) && Passable(u, m, i)
  {
    hide Finished;
  }

  /** The writers from m up to i end their responses one after the other. */
  lemma {:induction false} EndAll(w: World, m: nat, i: nat) returns (later: seq<Event>)
    requires Invariant(w) && !w.shared.closed && w.shared.nextToSend <= m <= i && Endable(w, m, i)
    requires |w.writers| == |w.outputs|
    ensures var v := Run(w, later); Invariant(v) && BesideRange(w, v, m, i) && Passable(v, m, i)
    decreases i - m
  {
    hide Invariant, Finished, Closing;
    if m == i {
      later := [];
    } else {
      var first := EndOne(w, m);
      var v := Run(w, first);
      EndableAfter(w, v, m, i);
      var rest := EndAll(v, m + 1, i);
      hide Run, Endable, BesideRange, Passable, Beside;
      later := first + rest;
      RunAppend(w, first, rest);
      RangeGrows(w, v, Run(v, rest), m, i);
    }
  }

  /** A flush behind passable responses gets to i and sends everything accepted for it. */
  lemma FlushDelivers(w: World, i: nat, j: nat)
    requires Invariant(w) && w.connected && !w.shared.closed && w.queuedFlushes > 0
    requires w.shared.nextToSend <= i < |w.outputs| && Passable(w, w.shared.nextToSend, i) && j < |w.outputs[i].log|
    ensures Delivered(Next(w, Flush), i, j)
  {
    var v := Next(w, Flush);
    var f := Drain(w.shared);
    assert QueueFits(w.shared, w.outputs);
    DrainFits(w.shared, w.sent, w.outputs);
    DrainAdvances(w.shared);
    assert v.outputs == w.outputs && v.sent == w.sent + Concat(f.chunks) && v.shared == f.shared;
    hide Drain, Next, Invariant, Delivered;
    FlushReaches(w.shared, v.shared, v.outputs, i);
    SentThrough(v.shared, v.sent, v.outputs, i);
    hide *;
    IsDelivered(v, i, j);
  }

  lemma FlushReaches(s: Shared, t: Shared, outputs: seq<Output>, i: nat)
    requires QueueFits(s, outputs) && !s.closed && s.nextToSend <= i < |outputs|
    requires forall k | s.nextToSend <= k < i :: Finished(outputs[k].log) && !outputs[k].close
    requires QueueFits(t, outputs) && t.nextToSend >= s.nextToSend && Drained(t)
    ensures t.nextToSend >= i && (t.closed ==> t.nextToSend > i)
  {
    hide Finished, Rendered, Concat;
    assert t.nextToSend < |outputs| ==> Agrees(Waiting(t.pending, t.nextToSend), outputs[t.nextToSend]);
    assert t.closed ==> outputs[t.nextToSend - 1].close;
  }

  lemma SentThrough(s: Shared, sent: Bytes, outputs: seq<Output>, i: nat)
    requires QueueFits(s, outputs) && SentFits(s, sent, outputs) && Drained(s) && i < |outputs|
    requires s.nextToSend >= i && (s.closed ==> s.nextToSend > i)
    ensures Joined(outputs[..i + 1]) <= sent
  {
    hide QueueFits, Joined;
    var r := if s.closed then s.nextToSend else Least(s.nextToSend + 1, |outputs|);
    WithinOutputs(s, outputs);
    assert sent + [] == sent;
    JoinedPrefix(outputs[..r], i + 1);
    assert outputs[..r][..i + 1] == outputs[..i + 1];
  }

  lemma WithinOutputs(s: Shared, outputs: seq<Output>)
    requires QueueFits(s, outputs)
    ensures s.nextToSend <= |outputs|
  {
  }

  lemma IsDelivered(w: World, i: nat, j: nat)
    requires i < |w.outputs| && j < |w.outputs[i].log| && Joined(w.outputs[..i + 1]) <= w.sent
    ensures Delivered(w, i, j)
  {
    JoinedNext(w.outputs, i);
    RenderedPrefix(w.outputs[i].log, j + 1);
    hide Joined, Rendered;
  }

  /** The piece that i is about to put is never sent, whatever happens afterwards. */
  ghost predicate Lost(w: World, i: nat)
    requires i < |w.outputs|
  {
    forall later: seq<Event> :: !Delivered(Run(Next(w, LockAndPut(i)), later), i, |Accepted(w.outputs[i])|)
  }

  /** Behind the queue a piece is accepted and lost. */
  lemma LateIsLost(w: World, i: nat)
    requires Invariant(w) && i < w.shared.nextToSend
    ensures i < |w.outputs| && Lost(w, i)
  {
    WaitingWithin(w);
    StepFreezes(w, LockAndPut(i), i);
    StepKeeps(w, LockAndPut(i));
    var v := Next(w, LockAndPut(i));
    hide Next, Invariant, Run;
    forall later: seq<Event> ensures !Delivered(Run(v, later), i, |Accepted(w.outputs[i])|) {
      RunFreezes(v, later, i);
    }
  }

  /** Every output keeps what it has. */
  predicate Extends(w: World, v: World) {
    |w.outputs| <= |v.outputs| && forall k | 0 <= k < |w.outputs| :: w.outputs[k].log <= v.outputs[k].log
  }

  lemma StepExtends(w: World, e: Event)
    ensures Extends(w, Next(w, e))
  {
    hide Put, Begin, Drain;
  }

  lemma {:induction false} RunExtends(w: World, later: seq<Event>)
    ensures Extends(w, Run(w, later))
    decreases |later|
  {
    hide Next;
    if later != [] {
      StepExtends(w, later[0]);
      RunExtends(Next(w, later[0]), later[1..]);
    }
  }

  lemma {:induction false} JoinedGrows(a: seq<Output>, b: seq<Output>)
    requires |a| == |b| && forall k | 0 <= k < |a| :: a[k].log <= b[k].log
    ensures |Joined(a)| <= |Joined(b)|
    decreases |a|
  {
    hide Rendered;
    if a != [] {
      var n := |a| - 1;
      JoinedGrows(a[..n], b[..n]);
      RenderedPrefix(b[n].log, |a[n].log|);
      assert b[n].log[..|a[n].log|] == a[n].log;
    }
  }

  /** The piece that i puts while its sequence number is still to be sent. */
  lemma PutInTime(w: World, i: nat)
    requires Invariant(w) && i < |w.writers| && w.writers[i].phase.Putting? && !w.shared.closed
    requires w.shared.nextToSend <= i
    ensures var v := Next(w, LockAndPut(i));
            && i < |w.outputs| && i < |v.outputs| && Invariant(v) && Beside(w, v, i)
            && |Accepted(w.outputs[i])| == |w.outputs[i].log|
            && v.outputs[i].log == w.outputs[i].log + [w.writers[i].phase.entry.piece]
            && v.writers[i].phase.Scheduling?
  {
    StepKeeps(w, LockAndPut(i));
    PutChanges(w, i);
    hide Next, WriterFits, Shaped, SentFits, Drained, Holds, Agrees, Finished;
    assert w.outputs[i].late == [];
  }

  /** Once an earlier response closes the connection, what is put behind it is lost. */
  lemma CutIsLost(w: World, i: nat)
    requires Invariant(w) && i < |w.writers| && w.writers[i].phase.Putting? && !w.shared.closed
    requires w.shared.nextToSend <= i && i < |w.outputs| && Cut(w, i)
    requires Render(w.writers[i].phase.entry.piece) != []
    ensures Lost(w, i)
  {
    var k :| w.shared.nextToSend <= k < i && Closing(w, k);
    var v := Next(w, LockAndPut(i));
    StepBars(w, LockAndPut(i), k);
    PutInTime(w, i);
    hide Next, Invariant, Run, Delivered, Barred, Closing, Render;
    var j := |w.outputs[i].log|;
    forall later: seq<Event> ensures !Delivered(Run(v, later), i, j) {
      RunKeeps(v, later);
      RunBars(v, later, k);
      RunExtends(v, later);
      BarredEnds(Run(v, later), k, i, j);
    }
  }

  /** Without a connection everything is lost. */
  lemma DisconnectedIsLost(w: World, i: nat)
    requires Invariant(w) && i < |w.writers| && w.writers[i].phase.Putting? && !w.shared.closed
    requires w.shared.nextToSend <= i && i < |w.outputs| && !w.connected
    requires Render(w.writers[i].phase.entry.piece) != []
    ensures Lost(w, i)
  {
    var v := Next(w, LockAndPut(i));
    PutUnsent(w, i);
    PutInTime(w, i);
    Silent(w, [LockAndPut(i)]);
    RunSteps(w, LockAndPut(i), Flush, Flush);
    hide Next, Invariant, Run, Render;
    var j := |w.outputs[i].log|;
    forall later: seq<Event> ensures !Delivered(Run(v, later), i, j) {
      RunExtends(v, later);
      Silent(v, later);
      TooLong(w, Run(v, later), i, w.writers[i].phase.entry.piece);
    }
  }

  lemma TooLong(w: World, z: World, i: nat, p: Piece)
    requires i < |w.outputs| && |w.outputs| <= |z.outputs| && Render(p) != []
    requires forall k | 0 <= k < i :: w.outputs[k].log <= z.outputs[k].log
    requires w.outputs[i].log + [p] <= z.outputs[i].log
    requires |z.sent| <= |Joined(w.outputs[..i])| + |Rendered(w.outputs[i].log)|
    ensures !Delivered(z, i, |w.outputs[i].log|)
  {
    hide Joined, Rendered, Render;
    var j := |w.outputs[i].log|;
    JoinedGrows(w.outputs[..i], z.outputs[..i]);
    assert z.outputs[i].log[..j + 1] == w.outputs[i].log + [p];
    RenderedSnoc(w.outputs[i].log, p);
    assert |z.sent| < |Joined(z.outputs[..i]) + Rendered(z.outputs[i].log[..j + 1])|;
  }

  /** Otherwise the earlier writers can end their responses, and then one flush sends the piece. */
  lemma PassableIsSent(w: World, i: nat)
    requires Invariant(w) && i < |w.writers| && w.writers[i].phase.Putting? && !w.shared.closed
    requires w.shared.nextToSend <= i && i < |w.outputs| && w.connected && !Cut(w, i)
    ensures !Lost(w, i)
  {
    var v := Next(w, LockAndPut(i));
    PutInTime(w, i);
    StillEndable(w, v, i);
    SentReaches(v);
    var later := SendUpTo(v, i, |w.outputs[i].log|);
    assert Delivered(Run(v, later), i, |Accepted(w.outputs[i])|);
  }

  lemma StillEndable(w: World, v: World, i: nat)
    requires i < |w.outputs| && i < |w.writers| && !Cut(w, i) && Beside(w, v, i)
    ensures Endable(v, w.shared.nextToSend, i)
  {
    forall k | w.shared.nextToSend <= k < i ensures !Closing(v, k) {
      assert !Closing(w, k) && v.writers[k] == w.writers[k] && v.outputs[k] == w.outputs[k];
    }
  }

  lemma SendUpTo(v: World, i: nat, j: nat) returns (later: seq<Event>)
    requires Invariant(v) && !v.shared.closed && v.connected && |v.writers| == |v.outputs|
    requires v.shared.nextToSend <= i < |v.writers| && Endable(v, v.shared.nextToSend, i)
    requires v.writers[i].phase.Scheduling? && j < |v.outputs[i].log|
    ensures Delivered(Run(v, later), i, j)
  {
    hide Delivered, Passable, Endable, Finished;
    var n := v.shared.nextToSend;
    var ends := EndAll(v, n, i);
    var u := Run(v, ends);
    var t := Next(u, QueueFlush(i));
    QueueKeeps(u, i);
    QueueAnnounces(u, i);
    hide Invariant, Next;
    FlushAfter(u, t, n, i);
    FlushDelivers(t, i, j);
    later := ends + [QueueFlush(i), Flush];
    RunAppend(v, ends, [QueueFlush(i), Flush]);
    RunSteps(u, QueueFlush(i), Flush, Flush);
  }

  lemma QueueAnnounces(w: World, i: nat)
    requires i < |w.writers| && w.writers[i].phase.Scheduling? && w.connected
    ensures var v := Next(w, QueueFlush(i));
            && v == QueueStep(w, i) && v.queuedFlushes > 0 && v.connected
            && v.shared == w.shared && v.outputs == w.outputs
  {
  }

  lemma FlushAfter(w: World, v: World, n: nat, i: nat)
    requires Passable(w, n, i) && v.outputs == w.outputs
    ensures Passable(v, n, i)
  {
  }

  /**
   * A piece that is accepted is never sent, whatever is called afterwards, exactly when its sequence
   * number is below the next one to send, an earlier response still to be sent closes the connection,
   * or the connection is gone. A piece without bytes leaves no trace; the source renders none.
   */
  lemma LostIff(events: seq<Event>, i: nat)
    requires var w := Run(INITIAL, events);
             && i < |w.writers| && w.writers[i].phase.Putting? && !w.shared.closed
             && Render(w.writers[i].phase.entry.piece) != []
    ensures var w := Run(INITIAL, events);
            && |w.writers| == |w.outputs|
            && (Lost(w, i) <==> i < w.shared.nextToSend || Cut(w, i) || !w.connected)
  {
    var w := Run(INITIAL, events);
    Reached(events);
    SentReaches(w);
    hide Run, Invariant, Lost, Cut, Render;
    if i < w.shared.nextToSend {
      LateIsLost(w, i);
    } else if Cut(w, i) {
      CutIsLost(w, i);
    } else if !w.connected {
      DisconnectedIsLost(w, i);
    } else {
      PassableIsSent(w, i);
    }
  }

  /** A chunked response started by a writer without body: its head is put and announced. */
  function Started(head: Bytes): seq<Event> {
    [Open(false, false), Call(0, StartChunked(head, false)), LockAndPut(0), QueueFlush(0)]
  }

  lemma HeadPut(head: Bytes)
    ensures var w := Run(INITIAL, Started(head));
            && w == World(Shared(map[0 := PendingResponse([head], false, true)], 0, false),
                          [Writer(false, false, STREAMING, Resting)], 1, true, [], false,
                          [Output([Bare(head)], [], false)])
  {
    var a, b, c, d := Open(false, false), Call(0, StartChunked(head, false)), LockAndPut(0), QueueFlush(0);
    RunAppend(INITIAL, [a], [b, c, d]);
    assert [a] + [b, c, d] == Started(head);
    RunSteps(INITIAL, a, b, c);
    RunSteps(Next(INITIAL, a), b, c, d);
    var bare: seq<Piece> := [];
    assert bare + [Bare(head)] == [Bare(head)];
    var none: seq<Bytes> := [];
    assert none + [head] == [head];
  }

  /** A chunk written once that head has been flushed is accepted and lost. */
  lemma StrandedChunk(head: Bytes, data: Bytes)
    requires data != []
    ensures var w := Run(INITIAL, Started(head) + [Flush, Call(0, WriteChunk(data))]);
            && w.sent == head && |w.writers| == 1 && |w.outputs| == 1 && w.writers[0].phase.Putting? && !w.shared.closed
            && Next(w, LockAndPut(0)).outputs == [Output([Bare(head)], [Chunk(data)], false)]
            && Lost(w, 0)
  {
    var more := [Flush, Call(0, WriteChunk(data))];
    var events := Started(head) + more;
    RunAppend(INITIAL, Started(head), more);
    HeadPut(head);
    var u := Run(INITIAL, Started(head));
    RunSteps(u, Flush, Call(0, WriteChunk(data)), Flush);
    var none: seq<Piece> := [];
    assert none + [Chunk(data)] == [Chunk(data)];
    DrainOne(u.shared, [head]);
    Reached(events);
    LateIsLost(Run(INITIAL, events), 0);
  }

  /** Written and put before the flush, it is sent behind the head that must have no body. */
  lemma BodyBehindBareHead(head: Bytes, data: Bytes)
    requires data != []
    ensures Run(INITIAL, Started(head) + [Call(0, WriteChunk(data)), LockAndPut(0), Flush]).sent
            == head + EncodeChunk(data)
  {
    var more := [Call(0, WriteChunk(data)), LockAndPut(0), Flush];
    RunAppend(INITIAL, Started(head), more);
    HeadPut(head);
    var u := Run(INITIAL, Started(head));
    hide EncodeChunk;
    RunSteps(u, Call(0, WriteChunk(data)), LockAndPut(0), Flush);
    var chunks := [head] + [EncodeChunk(data)];
    var v := Next(Next(u, Call(0, WriteChunk(data))), LockAndPut(0));
    assert v.shared == Shared(map[0 := PendingResponse(chunks, false, true)], 0, false);
    DrainOne(v.shared, chunks);
    ConcatAppend([head], [EncodeChunk(data)]);
    Singles(head);
    Singles(EncodeChunk(data));
  }

  lemma Singles(bytes: Bytes)
    ensures Concat([bytes]) == bytes
  {
    assert bytes + [] == bytes;
  }

  lemma DrainOne(s: Shared, chunks: seq<Bytes>)
    requires s == Shared(map[0 := PendingResponse(chunks, false, true)], 0, false)
    ensures Drain(s) == Flushed(Shared(map[], 1, false), chunks, false)
    ensures Concat([]) == []
  {
    var t := Shared(map[], 1, false);
    assert s.pending - {0} == map[];
    DrainIdle(t);
    assert chunks + [] == chunks;
  }
}
