/**
 * The response queue under every interleaving of its writers and flushes. The calls of one writer
 * do not overlap; those of different writers and the flushes interleave at each lock section.
 */
module ResponseProtocol {
  import opened Bytes
  import opened ResponseWriting

  /** Where the current call of a writer stands: before its lock section, or before it queues the flush. */
  datatype Phase = Resting | Putting(entry: Entry) | Scheduling

  datatype Writer = Writer(closeConnection: bool, includeBody: bool, writeState: nat, phase: Phase)

  /**
   * History: the pieces accepted for a sequence number while it was not below the next one to send,
   * those accepted afterwards, and whether one of the first closes the connection.
   */
  datatype Output = Output(log: seq<Piece>, late: seq<Piece>, close: bool)

  datatype World = World(shared: Shared, writers: seq<Writer>, queuedFlushes: nat, connected: bool,
                         sent: Bytes, shutdown: bool, outputs: seq<Output>)

  const INITIAL := World(Shared(map[], 0, false), [], 0, true, [], false, [])

  /** Open is the arrival of the next request; Flush runs one queued flush on the loop. */
  datatype Event =
    | Open(closeConnection: bool, includeBody: bool)
    | Call(writer: nat, call: ResponseWriting.Call)
    | LockAndPut(writer: nat)
    | QueueFlush(writer: nat)
    | Flush
    | Disconnect

  function CallStep(w: World, i: nat, call: ResponseWriting.Call): World
    requires i < |w.writers|
  {
    var x := w.writers[i];
    if !x.phase.Resting? then w
    else
      var (next, entry) := Begin(x.writeState, x.closeConnection, x.includeBody, call);
      var phase := if entry.Some? then Putting(entry.value) else Resting;
      w.(writers := w.writers[i := x.(writeState := next, phase := phase)])
  }

  function Accept(o: Output, e: Entry, inTime: bool): Output {
    if inTime then Output(o.log + [e.piece], o.late, o.close || e.close) else o.(late := o.late + [e.piece])
  }

  function PutStep(w: World, i: nat): World
    requires i < |w.writers|
  {
    var x := w.writers[i];
    if !x.phase.Putting? then w
    else if w.shared.closed || i >= |w.outputs| then w.(writers := w.writers[i := x.(phase := Resting)])
    else
      var e := x.phase.entry;
      var o := w.outputs[i];
      w.(shared := Put(w.shared, i, e),
         writers := w.writers[i := x.(phase := Scheduling)],
         outputs := w.outputs[i := Accept(o, e, i >= w.shared.nextToSend)])
  }

  function QueueStep(w: World, i: nat): World
    requires i < |w.writers|
  {
    var x := w.writers[i];
    if !x.phase.Scheduling? then w
    else
      var v := w.(writers := w.writers[i := x.(phase := Resting)]);
      if w.connected then v.(queuedFlushes := w.queuedFlushes + 1) else v
  }

  function FlushStep(w: World): World {
    if w.queuedFlushes == 0 then w
    else
      var v := w.(queuedFlushes := w.queuedFlushes - 1);
      if !w.connected || w.shared.closed then v
      else
        var f := Drain(w.shared);
        v.(shared := f.shared, sent := w.sent + Concat(f.chunks), shutdown := w.shutdown || f.close)
  }

  function Next(w: World, e: Event): World {
    match e
    case Open(close, body) =>
      w.(writers := w.writers + [Writer(close, body, UNUSED, Resting)], outputs := w.outputs + [Output([], [], false)])
    case Call(i, call) => if i < |w.writers| then CallStep(w, i, call) else w
    case LockAndPut(i) => if i < |w.writers| then PutStep(w, i) else w
    case QueueFlush(i) => if i < |w.writers| then QueueStep(w, i) else w
    case Flush => FlushStep(w)
    case Disconnect => w.(connected := false)
  }

  function Run(w: World, events: seq<Event>): World
    decreases |events|
  {
    if events == [] then w else Run(Next(w, events[0]), events[1..])
  }

  function Rendered(log: seq<Piece>): Bytes {
    if log == [] then [] else Rendered(log[..|log| - 1]) + Render(log[|log| - 1])
  }

  /** The pieces accepted in time, one output after the other in sequence order. */
  function Joined(outputs: seq<Output>): Bytes {
    if outputs == [] then [] else Joined(outputs[..|outputs| - 1]) + Rendered(outputs[|outputs| - 1].log)
  }

  predicate Ends(p: Piece) { p.Whole? || p.Bare? || p.End? }

  /** A piece that ends the response has been accepted in time. */
  predicate Finished(log: seq<Piece>) { exists p | p in log :: Ends(p) }

  /** Everything that was ever accepted for a sequence number. */
  function Accepted(o: Output): seq<Piece> { o.log + o.late }

  /** A head and chunks of data. */
  predicate Streamed(log: seq<Piece>) {
    log != [] && (log[0].Head? || log[0].Bare?) && forall i | 1 <= i < |log| :: log[i].Chunk? && log[i].data != []
  }

  /** A whole response, or a head and chunks with their terminator. */
  predicate Complete(log: seq<Piece>) {
    || (|log| == 1 && log[0].Whole?)
    || (log != [] && log[|log| - 1].End? && Streamed(log[..|log| - 1]))
  }

  predicate Shaped(log: seq<Piece>) { log == [] || Streamed(log) || Complete(log) }

  predicate StreamedBy(x: Writer, log: seq<Piece>) { Streamed(log) && (log[0].Head? <==> x.includeBody) }

  /** One writer against everything accepted for it, while responses are still accepted. */
  predicate WriterFits(x: Writer, log: seq<Piece>) {
    match x.phase
    case Putting(e) =>
      && e.finished == Ends(e.piece) && (x.closeConnection ==> e.close)
      && match e.piece {
           case Whole(_) => log == [] && x.writeState == DONE
           case Head(_) => log == [] && x.writeState == STREAMING && x.includeBody
           case Bare(_) => log == [] && x.writeState == STREAMING && !x.includeBody
           case Chunk(data) => StreamedBy(x, log) && data != [] && x.writeState == STREAMING
           case End => StreamedBy(x, log) && x.writeState == DONE
         }
    case _ =>
      && (x.writeState == UNUSED ==> log == [] && x.phase.Resting?)
      && (x.writeState == STREAMING ==> StreamedBy(x, log))
      && (x.writeState == DONE ==> Complete(log))
      && x.writeState <= DONE
  }

  /** An entry that no flush has touched holds the whole output. */
  predicate Holds(p: PendingResponse, o: Output) {
    Concat(p.chunks) == Rendered(o.log) && Agrees(p, o)
  }

  predicate Agrees(p: PendingResponse, o: Output) {
    p.finished == Finished(o.log) && p.closeConnection == o.close
  }

  /** The shared state against the outputs. */
  predicate QueueFits(s: Shared, outputs: seq<Output>) {
    && s.nextToSend <= |outputs|
    && (forall i | i in s.pending :: i < |outputs|)
    && (forall i | 0 <= i < s.nextToSend :: Finished(outputs[i].log))
    && (forall i | s.nextToSend <= i < |outputs| :: outputs[i].late == [])
    && (forall i | 0 <= i < s.nextToSend :: outputs[i].close ==> s.closed && i == s.nextToSend - 1)
    && (s.closed ==> s.nextToSend > 0 && outputs[s.nextToSend - 1].close)
    && (forall i | s.nextToSend < i < |outputs| :: Holds(Waiting(s.pending, i), outputs[i]))
    && (s.nextToSend < |outputs| ==> Agrees(Waiting(s.pending, s.nextToSend), outputs[s.nextToSend]))
  }

  function Least(a: nat, b: nat): nat { if a <= b then a else b }

  /** What has been sent, together with what the next response still waits with. */
  predicate SentFits(s: Shared, sent: Bytes, outputs: seq<Output>)
    requires s.nextToSend <= |outputs|
  {
    if s.closed then sent == Joined(outputs[..s.nextToSend])
    else sent + Concat(Waiting(s.pending, s.nextToSend).chunks) == Joined(outputs[..Least(s.nextToSend + 1, |outputs|)])
  }

  /** Nothing more can be sent at the moment. */
  predicate Drained(s: Shared) {
    s.closed || var p := Waiting(s.pending, s.nextToSend); p.chunks == [] && !p.finished
  }

  predicate SomeoneSchedules(writers: seq<Writer>) { exists x | x in writers :: x.phase.Scheduling? }

  predicate WritersFit(w: World) {
    && |w.writers| == |w.outputs|
    && (!w.shared.closed ==> forall i | 0 <= i < |w.writers| :: WriterFits(w.writers[i], Accepted(w.outputs[i])))
    && (forall i | 0 <= i < |w.outputs| :: Shaped(Accepted(w.outputs[i])))
  }

  predicate Invariant(w: World) {
    && WritersFit(w)
    && QueueFits(w.shared, w.outputs)
    && SentFits(w.shared, w.sent, w.outputs)
    && (w.shutdown == w.shared.closed)
    && (w.connected ==> Drained(w.shared) || w.queuedFlushes > 0 || SomeoneSchedules(w.writers))
  }

  lemma RenderedSnoc(log: seq<Piece>, p: Piece)
    ensures Rendered(log + [p]) == Rendered(log) + Render(p)
  {
    assert (log + [p])[..|log|] == log;
  }

  lemma JoinedNext(outputs: seq<Output>, k: nat)
    requires k < |outputs|
    ensures Joined(outputs[..k + 1]) == Joined(outputs[..k]) + Rendered(outputs[k].log)
  {
    assert outputs[..k + 1][..k] == outputs[..k];
  }

  lemma {:induction false} JoinedPrefix(outputs: seq<Output>, k: nat)
    requires k <= |outputs|
    ensures Joined(outputs[..k]) <= Joined(outputs)
    decreases |outputs|
  {
    if k == |outputs| {
      assert outputs[..k] == outputs;
    } else {
      var shorter := outputs[..|outputs| - 1];
      JoinedPrefix(shorter, k);
      assert shorter[..k] == outputs[..k];
    }
  }

  /** One turn of the flush loop keeps the queue in step with the outputs. */
  lemma TurnFits(s: Shared, sent: Bytes, outputs: seq<Output>, t: Shared)
    requires QueueFits(s, outputs) && SentFits(s, sent, outputs) && !s.closed
    requires s.nextToSend in s.pending && s.pending[s.nextToSend].finished
    requires var p := s.pending[s.nextToSend];
             t == Shared(s.pending - {s.nextToSend}, s.nextToSend + 1, p.closeConnection)
    ensures QueueFits(t, outputs)
    ensures SentFits(t, sent + Concat(s.pending[s.nextToSend].chunks), outputs)
  {
    hide Finished, Rendered, Concat, Joined;
    var n := s.nextToSend;
    forall i | n < i ensures Waiting(t.pending, i) == Waiting(s.pending, i) {
    }
    var all := sent + Concat(s.pending[n].chunks);
    if !t.closed {
      if n + 1 < |outputs| {
        JoinedNext(outputs, n + 1);
      } else {
        ConcatNothing();
        assert all + [] == all;
      }
    }
  }

  lemma PartialTurnFits(s: Shared, sent: Bytes, outputs: seq<Output>, t: Shared)
    requires QueueFits(s, outputs) && SentFits(s, sent, outputs) && !s.closed
    requires s.nextToSend in s.pending && !s.pending[s.nextToSend].finished
    requires var p := s.pending[s.nextToSend]; t == s.(pending := s.pending[s.nextToSend := p.(chunks := [])])
    ensures QueueFits(t, outputs) && Drained(t)
    ensures SentFits(t, sent + Concat(s.pending[s.nextToSend].chunks), outputs)
  {
    hide Finished, Rendered, Joined;
    forall i | s.nextToSend < i ensures Waiting(t.pending, i) == Waiting(s.pending, i) {
    }
    var all := sent + Concat(s.pending[s.nextToSend].chunks);
    assert all + [] == all;
  }

  lemma {:induction false} DrainFits(s: Shared, sent: Bytes, outputs: seq<Output>)
    requires QueueFits(s, outputs) && SentFits(s, sent, outputs) && !s.closed
    ensures var f := Drain(s);
            && QueueFits(f.shared, outputs) && SentFits(f.shared, sent + Concat(f.chunks), outputs)
            && Drained(f.shared) && f.close == f.shared.closed
    decreases |s.pending|
  {
    hide QueueFits, SentFits, Concat;
    var f := Drain(s);
    if s.nextToSend !in s.pending {
      assert sent + Concat([]) == sent by { ConcatNothing(); }
    } else {
      var p := s.pending[s.nextToSend];
      if p.finished {
        Removed(s.pending, s.nextToSend);
        var t := Shared(s.pending - {s.nextToSend}, s.nextToSend + 1, p.closeConnection);
        TurnFits(s, sent, outputs, t);
        if !p.closeConnection {
          DrainFits(t, sent + Concat(p.chunks), outputs);
          ConcatAppend(p.chunks, Drain(t).chunks);
          assert sent + Concat(f.chunks) == (sent + Concat(p.chunks)) + Concat(Drain(t).chunks);
        }
      } else {
        PartialTurnFits(s, sent, outputs, f.shared);
      }
    }
  }

  lemma ConcatNothing()
    ensures Concat([]) == []
  {
  }

  lemma FlushKeeps(w: World)
    requires Invariant(w)
    ensures Invariant(FlushStep(w))
  {
    hide QueueFits, SentFits, Drained, Concat, WriterFits, Shaped;
    if w.shared.closed {
      ClosedIsDrained(w.shared);
    }
    if w.queuedFlushes > 0 && w.connected && !w.shared.closed {
      DrainFits(w.shared, w.sent, w.outputs);
    }
  }

  lemma ClosedIsDrained(s: Shared)
    requires s.closed
    ensures Drained(s)
  {
  }

  lemma FinishedSnoc(log: seq<Piece>, p: Piece)
    ensures Finished(log + [p]) == (Finished(log) || Ends(p))
  {
    if Ends(p) {
      assert p in log + [p];
    }
    if Finished(log) {
      var q :| q in log && Ends(q);
      assert q in log + [p];
    }
  }

  /** Accepting a piece for a sequence number that is still to be sent, seen from the queue. */
  lemma PutFits(s: Shared, sent: Bytes, outputs: seq<Output>, i: nat, e: Entry, longer: seq<Output>)
    requires QueueFits(s, outputs) && SentFits(s, sent, outputs) && !s.closed && s.nextToSend <= i < |outputs|
    requires e.finished == Ends(e.piece) && longer == outputs[i := Accept(outputs[i], e, true)]
    ensures QueueFits(Put(s, i, e), longer) && SentFits(Put(s, i, e), sent, longer)
  {
    hide Finished, Rendered, Concat, Joined, Render;
    var n := s.nextToSend;
    var t := Put(s, i, e);
    var p := Waiting(s.pending, i);
    FinishedSnoc(outputs[i].log, e.piece);
    forall k | k != i ensures Waiting(t.pending, k) == Waiting(s.pending, k) {
    }
    ConcatSnoc(p.chunks, Render(e.piece));
    RenderedSnoc(outputs[i].log, e.piece);
    if i == n {
      assert longer[..n] == outputs[..n];
      JoinedNext(longer, n);
      JoinedNext(outputs, n);
      assert sent + (Concat(p.chunks) + Render(e.piece)) == (sent + Concat(p.chunks)) + Render(e.piece);
      assert (Joined(outputs[..n]) + Rendered(outputs[n].log)) + Render(e.piece)
             == Joined(outputs[..n]) + (Rendered(outputs[n].log) + Render(e.piece));
    } else {
      assert longer[..n + 1] == outputs[..n + 1];
    }
  }

  lemma {:induction false} SameLogs(a: seq<Output>, b: seq<Output>)
    requires |a| == |b| && forall k | 0 <= k < |a| :: a[k].log == b[k].log
    ensures Joined(a) == Joined(b)
    decreases |a|
  {
    if a != [] {
      SameLogs(a[..|a| - 1], b[..|b| - 1]);
    }
  }

  /** A piece for a sequence number already behind the queue waits in an entry that is never looked at. */
  lemma LatePutFits(s: Shared, sent: Bytes, outputs: seq<Output>, i: nat, e: Entry, longer: seq<Output>)
    requires QueueFits(s, outputs) && SentFits(s, sent, outputs) && !s.closed && i < s.nextToSend
    requires longer == outputs[i := Accept(outputs[i], e, false)]
    ensures QueueFits(Put(s, i, e), longer) && SentFits(Put(s, i, e), sent, longer)
  {
    hide Finished, Rendered, Concat, Joined, Render;
    forall k | k != i ensures Waiting(Put(s, i, e).pending, k) == Waiting(s.pending, k) {
    }
    var reach := Least(s.nextToSend + 1, |outputs|);
    SameLogs(outputs[..reach], longer[..reach]);
  }

  /** Accepting a piece, seen from its writer. */
  lemma PutShapes(x: Writer, log: seq<Piece>)
    requires x.phase.Putting? && WriterFits(x, log)
    ensures WriterFits(x.(phase := Scheduling), log + [x.phase.entry.piece]) && Shaped(log + [x.phase.entry.piece])
  {
    var more := log + [x.phase.entry.piece];
    assert more[..|log|] == log;
  }

  lemma AcceptedMore(o: Output, e: Entry, inTime: bool)
    requires inTime ==> o.late == []
    ensures Accepted(Accept(o, e, inTime)) == Accepted(o) + [e.piece]
  {
    if inTime {
      assert o.log + [] == o.log;
      assert (o.log + [e.piece]) + [] == o.log + [e.piece];
    }
  }

  lemma PutKeeps(w: World, i: nat)
    requires Invariant(w) && i < |w.writers|
    ensures Invariant(PutStep(w, i))
  {
    hide SentFits, Drained, WriterFits, Shaped, Put, Accept, Accepted, Finished, Holds, Agrees;
    var x := w.writers[i];
    if x.phase.Putting? {
      if w.shared.closed {
        ClosedIsDrained(w.shared);
      } else {
        var v := PutStep(w, i);
        var e := x.phase.entry;
        var o := w.outputs[i];
        assert WriterFits(x, Accepted(o));
        EntryFinishes(x, Accepted(o));
        PutShapes(x, Accepted(o));
        AcceptedMore(o, e, i >= w.shared.nextToSend);
        hide QueueFits;
        if i >= w.shared.nextToSend {
          PutFits(w.shared, w.sent, w.outputs, i, e, v.outputs);
        } else {
          LatePutFits(w.shared, w.sent, w.outputs, i, e, v.outputs);
        }
        PutLeavesOpen(w.shared, i, e);
        assert v.writers[i].phase.Scheduling? && v.writers[i] in v.writers;
      }
    }
  }

  lemma EntryFinishes(x: Writer, log: seq<Piece>)
    requires x.phase.Putting? && WriterFits(x, log)
    ensures x.phase.entry.finished == Ends(x.phase.entry.piece)
  {
  }

  lemma PutLeavesOpen(s: Shared, i: nat, e: Entry)
    ensures Put(s, i, e).closed == s.closed && Put(s, i, e).nextToSend == s.nextToSend
  {
  }

  lemma BeginFits(x: Writer, log: seq<Piece>, call: ResponseWriting.Call)
    requires x.phase.Resting? && WriterFits(x, log)
    ensures var (next, entry) := Begin(x.writeState, x.closeConnection, x.includeBody, call);
            WriterFits(x.(writeState := next, phase := if entry.Some? then Putting(entry.value) else Resting), log)
  {
  }

  /** A step that only moves one writer, and lets no waiting flush go unannounced. */
  lemma WriterMoves(w: World, i: nat, y: Writer, v: World)
    requires Invariant(w) && i < |w.writers|
    requires !w.shared.closed ==> WriterFits(y, Accepted(w.outputs[i]))
    requires v == w.(writers := w.writers[i := y], queuedFlushes := v.queuedFlushes)
             && v.queuedFlushes >= w.queuedFlushes
    requires w.writers[i].phase.Scheduling? && w.connected ==> v.queuedFlushes > 0
    ensures Invariant(v)
  {
    hide QueueFits, SentFits, Drained, WriterFits, Shaped;
    if w.connected && SomeoneSchedules(w.writers) && !w.writers[i].phase.Scheduling? {
      var x :| x in w.writers && x.phase.Scheduling?;
      var k :| 0 <= k < |w.writers| && w.writers[k] == x;
      assert v.writers[k] == x;
    }
  }

  lemma CallKeeps(w: World, i: nat, call: ResponseWriting.Call)
    requires Invariant(w) && i < |w.writers|
    ensures Invariant(CallStep(w, i, call))
  {
    hide QueueFits, SentFits, Drained, WriterFits, Shaped, Begin;
    var x := w.writers[i];
    if x.phase.Resting? {
      if !w.shared.closed {
        BeginFits(x, Accepted(w.outputs[i]), call);
      }
      var v := CallStep(w, i, call);
      WriterMoves(w, i, v.writers[i], v);
    }
  }

  lemma QueueKeeps(w: World, i: nat)
    requires Invariant(w) && i < |w.writers|
    ensures Invariant(QueueStep(w, i))
  {
    var x := w.writers[i];
    if x.phase.Scheduling? {
      assert !w.shared.closed ==> WriterFits(x, Accepted(w.outputs[i]));
      assert !w.shared.closed ==> WriterFits(x.(phase := Resting), Accepted(w.outputs[i]));
      hide QueueFits, SentFits, Drained, WriterFits, Shaped, WritersFit;
      var v := QueueStep(w, i);
      WriterMoves(w, i, v.writers[i], v);
    }
  }

  /** A new sequence number has no pieces yet. */
  lemma OpenQueueFits(s: Shared, outputs: seq<Output>)
    requires QueueFits(s, outputs)
    ensures QueueFits(s, outputs + [Output([], [], false)])
  {
    hide Concat, Ends;
    ConcatNothing();
    assert Rendered([]) == [];
  }

  lemma OpenSentFits(s: Shared, sent: Bytes, outputs: seq<Output>)
    requires s.nextToSend <= |outputs| && SentFits(s, sent, outputs)
    ensures SentFits(s, sent, outputs + [Output([], [], false)])
  {
    hide Concat, Waiting, Render;
    var longer := outputs + [Output([], [], false)];
    var n := s.nextToSend;
    assert longer[..n] == outputs[..n];
    if n < |outputs| {
      assert longer[..n + 1] == outputs[..n + 1];
    } else {
      JoinedNext(longer, n);
      assert Joined(outputs[..n]) + [] == Joined(outputs[..n]);
    }
  }

  lemma OpenKeeps(w: World, close: bool, body: bool)
    requires Invariant(w)
    ensures Invariant(Next(w, Open(close, body)))
  {
    hide QueueFits, SentFits, Drained;
    WaitingWithin(w);
    OpenQueueFits(w.shared, w.outputs);
    OpenSentFits(w.shared, w.sent, w.outputs);
    if SomeoneSchedules(w.writers) {
      var x :| x in w.writers && x.phase.Scheduling?;
      assert x in Next(w, Open(close, body)).writers;
    }
  }

  lemma WaitingWithin(w: World)
    requires QueueFits(w.shared, w.outputs)
    ensures w.shared.nextToSend <= |w.outputs|
  {
  }

  lemma DisconnectKeeps(w: World)
    requires Invariant(w)
    ensures Invariant(w.(connected := false))
  {
  }

  lemma StepKeeps(w: World, e: Event)
    requires Invariant(w)
    ensures Invariant(Next(w, e))
  {
    hide WritersFit, QueueFits, SentFits, Drained, FlushStep, CallStep, PutStep, QueueStep;
    match e
    case Open(close, body) => OpenKeeps(w, close, body);
    case Call(i, call) => if i < |w.writers| { WritersMatch(w); CallKeeps(w, i, call); }
    case LockAndPut(i) => if i < |w.writers| { PutKeeps(w, i); }
    case QueueFlush(i) => if i < |w.writers| { QueueKeeps(w, i); }
    case Flush => FlushKeeps(w);
    case Disconnect => DisconnectKeeps(w);
  }

  lemma WritersMatch(w: World)
    requires WritersFit(w)
    ensures |w.writers| == |w.outputs|
  {
  }

  lemma {:induction false} RunKeeps(w: World, events: seq<Event>)
    requires Invariant(w)
    ensures Invariant(Run(w, events))
    decreases |events|
  {
    hide Invariant, Next;
    if events != [] {
      StepKeeps(w, events[0]);
      RunKeeps(Next(w, events[0]), events[1..]);
    }
  }

  lemma InitialFits()
    ensures Invariant(INITIAL)
  {
    ConcatNothing();
    var none: seq<Output> := [];
    assert none[..0] == [];
  }

  lemma Reached(events: seq<Event>)
    ensures Invariant(Run(INITIAL, events))
  {
    InitialFits();
    hide *;
    RunKeeps(INITIAL, events);
  }

  /**
   * All bytes ever handed to the connection, under any calls and any interleaving: the pieces
   * accepted in time, in sequence order, nothing of a late piece and nothing behind a closing response.
   */
  lemma SentInOrder(events: seq<Event>)
    ensures var w := Run(INITIAL, events);
            && w.sent <= Joined(w.outputs)
            && (forall i | 0 <= i < |w.outputs| && w.outputs[i].close :: w.sent <= Joined(w.outputs[..i + 1]))
  {
    hide *;
    Reached(events);
    InOrder(Run(INITIAL, events));
  }

  lemma InOrder(w: World)
    requires Invariant(w)
    ensures w.sent <= Joined(w.outputs)
    ensures forall i | 0 <= i < |w.outputs| && w.outputs[i].close :: w.sent <= Joined(w.outputs[..i + 1])
  {
    hide Joined, Concat, Rendered;
    var n := w.shared.nextToSend;
    var reach := if w.shared.closed then n else Least(n + 1, |w.outputs|);
    assert w.sent <= Joined(w.outputs[..reach]);
    JoinedPrefix(w.outputs, reach);
    forall i | 0 <= i < |w.outputs| && w.outputs[i].close ensures w.sent <= Joined(w.outputs[..i + 1]) {
      assert reach <= i + 1;
      JoinedPrefix(w.outputs[..i + 1], reach);
      assert w.outputs[..i + 1][..reach] == w.outputs[..reach];
    }
  }

  /** No flush is queued and none is about to be. */
  predicate Quiet(w: World) { w.connected && w.queuedFlushes == 0 && !SomeoneSchedules(w.writers) }

  /**
   * The next sequence number is the least unfinished one and every byte it has been given so far
   * is sent; once a closing response is finished, exactly the responses up to it are sent.
   */
  predicate UpToDate(w: World) {
    var n := w.shared.nextToSend;
    && n <= |w.outputs|
    && (forall i | 0 <= i < n :: Finished(w.outputs[i].log))
    && if w.shared.closed then n > 0 && w.outputs[n - 1].close && w.sent == Joined(w.outputs[..n])
       else
         && w.sent == Joined(w.outputs[..Least(n + 1, |w.outputs|)])
         && (n < |w.outputs| ==> !Finished(w.outputs[n].log))
  }

  lemma UpToDateWhenQuiet(w: World)
    requires Invariant(w) && Quiet(w)
    ensures UpToDate(w)
  {
    hide Joined, Rendered, WritersFit, SomeoneSchedules, Finished, Holds;
    assert w.sent + [] == w.sent;
  }

  /** No stall: whatever the interleaving, everything that may be sent has been sent when it is quiet. */
  lemma QuietMeansSent(events: seq<Event>)
    requires Quiet(Run(INITIAL, events))
    ensures UpToDate(Run(INITIAL, events))
  {
    hide *;
    Reached(events);
    UpToDateWhenQuiet(Run(INITIAL, events));
  }
}
