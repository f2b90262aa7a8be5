/** When a response closes the connection, told from the calls of its writer. */
module ResponseClosing {
  import opened ResponseWriting
  import opened ResponseProtocol

  /**
   * History told from the calls alone, one for each writer: whether its last call was made with close, and
   * whether a piece accepted in time came from a closing writer or from a call made with close.
   */
  datatype Asked = Asked(call: bool, output: bool)

  predicate AsksToClose(call: ResponseWriting.Call) { (call.Send? || call.StartChunked?) && call.close }

  function Watched(w: World, e: Event, h: seq<Asked>): seq<Asked> {
    match e
    case Open(_, _) => h + [Asked(false, false)]
    case Call(i, call) =>
      if i < |h| && i < |w.writers| && w.writers[i].phase.Resting? then h[i := h[i].(call := AsksToClose(call))] else h
    case LockAndPut(i) =>
      if i < |h| && i < |w.writers| && w.writers[i].phase.Putting? && !w.shared.closed && i >= w.shared.nextToSend then
        h[i := h[i].(output := h[i].output || w.writers[i].closeConnection || h[i].call)]
      else h
    case _ => h
  }

  function Watch(w: World, events: seq<Event>, h: seq<Asked>): seq<Asked>
    decreases |events|
  {
    if events == [] then h else Watch(Next(w, events[0]), events[1..], Watched(w, events[0], h))
  }

  predicate EntryCloses(x: Writer, h: Asked) {
    x.phase.Putting? ==> x.phase.entry.close == (x.closeConnection || h.call)
  }

  predicate Tracks(w: World, h: seq<Asked>) {
    && |h| == |w.writers| == |w.outputs|
    && (forall i | 0 <= i < |h| :: EntryCloses(w.writers[i], h[i]))
    && (forall i | 0 <= i < |h| :: w.outputs[i].close == h[i].output)
  }

  lemma BeginCloses(x: Writer, call: ResponseWriting.Call)
    ensures var (next, entry) := Begin(x.writeState, x.closeConnection, x.includeBody, call);
            entry.Some? ==> entry.value.close == (x.closeConnection || AsksToClose(call))
  {
  }

  lemma StepTracks(w: World, e: Event, h: seq<Asked>)
    requires Tracks(w, h)
    ensures Tracks(Next(w, e), Watched(w, e, h))
  {
    hide Begin, Put, Drain, AsksToClose;
    if e.Call? && e.writer < |w.writers| {
      BeginCloses(w.writers[e.writer], e.call);
    }
  }

  lemma {:induction false} RunTracks(w: World, events: seq<Event>, h: seq<Asked>)
    requires Tracks(w, h)
    ensures Tracks(Run(w, events), Watch(w, events, h))
    decreases |events|
  {
    hide Tracks, Next, Watched;
    if events != [] {
      StepTracks(w, events[0], h);
      RunTracks(Next(w, events[0]), events[1..], Watched(w, events[0], h));
    }
  }

  /**
   * In every run a response closes the connection if and only if a piece of it that was accepted in time
   * came from a closing writer, or from a send or start_chunked of a response that asks for it.
   */
  lemma ClosesIff(events: seq<Event>, i: nat)
    requires i < |Run(INITIAL, events).outputs|
    ensures var h := Watch(INITIAL, events, []);
            |h| == |Run(INITIAL, events).outputs| && Run(INITIAL, events).outputs[i].close == h[i].output
  {
    hide Run, Watch;
    RunTracks(INITIAL, events, []);
  }

  /** All responses up to this one are finished, and it is the first of them that closes the connection. */
  predicate ClosesFirst(w: World, i: nat) {
    && i < |w.outputs| && w.outputs[i].close
    && (forall k | 0 <= k <= i :: Finished(w.outputs[k].log))
    && (forall k | 0 <= k < i :: !w.outputs[k].close)
  }

  /**
   * When it is quiet, the connection has been shut down exactly behind the first finished response that
   * closes it, with everything up to that response sent and nothing behind it.
   */
  lemma ShutdownIff(events: seq<Event>)
    requires Quiet(Run(INITIAL, events))
    ensures var w := Run(INITIAL, events);
            && (w.shutdown <==> exists i :: ClosesFirst(w, i))
            && forall i | ClosesFirst(w, i) :: w.sent == Joined(w.outputs[..i + 1])
  {
    hide *;
    Reached(events);
    UpToDateWhenQuiet(Run(INITIAL, events));
    ShutdownFacts(Run(INITIAL, events));
  }

  lemma ShutdownFacts(w: World)
    requires Invariant(w) && UpToDate(w)
    ensures w.shutdown <==> exists i :: ClosesFirst(w, i)
    ensures forall i | ClosesFirst(w, i) :: w.sent == Joined(w.outputs[..i + 1])
  {
    hide Joined, Rendered, SentFits, Drained, SomeoneSchedules, WritersFit, Finished, Holds, Agrees;
    var n := w.shared.nextToSend;
    if w.shared.closed {
      assert ClosesFirst(w, n - 1);
    }
    forall i | ClosesFirst(w, i) ensures w.shared.closed && i == n - 1 {
      assert i < n;
    }
  }

  /** Each queued flush run once. */
  function Flushes(n: nat): seq<Event> { if n == 0 then [] else [Flush] + Flushes(n - 1) }

  /** When no call is under way, running the queued flushes makes it quiet, so everything that may be sent is. */
  lemma {:induction false} FlushesQuiet(w: World)
    requires w.connected && !SomeoneSchedules(w.writers)
    ensures Quiet(Run(w, Flushes(w.queuedFlushes)))
    decreases w.queuedFlushes
  {
    hide Drain, SomeoneSchedules;
    if w.queuedFlushes > 0 {
      assert Flushes(w.queuedFlushes)[1..] == Flushes(w.queuedFlushes - 1);
      FlushesQuiet(Next(w, Flush));
    }
  }
}
