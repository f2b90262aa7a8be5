/**
 * The output of a connection under any pattern of sends, short writes, refusals, shutdowns and closes.
 * Calls come from the loop thread, or from other threads, which first look at the state and then queue a
 * task on the loop; tasks run in the order they were queued, readiness events in between.
 */
module TcpOutputRuns {
  import opened Bytes
  import opened TcpOutput

  datatype Task = SendTask(data: Bytes) | ShutdownTask | CloseTask

  /**
   * The connection, the calls of other threads that have looked at the state but not queued their task
   * yet, and the queued tasks. History: the messages that went out or were kept, and those that were lost.
   */
  datatype World = World(c: Connection, calls: seq<Task>, tasks: seq<Task>, kept: Bytes, lost: seq<Bytes>)

  const START := World(Connection(Connected, false, [], [], false), [], [], [], [])

  /** Here is a call on the loop thread, There one on another thread; the outcomes are the socket's. */
  datatype Event =
    | SendHere(data: Bytes, outcome: Outcome)
    | SendThere(data: Bytes)
    | ShutdownHere
    | ShutdownThere
    | ForceClose
    | Queue(call: nat)
    | RunTask(outcome: Outcome)
    | Writable(outcome: Outcome)
    | PeerClosed

  /** send_raw_in_loop writes or keeps the whole message, or loses all of it. */
  function Sending(w: World, data: Bytes, outcome: Outcome): World {
    if Loses(w.c, outcome) then w.(lost := w.lost + [data])
    else w.(c := AfterSend(w.c, data, outcome), kept := w.kept + data)
  }

  predicate Loses(c: Connection, outcome: Outcome) { c.state == Disconnected || Faults(c, outcome) }

  function Perform(w: World, task: Task, outcome: Outcome): World {
    match task
    case SendTask(data) => Sending(w, data, outcome)
    case ShutdownTask => w.(c := AfterShutdownInLoop(w.c))
    case CloseTask => w.(c := w.c.(state := Disconnected, writing := false))
  }

  function Next(w: World, e: Event): World {
    match e
    case SendHere(data, outcome) => if w.c.state == Connected then Sending(w, data, outcome) else w
    case SendThere(data) => if w.c.state == Connected then w.(calls := w.calls + [SendTask(data)]) else w
    case ShutdownHere =>
      if w.c.state == Connected then w.(c := AfterShutdownInLoop(w.c.(state := Disconnecting))) else w
    case ShutdownThere =>
      if w.c.state == Connected then w.(c := w.c.(state := Disconnecting), calls := w.calls + [ShutdownTask]) else w
    case ForceClose =>
      if w.c.state == Disconnected then w
      else w.(c := w.c.(state := Disconnecting), calls := w.calls + [CloseTask])
    case Queue(i) =>
      if i >= |w.calls| then w
      else w.(calls := w.calls[..i] + w.calls[i + 1..], tasks := w.tasks + [w.calls[i]])
    case RunTask(outcome) =>
      if w.tasks == [] then w else Perform(w.(tasks := w.tasks[1..]), w.tasks[0], outcome)
    case Writable(outcome) => w.(c := AfterWritable(w.c, outcome))
    case PeerClosed => w.(c := w.c.(state := Disconnected, writing := false))
  }

  function Run(w: World, events: seq<Event>): World
    decreases |events|
  {
    if events == [] then w else Run(Next(w, events[0]), events[1..])
  }

  predicate Pending(w: World, task: Task) { task in w.calls || task in w.tasks }

  predicate Invariant(w: World) {
    var c := w.c;
    && (c.state != Disconnected ==> c.writing == (c.output != []))
    && c.wire + c.output == w.kept
    && (c.halfClosed || c.state == Disconnected ==> !c.writing)
    && (c.state == Connected ==> !c.halfClosed && !Pending(w, ShutdownTask))
    && (c.state == Disconnecting && !Pending(w, ShutdownTask) && !Pending(w, CloseTask) && c.output == [] ==>
          c.halfClosed)
  }

  /** A sent message is on the wire or in the buffer, or lost. */
  lemma SendingKeeps(w: World, data: Bytes, outcome: Outcome)
    requires Invariant(w)
    ensures Invariant(Sending(w, data, outcome))
  {
    var c := w.c;
    if !Loses(c, outcome) {
      var n := if DirectWrite(c) then Taken(outcome, |data|) else 0;
      Parts(data, data[..n], data[n..]);
      assert data == data[..n] + data[n..];
      if DirectWrite(c) {
        Reassociate(c.wire, data[..n], data[n..]);
        assert [] + data[n..] == data[n..] && c.wire + [] == c.wire;
      } else {
        assert data[..n] == [] && data[n..] == data && c.wire + [] == c.wire;
        Reassociate(c.wire, c.output, data);
      }
    }
  }

  lemma WritableKeeps(w: World, outcome: Outcome)
    requires Invariant(w)
    ensures Invariant(Next(w, Writable(outcome)))
  {
    var c := w.c;
    var n := Taken(Answer(c, outcome), |c.output|);
    assert c.output == c.output[..n] + c.output[n..];
    Reassociate(c.wire, c.output[..n], c.output[n..]);
  }

  lemma QueuePends(w: World, i: nat, task: Task)
    requires i < |w.calls|
    ensures Pending(Next(w, Queue(i)), task) == Pending(w, task)
  {
    Picked(w.calls, i);
  }

  lemma Picked(calls: seq<Task>, i: nat)
    requires i < |calls|
    ensures forall task :: task in calls <==> task == calls[i] || task in calls[..i] + calls[i + 1..]
  {
    assert calls == calls[..i] + [calls[i]] + calls[i + 1..];
  }

  lemma RunTaskKeeps(w: World, outcome: Outcome)
    requires Invariant(w) && w.tasks != []
    ensures Invariant(Next(w, RunTask(outcome)))
  {
    var v := w.(tasks := w.tasks[1..]);
    assert w.tasks == [w.tasks[0]] + v.tasks;
    match w.tasks[0]
    case SendTask(data) => SendingKeeps(v, data, outcome);
    case ShutdownTask =>
    case CloseTask =>
  }

  lemma StepKeeps(w: World, e: Event)
    requires Invariant(w)
    ensures Invariant(Next(w, e))
  {
    match e
    case SendHere(data, outcome) => SendingKeeps(w, data, outcome);
    case RunTask(outcome) => if w.tasks != [] { RunTaskKeeps(w, outcome); }
    case Writable(outcome) => WritableKeeps(w, outcome);
    case Queue(i) =>
      if i < |w.calls| {
        QueuePends(w, i, ShutdownTask);
        QueuePends(w, i, CloseTask);
      }
    case _ =>
  }

  lemma {:induction false} RunKeeps(w: World, events: seq<Event>)
    requires Invariant(w)
    ensures Invariant(Run(w, events))
    decreases |events|
  {
    hide Invariant, Next;
    if events != [] {
      StepKeeps(w, events[0]);
      RunKeeps(Next(w, events[0]), events[1..]);
    }
  }

  /**
   * First in, first out: the bytes on the wire followed by the output buffer are always the messages
   * that were not lost, in the order they were run; while not closed, write interest is on exactly when
   * the buffer is not empty.
   */
  lemma OutputIsFifo(events: seq<Event>)
    ensures var w := Run(START, events);
            && w.c.wire + w.c.output == w.kept
            && (w.c.state != Disconnected ==> (w.c.writing <==> w.c.output != []))
  {
    RunKeeps(START, events);
  }

  /** The accepted message that this event runs: sent on the loop thread, or queued before. */
  function Running(w: World, e: Event): Option<Bytes> {
    if e.SendHere? && w.c.state == Connected then Some(e.data)
    else if e.RunTask? && w.tasks != [] && w.tasks[0].SendTask? then Some(w.tasks[0].data)
    else None
  }

  /**
   * A message that was accepted is lost, all of it, exactly when by the time it runs the connection is
   * closed, or half-closed, or nothing waits and the peer is found gone; otherwise it is kept behind
   * everything kept before. One sent on the loop thread finds the connection neither closed nor
   * half-closed. No other event loses anything.
   */
  lemma LostIff(events: seq<Event>, e: Event)
    ensures var w, v := Run(START, events), Next(Run(START, events), e);
            match Running(w, e)
            case None => v.lost == w.lost && v.kept == w.kept
            case Some(data) =>
              if w.c.state == Disconnected || w.c.halfClosed || (w.c.output == [] && e.outcome == Gone)
              then v.lost == w.lost + [data] && v.c == w.c && v.kept == w.kept
              else v.lost == w.lost && v.kept == w.kept + data && v.c.wire + v.c.output == w.c.wire + w.c.output + data
    ensures var w := Run(START, events);
            e.SendHere? && Running(w, e).Some? ==> w.c.state != Disconnected && !w.c.halfClosed
  {
    RunKeeps(START, events);
    var w := Run(START, events);
    StepKeeps(w, e);
    hide Run;
    match Running(w, e)
    case Some(data) => SendingLoses(if e.SendHere? then w else w.(tasks := w.tasks[1..]), data, e.outcome);
    case None =>
  }

  lemma SendingLoses(w: World, data: Bytes, outcome: Outcome)
    requires w.c.state != Disconnected ==> w.c.writing == (w.c.output != [])
    requires w.c.halfClosed ==> !w.c.writing
    ensures var v := Sending(w, data, outcome);
            if w.c.state == Disconnected || w.c.halfClosed || (w.c.output == [] && outcome == Gone)
            then v == w.(lost := w.lost + [data])
            else v.lost == w.lost && v.kept == w.kept + data
  {
  }

  /** A shutdown on the loop thread overtakes every message that other threads have queued. */
  lemma ShutdownOvertakes(data: Bytes, outcome: Outcome)
    ensures Run(START, [SendThere(data), Queue(0), ShutdownHere, RunTask(outcome)]).lost == [data]
  {
    var a, b, c := Next(START, SendThere(data)), START, START;
    b := Next(a, Queue(0));
    c := Next(b, ShutdownHere);
    assert a.calls == [SendTask(data)] && b.tasks == [SendTask(data)] && c.c.halfClosed;
    RunFour(START, SendThere(data), Queue(0), ShutdownHere, RunTask(outcome));
  }

  /** A message still being written, another one queued, and a shutdown called behind it. */
  function Draining(first: Bytes, data: Bytes): World {
    World(Connection(Disconnecting, true, first, [], false), [ShutdownTask], [SendTask(data)], first, [])
  }

  lemma DrainingReached(first: Bytes, data: Bytes)
    requires first != []
    ensures Run(START, [SendHere(first, Again), SendThere(data), Queue(0), ShutdownThere]) == Draining(first, data)
  {
    RunFour(START, SendHere(first, Again), SendThere(data), Queue(0), ShutdownThere);
    var a := Next(START, SendHere(first, Again));
    assert a == World(Connection(Connected, true, first, [], false), [], [], first, []) by {
      assert first[0..] == first && first[..0] == [] && [] + first == first;
    }
    var b := Next(a, SendThere(data));
    assert b == a.(calls := [SendTask(data)]);
    var c := Next(b, Queue(0));
    assert c == a.(tasks := [SendTask(data)]) by {
      assert b.calls[..0] + b.calls[1..] == [] && [] + [SendTask(data)] == [SendTask(data)];
    }
    assert [] + [ShutdownTask] == [ShutdownTask];
  }

  /**
   * Even with all calls on one other thread in order: while an earlier message is being written, a
   * message and then a shutdown are queued; the socket takes the rest of the first before the tasks
   * run, which completes the shutdown, and the second message is lost.
   */
  lemma DrainOvertakes(first: Bytes, data: Bytes, outcome: Outcome)
    requires first != []
    ensures Run(START, [SendHere(first, Again), SendThere(data), Queue(0), ShutdownThere]) == Draining(first, data)
    ensures var v := Run(Draining(first, data), [Queue(0), Writable(Wrote(|first|)), RunTask(outcome)]);
            v.lost == [data] && v.c.wire == first && v.c.halfClosed
  {
    DrainingReached(first, data);
    var w := Draining(first, data);
    hide Run, Next, AfterWritable;
    RunThree(w, Queue(0), Writable(Wrote(|first|)), RunTask(outcome));
    var x := QueuedBehind(first, data);
    var y := Next(x, Writable(Wrote(|first|)));
    NextWrites(x, |first|);
    WriteStep(x.c, |first|);
    assert first[..|first|] == first;
    LateSendLost(y, data, outcome);
  }

  lemma QueuedBehind(first: Bytes, data: Bytes) returns (x: World)
    ensures x == Next(Draining(first, data), Queue(0))
    ensures x.c == Draining(first, data).c && x.tasks == [SendTask(data), ShutdownTask] && x.lost == []
  {
    x := Next(Draining(first, data), Queue(0));
  }

  lemma LateSendLost(y: World, data: Bytes, outcome: Outcome)
    requires y.c.halfClosed && !y.c.writing && y.c.output == [] && y.c.state == Disconnecting
    requires y.tasks == [SendTask(data), ShutdownTask] && y.lost == []
    ensures var v := Next(y, RunTask(outcome)); v.lost == [data] && v.c.wire == y.c.wire && v.c.halfClosed
  {
  }

  lemma RunThree(w: World, a: Event, b: Event, c: Event)
    ensures Run(w, [a, b, c]) == Next(Next(Next(w, a), b), c)
  {
    hide Next;
    assert [a, b, c][1..] == [b, c] && [b, c][1..] == [c] && [c][1..] == [];
    assert Run(Next(w, a), [b, c]) == Run(Next(Next(w, a), b), [c]);
  }

  lemma RunFour(w: World, a: Event, b: Event, c: Event, d: Event)
    ensures Run(w, [a, b, c, d]) == Next(Next(Next(Next(w, a), b), c), d)
  {
    hide Next;
    assert [a, b, c, d][1..] == [b, c, d];
    RunThree(Next(w, a), b, c, d);
  }

  /**
   * When the socket is half-closed, everything kept so far is on the wire, if and only if the connection
   * was not closed with bytes still waiting; those never leave.
   */
  lemma HalfCloseIsClean(events: seq<Event>, e: Event)
    requires var w := Run(START, events); !w.c.halfClosed && Next(w, e).c.halfClosed
    ensures var w, v := Run(START, events), Next(Run(START, events), e);
            v.c.wire == v.kept <==> w.c.state != Disconnected || w.c.output == []
  {
    RunKeeps(START, events);
    var w := Run(START, events);
    StepKeeps(w, e);
    hide Run;
    var v := Next(w, e);
    HalfCloses(w, e);
    NothingWaits(v.c.wire, v.c.output);
  }

  lemma HalfCloses(w: World, e: Event)
    requires Invariant(w) && !w.c.halfClosed && Next(w, e).c.halfClosed
    ensures w.c.state == Disconnected ==> Next(w, e).c.output == w.c.output
    ensures w.c.state != Disconnected ==> Next(w, e).c.output == []
  {
  }

  lemma NothingWaits(wire: Bytes, output: Bytes)
    ensures wire == wire + output <==> output == []
  {
    assert |wire + output| == |wire| + |output|;
    assert wire + [] == wire;
  }

  /** A peer that closes before the shutdown has run: the socket is half-closed with bytes still waiting. */
  lemma ClosedHalfCloses(data: Bytes, taken: nat, outcome: Outcome)
    requires taken < |data|
    ensures var v := Run(START, [SendHere(data, Wrote(taken)), ShutdownThere, Queue(0), PeerClosed, RunTask(outcome)]);
            v.c.halfClosed && v.c.wire == data[..taken] && v.c.output == data[taken..] && v.kept == data
  {
    var a := Next(START, SendHere(data, Wrote(taken)));
    assert a == World(Connection(Connected, true, data[taken..], data[..taken], false), [], [], data, []) by {
      assert [] + data[..taken] == data[..taken] && [] + data[taken..] == data[taken..] && [] + data == data;
    }
    var b := Next(a, ShutdownThere);
    assert b == a.(c := a.c.(state := Disconnecting), calls := [ShutdownTask]);
    var c := Next(b, Queue(0));
    assert c == b.(calls := [], tasks := [ShutdownTask]);
    var d := Next(c, PeerClosed);
    hide Next;
    RunOn(START, SendHere(data, Wrote(taken)), [ShutdownThere, Queue(0), PeerClosed, RunTask(outcome)]);
    RunFour(a, ShutdownThere, Queue(0), PeerClosed, RunTask(outcome));
    LastHalfCloses(d, outcome);
  }

  lemma RunOn(w: World, e: Event, more: seq<Event>)
    ensures Run(w, [e] + more) == Run(Next(w, e), more)
  {
    hide Next;
    assert ([e] + more)[1..] == more;
  }

  lemma LastHalfCloses(w: World, outcome: Outcome)
    requires w.tasks == [ShutdownTask] && !w.c.writing
    ensures Next(w, RunTask(outcome)).c == w.c.(halfClosed := true) && Next(w, RunTask(outcome)).kept == w.kept
  {
  }

  /** After the half-close nothing more reaches the wire. */
  lemma {:induction false} HalfCloseIsFinal(w: World, events: seq<Event>)
    requires Invariant(w) && w.c.halfClosed
    ensures Run(w, events).c.halfClosed && Run(w, events).c.wire == w.c.wire
    decreases |events|
  {
    if events != [] {
      StepKeeps(w, events[0]);
      RefusesMore(w, events[0]);
      hide Next, Invariant;
      HalfCloseIsFinal(Next(w, events[0]), events[1..]);
    }
  }

  lemma RefusesMore(w: World, e: Event)
    requires Invariant(w) && w.c.halfClosed
    ensures Next(w, e).c.halfClosed && Next(w, e).c.wire == w.c.wire
  {
  }

  /** After a close, by either side, nothing more reaches the wire either. */
  lemma {:induction false} CloseIsFinal(w: World, events: seq<Event>)
    requires Invariant(w) && w.c.state == Disconnected
    ensures Run(w, events).c.state == Disconnected && Run(w, events).c.wire == w.c.wire
    decreases |events|
  {
    if events != [] {
      StepKeeps(w, events[0]);
      ClosedStays(w, events[0]);
      hide Next, Invariant;
      CloseIsFinal(Next(w, events[0]), events[1..]);
    }
  }

  lemma ClosedStays(w: World, e: Event)
    requires Invariant(w) && w.c.state == Disconnected
    ensures Next(w, e).c.state == Disconnected && Next(w, e).c.wire == w.c.wire
  {
  }

  /** A shutdown is never forgotten: with no call or task pending and an empty buffer the socket is half-closed. */
  lemma ShutdownHappens(events: seq<Event>)
    ensures var w := Run(START, events);
            w.c.state == Disconnecting && !Pending(w, ShutdownTask) && !Pending(w, CloseTask) && w.c.output == [] ==>
              w.c.halfClosed
  {
    RunKeeps(START, events);
  }

  /** Writable events in which the socket takes so many bytes, or fewer if fewer wait. */
  function Writes(takes: seq<nat>): seq<Event> {
    if takes == [] then [] else [Writable(Wrote(takes[0]))] + Writes(takes[1..])
  }

  function Sum(takes: seq<nat>): nat { if takes == [] then 0 else takes[0] + Sum(takes[1..]) }

  /**
   * Whatever the socket takes each time, what it took has moved to the wire and nothing else has
   * changed; the buffer is empty exactly when it took as many bytes as waited, and that completes a
   * shutdown.
   */
  lemma {:induction false} EventuallyWritten(w: World, takes: seq<nat>)
    requires Invariant(w) && w.c.state != Disconnected && !w.c.halfClosed
    ensures var v := Run(w, Writes(takes));
            var n := if Sum(takes) <= |w.c.output| then Sum(takes) else |w.c.output|;
            && v.c.wire == w.c.wire + w.c.output[..n] && v.c.output == w.c.output[n..]
            && (v.c.writing <==> v.c.output != [])
            && (w.c.output != [] && w.c.state == Disconnecting ==> (v.c.halfClosed <==> Sum(takes) >= |w.c.output|))
    decreases |takes|
  {
    if takes == [] {
      assert w.c.wire + w.c.output[..0] == w.c.wire;
    } else {
      var v := FirstWrite(w, takes);
      hide Next, Invariant, Run, Writes;
      if v.c.output == [] {
        EmptyStays(v, takes[1..]);
      } else {
        EventuallyWritten(v, takes[1..]);
        TakeTwice(w.c.output, takes[0], Sum(takes[1..]), w.c.wire);
      }
    }
  }

  lemma FirstWrite(w: World, takes: seq<nat>) returns (v: World)
    requires Invariant(w) && w.c.state != Disconnected && !w.c.halfClosed && takes != []
    ensures Invariant(v) && Run(w, Writes(takes)) == Run(v, Writes(takes[1..]))
    ensures var n := if takes[0] <= |w.c.output| then takes[0] else |w.c.output|;
            && v.c.state == w.c.state && v.c.wire == w.c.wire + w.c.output[..n] && v.c.output == w.c.output[n..]
            && (v.c.writing <==> v.c.output != [])
            && (v.c.halfClosed <==> w.c.output != [] && v.c.output == [] && w.c.state == Disconnecting)
  {
    hide Next, Invariant, Run, Writes;
    var e: Event := Writable(Wrote(takes[0]));
    v := Next(w, e);
    StepKeeps(w, e);
    InterestFits(w);
    InterestFits(v);
    WriteStep(w.c, takes[0]);
    NextWrites(w, takes[0]);
    WriteFirst(w, takes, e);
  }

  lemma InterestFits(w: World)
    requires Invariant(w)
    ensures w.c.state != Disconnected ==> w.c.writing == (w.c.output != [])
  {
  }

  lemma NextWrites(w: World, take: nat)
    ensures Next(w, Writable(Wrote(take))) == w.(c := AfterWritable(w.c, Wrote(take)))
  {
    hide AfterWritable;
  }

  lemma WriteFirst(w: World, takes: seq<nat>, e: Event)
    requires takes != [] && e == Writable(Wrote(takes[0]))
    ensures Run(w, Writes(takes)) == Run(Next(w, e), Writes(takes[1..]))
  {
    hide Next;
    assert Writes(takes)[0] == e && Writes(takes)[1..] == Writes(takes[1..]);
  }

  lemma WriteStep(c: Connection, take: nat)
    requires !c.halfClosed && c.state != Disconnected && c.writing == (c.output != [])
    ensures var d := AfterWritable(c, Wrote(take));
            var n := if take <= |c.output| then take else |c.output|;
            && d.state == c.state && d.wire == c.wire + c.output[..n] && d.output == c.output[n..]
            && (d.halfClosed <==> c.output != [] && d.output == [] && c.state == Disconnecting)
  {
    assert c.wire + c.output[..0] == c.wire;
  }

  lemma TakeTwice(output: Bytes, first: nat, more: nat, wire: Bytes)
    requires first < |output|
    ensures var rest := output[first..];
            var k := if more <= |rest| then more else |rest|;
            && (wire + output[..first]) + rest[..k] == wire + output[..first + k] && rest[k..] == output[first + k..]
  {
  }

  lemma {:induction false} EmptyStays(w: World, takes: seq<nat>)
    requires w.c.output == [] && !w.c.writing
    ensures Run(w, Writes(takes)) == w
    decreases |takes|
  {
    if takes != [] {
      assert Writes(takes)[1..] == Writes(takes[1..]);
      EmptyStays(w, takes[1..]);
    }
  }
}
