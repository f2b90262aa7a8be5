/** src/http/http_response_writer.cpp: many writers, one queue of responses in request order. */
module ResponseWriting {
  import opened Bytes
  import opened ChunkedCoding

  datatype PendingResponse = PendingResponse(chunks: seq<Bytes>, closeConnection: bool, finished: bool)

  /** The fields guarded by the mutex. */
  datatype Shared = Shared(pending: map<nat, PendingResponse>, nextToSend: nat, closed: bool)

  /** What a call hands to enqueue, and the bytes it stands for; Bare is a head behind which no body may come. */
  datatype Piece = Whole(bytes: Bytes) | Head(bytes: Bytes) | Bare(bytes: Bytes) | Chunk(data: Bytes) | End

  function Render(p: Piece): Bytes {
    match p
    case Whole(bytes) => bytes
    case Head(bytes) => bytes
    case Bare(bytes) => bytes
    case Chunk(data) => EncodeChunk(data)
    case End => TERMINATOR
  }

  datatype Entry = Entry(piece: Piece, finished: bool, close: bool)

  /** The calls of a writer; `bytes` and `close` are the rendered response and its own close flag. */
  datatype Call =
    | Send(bytes: Bytes, close: bool)
    | StartChunked(bytes: Bytes, close: bool)
    | WriteChunk(data: Bytes)
    | Finish

  const UNUSED: nat := 0
  const STREAMING: nat := 1
  const DONE: nat := 2

  /** The compare-and-exchange of a call: the new write state and what is enqueued, if anything. */
  function Begin(writeState: nat, closeConnection: bool, includeBody: bool, call: Call): (nat, Option<Entry>) {
    match call
    case Send(bytes, close) =>
      if writeState != UNUSED then (writeState, None)
      else (DONE, Some(Entry(Whole(bytes), true, closeConnection || close)))
    case StartChunked(bytes, close) =>
      if writeState != UNUSED then (writeState, None)
      else
        var piece := if includeBody then Head(bytes) else Bare(bytes);
        (STREAMING, Some(Entry(piece, !includeBody, closeConnection || close)))
    case WriteChunk(data) =>
      if writeState != STREAMING || data == [] then (writeState, None)
      else (writeState, Some(Entry(Chunk(data), false, closeConnection)))
    case Finish =>
      if writeState != STREAMING then (writeState, None)
      else (DONE, Some(Entry(End, true, closeConnection)))
  }

  /** The response a sequence number is waiting with; a missing one counts as empty. */
  function Waiting(pending: map<nat, PendingResponse>, sequence: nat): PendingResponse {
    if sequence in pending then pending[sequence] else PendingResponse([], false, false)
  }

  /** The lock section of enqueue on a state that is not closed. */
  function Put(s: Shared, sequence: nat, e: Entry): Shared {
    var p := Waiting(s.pending, sequence);
    var q := PendingResponse(p.chunks + [Render(e.piece)], p.closeConnection || e.close, p.finished || e.finished);
    s.(pending := s.pending[sequence := q])
  }

  /** What one flush takes out of the shared state. */
  datatype Flushed = Flushed(shared: Shared, chunks: seq<Bytes>, close: bool)

  lemma Removed(m: map<nat, PendingResponse>, k: nat)
    requires k in m
    ensures |m - {k}| < |m|
  {
    assert (m - {k}).Keys == m.Keys - {k};
    assert |m.Keys - {k}| == |m.Keys| - 1;
    assert |m| == |m.Keys| && |m - {k}| == |(m - {k}).Keys|;
  }

  /** The loop of flush_ready_responses. */
  function Drain(s: Shared): Flushed
    decreases |s.pending|
  {
    if s.nextToSend !in s.pending then Flushed(s, [], false)
    else
      var p := s.pending[s.nextToSend];
      if !p.finished then
        Flushed(s.(pending := s.pending[s.nextToSend := p.(chunks := [])]), p.chunks, false)
      else
        Removed(s.pending, s.nextToSend);
        var t := Shared(s.pending - {s.nextToSend}, s.nextToSend + 1, p.closeConnection);
        if p.closeConnection then Flushed(t, p.chunks, true)
        else
          var f := Drain(t);
          f.(chunks := p.chunks + f.chunks)
  }

  /** One turn of that loop, from the state with the chunks already swapped out. */
  lemma DrainTurn(s: Shared, emptied: map<nat, PendingResponse>)
    requires s.nextToSend in s.pending
    requires emptied == s.pending[s.nextToSend := s.pending[s.nextToSend].(chunks := [])]
    ensures var p := s.pending[s.nextToSend];
            var t := Shared(emptied - {s.nextToSend}, s.nextToSend + 1, p.closeConnection);
            Drain(s) ==
              if !p.finished then Flushed(s.(pending := emptied), p.chunks, false)
              else if p.closeConnection then Flushed(t, p.chunks, true)
              else Drain(t).(chunks := p.chunks + Drain(t).chunks)
  {
    assert emptied - {s.nextToSend} == s.pending - {s.nextToSend};
  }

  class State {
    var pending: map<nat, PendingResponse>
    var nextToSend: nat
    var closed: bool

    function View(): Shared
      reads this
    {
      Shared(pending, nextToSend, closed)
    }

    constructor ()
      ensures View() == Shared(map[], 0, false)
    {
      pending, nextToSend, closed := map[], 0, false;
    }

    /** The lock section of enqueue. */
    method Enqueue(sequence: nat, e: Entry) returns (accepted: bool)
      modifies this
      ensures accepted == !old(closed)
      ensures View() == if accepted then Put(old(View()), sequence, e) else old(View())
    {
      if closed {
        return false;
      }
      var p := Waiting(pending, sequence);
      p := p.(chunks := p.chunks + [Render(e.piece)]);
      p := p.(closeConnection := p.closeConnection || e.close);
      p := p.(finished := p.finished || e.finished);
      pending := pending[sequence := p];
      return true;
    }

    /** The lock section of flush_ready_responses: the chunks to send and whether to shut down after them. */
    method FlushReadyResponses() returns (chunks: seq<Bytes>, closeAfterReady: bool)
      modifies this
      ensures old(closed) ==> View() == old(View()) && chunks == [] && !closeAfterReady
      ensures !old(closed) ==> Flushed(View(), chunks, closeAfterReady) == Drain(old(View()))
    {
      chunks, closeAfterReady := [], false;
      if closed {
        return;
      }
      ghost var start := View();
      hide Drain;
      while nextToSend in pending
        invariant !closed && !closeAfterReady
        invariant var f := Drain(View()); Drain(start) == f.(chunks := chunks + f.chunks)
        decreases |pending|
      {
        var p := pending[nextToSend];
        ghost var before, taken := View(), chunks;
        chunks := chunks + p.chunks;
        pending := pending[nextToSend := p.(chunks := [])];
        DrainTurn(before, pending);
        if !p.finished {
          return;
        }
        Removed(pending, nextToSend);
        pending := pending - {nextToSend};
        nextToSend := nextToSend + 1;
        if p.closeConnection {
          closed, closeAfterReady := true, true;
          return;
        }
        assert View() == Shared(pending, before.nextToSend + 1, false);
        assert taken + (p.chunks + Drain(View()).chunks) == chunks + Drain(View()).chunks;
      }
      DrainIdle(View());
      assert chunks + [] == chunks;
    }
  }

  lemma DrainIdle(s: Shared)
    requires s.nextToSend !in s.pending
    ensures Drain(s) == Flushed(s, [], false)
  {
  }

  class HttpResponseWriter {
    const state: State
    const sequence: nat
    const closeConnection: bool
    const includeBody: bool
    var writeState: nat

    constructor (state: State, sequence: nat, closeConnection: bool, includeBody: bool)
      ensures this.state == state && this.sequence == sequence && writeState == UNUSED
      ensures this.closeConnection == closeConnection && this.includeBody == includeBody
    {
      this.state, this.sequence := state, sequence;
      this.closeConnection, this.includeBody := closeConnection, includeBody;
      writeState := UNUSED;
    }

    /** The state after a call: the write state moves as Begin says, and what it yields is enqueued. */
    twostate predicate Called(call: Call, put: bool)
      reads this, state
    {
      var (next, entry) := Begin(old(writeState), closeConnection, includeBody, call);
      && writeState == next
      && put == (entry.Some? && !old(state.closed))
      && state.View() == if put then Put(old(state.View()), sequence, entry.value) else old(state.View())
    }

    method Send(bytes: Bytes, close: bool) returns (put: bool)
      modifies this, state
      ensures Called(Call.Send(bytes, close), put)
    {
      if writeState != UNUSED {
        return false;
      }
      writeState := DONE;
      put := state.Enqueue(sequence, Entry(Whole(bytes), true, closeConnection || close));
    }

    method StartChunked(bytes: Bytes, close: bool) returns (put: bool)
      modifies this, state
      ensures Called(Call.StartChunked(bytes, close), put)
    {
      if writeState != UNUSED {
        return false;
      }
      writeState := STREAMING;
      if !includeBody {
        put := state.Enqueue(sequence, Entry(Bare(bytes), true, closeConnection || close));
        return;
      }
      put := state.Enqueue(sequence, Entry(Head(bytes), false, closeConnection || close));
    }

    method WriteChunk(data: Bytes) returns (put: bool)
      modifies this, state
      ensures Called(Call.WriteChunk(data), put)
    {
      if writeState != STREAMING || data == [] {
        return false;
      }
      put := state.Enqueue(sequence, Entry(Chunk(data), false, closeConnection));
    }

    method Finish() returns (put: bool)
      modifies this, state
      ensures Called(Call.Finish, put)
    {
      if writeState != STREAMING {
        return false;
      }
      writeState := DONE;
      put := state.Enqueue(sequence, Entry(End, true, closeConnection));
    }
  }
}
