/** The streaming body part of src/http/http_context.cpp, with a body stream that may be paused. */
module HttpStreaming {
  import opened Bytes
  import opened Incremental
  import opened HttpText
  import opened BodyDecoder
  import opened NetBuffer

  datatype Status = Incomplete | Done | Error

  datatype BodyMode = NoBody | FixedMode | ChunkedMode

  datatype ChunkState = AtSize | InData | AtDataCrlf | InTrailers

  class HttpContext {
    var mode: BodyMode
    var chunkState: ChunkState
    var remaining: nat
    var decodedBytes: nat
    var trailerBytes: nat
    var active: bool
    /** What on_data has handed to the application, and whether on_complete was called. */
    var delivered: Bytes
    var completed: bool

    function Phase(): BodyPhase
      reads this
    {
      if !active then Finished
      else if mode == FixedMode then FixedLength
      else match chunkState
        case AtSize => Size
        case InData => Data
        case AtDataCrlf => DataCrlf
        case InTrailers => TrailerLines
    }

    function View(): BodyState
      reads this
    {
      Streaming(Phase(), remaining, decodedBytes, trailerBytes, delivered)
    }

    ghost predicate Valid()
      reads this
    {
      && (active ==> mode != NoBody && !completed)
      && (active && mode == ChunkedMode && chunkState == InData ==> remaining > 0)
    }

    constructor ()
      ensures Valid() && !active
    {
      mode, chunkState, remaining, decodedBytes, trailerBytes := NoBody, AtSize, 0, 0, 0;
      active, delivered, completed := false, [], false;
    }

    method StartStreamingBody(length: nat)
      modifies this
      ensures Valid() && active && View() == StartFixed(length)
    {
      mode, remaining, active, delivered, completed := FixedMode, length, true, [], false;
      chunkState, decodedBytes, trailerBytes := AtSize, 0, 0;
    }

    method StartStreamingChunkedBody()
      modifies this
      ensures Valid() && active && View() == StartChunked()
    {
      mode, chunkState, remaining, decodedBytes, trailerBytes := ChunkedMode, AtSize, 0, 0, 0;
      active, delivered, completed := true, [], false;
    }

    /** reading_paused: the application decides, from any thread. */
    method ReadingPaused() returns (paused: bool) {
      paused := *;
    }

    /**
     * Whatever the pauses, the run that lies ahead stays the same; unpaused, the decoder gets to
     * its end. After an error the caller cancels the body.
     */
    method ProcessStreamingBody(buffer: Buffer) returns (status: Status, paused: bool)
      requires Valid() && active && buffer.Valid()
      modifies this, buffer`readerIndex, buffer`writerIndex
      ensures buffer.Valid()
      ensures var end := Run(BODY, old(Cursor(View(), buffer.Contents())));
              && (status == Error ==> end.state.Broken?)
              && (status != Error ==> Valid() && Run(BODY, Cursor(View(), buffer.Contents())) == end)
              && (status != Error && !paused ==> Cursor(View(), buffer.Contents()) == end)
              && (status == Done ==> !paused && View().phase == Finished && completed)
              && (status == Incomplete ==> active && !completed)
    {
      paused := ReadingPaused();
      if paused {
        return Incomplete, true;
      }
      if mode == ChunkedMode {
        status, paused := ProcessChunked(buffer);
      } else {
        status, paused := ProcessFixed(buffer);
      }
    }

    method ProcessFixed(buffer: Buffer) returns (status: Status, paused: bool)
      requires Valid() && active && mode == FixedMode && buffer.Valid()
      modifies this, buffer`readerIndex, buffer`writerIndex
      ensures buffer.Valid() && Valid() && status != Error
      ensures var end := Run(BODY, old(Cursor(View(), buffer.Contents())));
              && Run(BODY, Cursor(View(), buffer.Contents())) == end
              && (!paused ==> Cursor(View(), buffer.Contents()) == end)
              && (status == Done ==> !paused && View().phase == Finished && completed)
              && (status == Incomplete ==> active && !completed)
    {
      ghost var start := Cursor(View(), buffer.Contents());
      paused := false;
      while remaining > 0 && buffer.ReadableBytes() > 0
        invariant buffer.Valid() && Valid() && active && mode == FixedMode
        invariant Run(BODY, Cursor(View(), buffer.Contents())) == Run(BODY, start)
        decreases remaining
      {
        paused := ReadingPaused();
        if paused {
          return Incomplete, true;
        }
        DeliverSome(buffer);
      }
      if remaining > 0 {
        return Incomplete, false;
      }
      active, completed := false, true;
      status := Done;
    }

    /** on_data with as much of the body as the buffer holds. */
    method DeliverSome(buffer: Buffer)
      requires Valid() && active && buffer.Valid()
      requires (mode == FixedMode || chunkState == InData) && remaining > 0 && buffer.Contents() != []
      modifies this, buffer`readerIndex, buffer`writerIndex
      ensures buffer.Valid() && Valid() && active && mode == old(mode) && remaining < old(remaining)
      ensures |buffer.Contents()| < |old(buffer.Contents())|
      ensures Run(BODY, Cursor(View(), buffer.Contents())) == Run(BODY, old(Cursor(View(), buffer.Contents())))
    {
      hide StepBody, Run;
      ghost var s, b := View(), buffer.Contents();
      var n := if remaining <= buffer.ReadableBytes() then remaining else buffer.ReadableBytes();
      var chunk := buffer.RetrieveAsString(n);
      assert b == chunk + buffer.Contents();
      OnData(chunk);
      hide View, Deliver;
      DeliverRun(s, chunk, buffer.Contents());
    }

    /** on_data with what the loops keep count of. */
    method OnData(chunk: Bytes)
      requires Valid() && active && chunk != [] && |chunk| <= remaining
      requires mode == FixedMode || chunkState == InData
      modifies this
      ensures Valid() && active && mode == old(mode) && remaining == old(remaining) - |chunk|
      ensures View() == Deliver(old(View()), chunk)
    {
      delivered := delivered + chunk;
      remaining := remaining - |chunk|;
      if mode == ChunkedMode {
        decodedBytes := decodedBytes + |chunk|;
        if remaining == 0 {
          chunkState := AtDataCrlf;
        }
      }
    }

    method ProcessChunked(buffer: Buffer) returns (status: Status, paused: bool)
      requires Valid() && active && mode == ChunkedMode && buffer.Valid()
      modifies this, buffer`readerIndex, buffer`writerIndex
      ensures buffer.Valid()
      ensures var end := Run(BODY, old(Cursor(View(), buffer.Contents())));
              && (status == Error ==> end.state.Broken?)
              && (status != Error ==> Valid() && Run(BODY, Cursor(View(), buffer.Contents())) == end)
              && (status != Error && !paused ==> Cursor(View(), buffer.Contents()) == end)
              && (status == Done ==> !paused && View().phase == Finished && completed)
              && (status == Incomplete ==> active && !completed)
    {
      hide StepBody;
      ghost var start := Cursor(View(), buffer.Contents());
      while true
        invariant buffer.Valid() && Valid() && active && mode == ChunkedMode
        invariant Run(BODY, Cursor(View(), buffer.Contents())) == Run(BODY, start)
        decreases |buffer.Contents()|
      {
        var turn: Turn;
        match chunkState {
          case AtSize =>
            turn := ReadSize(buffer);
          case InData =>
            paused := ReadingPaused();
            if paused {
              return Incomplete, true;
            }
            if buffer.ReadableBytes() == 0 {
              Waits(View());
              return Incomplete, false;
            }
            DeliverSome(buffer);
            turn := GoOn;
          case AtDataCrlf =>
            turn := ReadDataCrlf(buffer);
          case InTrailers =>
            turn := ReadTrailerLine(buffer);
        }
        match turn {
          case GoOn =>
          case NeedMore =>
            return Incomplete, false;
          case Refuse => return Error, false;
          case Ended =>
            FinishedIsEnd(Cursor(View(), buffer.Contents()));
            return Done, false;
        }
      }
    }

    method ReadSize(buffer: Buffer) returns (turn: Turn)
      requires Valid() && active && mode == ChunkedMode && chunkState == AtSize && buffer.Valid()
      modifies this, buffer`readerIndex, buffer`writerIndex
      ensures buffer.Valid()
      ensures TurnTaken(turn, StepBody(old(View()), old(buffer.Contents())), old(Cursor(View(), buffer.Contents())),
              Cursor(View(), buffer.Contents()))
      ensures turn.GoOn? || turn.NeedMore? ==> Valid() && active && mode == ChunkedMode
      ensures turn != Ended
    {
      hide ParseU64, SizePart, Find;
      var crlf := buffer.FindCrlf();
      if crlf.None? {
        return NeedMore;
      }
      var size := ParseU64(16, SizePart(buffer.Contents()[..crlf.value]));
      if size.None? {
        return Refuse;
      }
      if size.value > MAX_STREAMING_BODY || decodedBytes > MAX_STREAMING_BODY - size.value {
        return Refuse;
      }
      buffer.Retrieve(crlf.value + 2);
      remaining := size.value;
      chunkState := if size.value == 0 then InTrailers else InData;
      return GoOn;
    }

    method ReadDataCrlf(buffer: Buffer) returns (turn: Turn)
      requires Valid() && active && mode == ChunkedMode && chunkState == AtDataCrlf && buffer.Valid()
      modifies this, buffer`readerIndex, buffer`writerIndex
      ensures buffer.Valid()
      ensures TurnTaken(turn, StepBody(old(View()), old(buffer.Contents())), old(Cursor(View(), buffer.Contents())),
              Cursor(View(), buffer.Contents()))
      ensures turn.GoOn? || turn.NeedMore? ==> Valid() && active && mode == ChunkedMode
      ensures turn != Ended
    {
      if buffer.ReadableBytes() < 2 {
        return NeedMore;
      }
      if buffer.Contents()[0] != CR || buffer.Contents()[1] != LF {
        return Refuse;
      }
      buffer.Retrieve(2);
      chunkState := AtSize;
      return GoOn;
    }

    method ReadTrailerLine(buffer: Buffer) returns (turn: Turn)
      requires Valid() && active && mode == ChunkedMode && chunkState == InTrailers && buffer.Valid()
      modifies this, buffer`readerIndex, buffer`writerIndex
      ensures buffer.Valid()
      ensures TurnTaken(turn, StepBody(old(View()), old(buffer.Contents())), old(Cursor(View(), buffer.Contents())),
              Cursor(View(), buffer.Contents()))
      ensures turn.GoOn? || turn.NeedMore? ==> Valid() && active && mode == ChunkedMode
      ensures turn.Ended? ==> Valid() && !active && completed
    {
      hide Find, ValidTrailerLine;
      var crlf := buffer.FindCrlf();
      if crlf.None? {
        return NeedMore;
      }
      trailerBytes := trailerBytes + crlf.value + 2;
      if trailerBytes > MAX_STREAMING_TRAILERS {
        return Refuse;
      }
      if crlf.value == 0 {
        buffer.Retrieve(2);
        active, mode, completed := false, NoBody, true;
        return Ended;
      }
      if !ValidTrailerLine(buffer.Contents()[..crlf.value]) {
        return Refuse;
      }
      buffer.Retrieve(crlf.value + 2);
      return GoOn;
    }
  }

  datatype Turn = GoOn | NeedMore | Refuse | Ended

  /** The turn is the step `o`, up to the fields of a context that is about to be cancelled. */
  predicate TurnTaken(turn: Turn, o: Outcome<BodyState>, before: Cursor<BodyState>, after: Cursor<BodyState>) {
    match turn
    case NeedMore => o.Wait? && after == before
    case Refuse => o == Halt(Broken, 0)
    case GoOn => o.Advance? && 0 < o.used <= |before.unread| && after == Cursor(o.next, before.unread[o.used..])
    case Ended =>
      && o.Halt? && o.used <= |before.unread| && after == Cursor(o.next, before.unread[o.used..])
      && after.state.Streaming? && after.state.phase == Finished
  }

  lemma Waits(s: BodyState)
    requires s.Streaming? && s.phase == Data
    ensures StepBody(s, []).Wait?
  {
  }

  lemma FinishedIsEnd(c: Cursor<BodyState>)
    requires c.state.Streaming? && c.state.phase == Finished
    ensures Run(BODY, c) == c
  {
  }
}
