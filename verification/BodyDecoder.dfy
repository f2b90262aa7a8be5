/**
 * The streaming body decoder of src/http/http_context.cpp as a step function that delivers one
 * byte at a time; the code delivers as many as are there.
 */
module BodyDecoder {
  import opened Bytes
  import opened Incremental
  import opened HttpText

  const MAX_STREAMING_TRAILERS: nat := 64 * 1024
  const MAX_STREAMING_BODY: nat := 8 * 1024 * 1024

  datatype BodyPhase = FixedLength | Size | Data | DataCrlf | TrailerLines | Finished

  datatype BodyState =
    | Broken
    | Streaming(phase: BodyPhase, remaining: nat, decoded: nat, trailerBytes: nat, delivered: Bytes)

  /** valid_trailer_line. */
  predicate ValidTrailerLine(line: Bytes) {
    var colon := IndexOf(line, ':' as int);
    !(line != [] && IsOws(line[0])) && colon.Some? && colon.value != 0
  }

  /** The size part of a chunk line; extensions are not looked at. */
  function SizePart(line: Bytes): Bytes {
    var semicolon := IndexOf(line, ';' as int);
    if semicolon.None? then line else line[..semicolon.value]
  }

  /** The state after `n` bytes of the current body or chunk have been delivered. */
  function Deliver(s: BodyState, data: Bytes): BodyState
    requires s.Streaming? && |data| <= s.remaining
  {
    var left := s.remaining - |data|;
    if s.phase == Data then
      s.(delivered := s.delivered + data, remaining := left, decoded := s.decoded + |data|,
         phase := if left == 0 then DataCrlf else Data)
    else s.(delivered := s.delivered + data, remaining := left)
  }

  function StepSize(s: BodyState, b: Bytes): Outcome<BodyState>
    requires s.Streaming?
  {
    var crlf := Find(b, CRLF);
    if crlf.None? then Wait
    else
      var size := ParseU64(16, SizePart(b[..crlf.value]));
      if size.None? || size.value > MAX_STREAMING_BODY || s.decoded > MAX_STREAMING_BODY - size.value
        then Halt(Broken, 0)
      else Advance(s.(remaining := size.value, phase := if size.value == 0 then TrailerLines else Data), crlf.value + 2)
  }

  function StepTrailerLine(s: BodyState, b: Bytes): Outcome<BodyState>
    requires s.Streaming?
  {
    var crlf := Find(b, CRLF);
    if crlf.None? then Wait
    else
      var t := s.(trailerBytes := s.trailerBytes + crlf.value + 2);
      if t.trailerBytes > MAX_STREAMING_TRAILERS then Halt(Broken, 0)
      else if crlf.value == 0 then Halt(t.(phase := Finished), 2)
      else if !ValidTrailerLine(b[..crlf.value]) then Halt(Broken, 0)
      else Advance(t, crlf.value + 2)
  }

  function StepBody(s: BodyState, b: Bytes): Outcome<BodyState> {
    if s.Broken? then Wait
    else match s.phase
      case FixedLength =>
        if s.remaining == 0 then Halt(s.(phase := Finished), 0)
        else if b == [] then Wait
        else Advance(Deliver(s, b[..1]), 1)
      case Size => StepSize(s, b)
      case Data => if b == [] || s.remaining == 0 then Wait else Advance(Deliver(s, b[..1]), 1)
      case DataCrlf =>
        if |b| < 2 then Wait
        else if b[0] != CR || b[1] != LF then Halt(Broken, 0)
        else Advance(s.(phase := Size), 2)
      case TrailerLines => StepTrailerLine(s, b)
      case Finished => Wait
  }

  const BODY: Step<BodyState> := (s, b) => StepBody(s, b)

  /** start_streaming_body and start_streaming_chunked_body. */
  function StartFixed(length: nat): BodyState { Streaming(FixedLength, length, 0, 0, []) }
  function StartChunked(): BodyState { Streaming(Size, 0, 0, 0, []) }

  lemma StepBodyStable(s: BodyState, b: Bytes, e: Bytes)
    ensures StableAt(BODY, s, b, e)
  {
    hide Find, ParseU64, ValidTrailerLine, SizePart;
    if s.Streaming? {
      if (s.phase == Size || s.phase == TrailerLines) && Find(b, CRLF).Some? {
        FindStable(b, e, CRLF);
        assert (b + e)[..Find(b, CRLF).value] == b[..Find(b, CRLF).value];
      }
      if b != [] {
        assert (b + e)[..1] == b[..1];
      }
    }
  }

  lemma BodyIsStable()
    ensures Stable(BODY, (s, text) => true)
  {
    forall s, b, e ensures StableAt(BODY, s, b, e) {
      StepBodyStable(s, b, e);
    }
  }

  lemma DeliverTwice(s: BodyState, a: Bytes, b: Bytes)
    requires s.Streaming? && (s.phase == FixedLength || s.phase == Data)
    requires b != [] && |a| + |b| <= s.remaining
    ensures Deliver(Deliver(s, a), b) == Deliver(s, a + b)
  {
    assert s.delivered + (a + b) == (s.delivered + a) + b;
  }

  lemma DeliverOne(s: BodyState, c: byte, rest: Bytes)
    requires s.Streaming? && (s.phase == FixedLength || s.phase == Data) && s.remaining > 0
    ensures Run(BODY, Cursor(s, [c] + rest)) == Run(BODY, Cursor(Deliver(s, [c]), rest))
  {
    hide StepSize, StepTrailerLine;
    assert ([c] + rest)[..1] == [c] && ([c] + rest)[1..] == rest;
  }

  /** Delivering a stretch at once is delivering its bytes one by one. */
  lemma {:induction false} DeliverRun(s: BodyState, data: Bytes, rest: Bytes)
    requires s.Streaming? && (s.phase == FixedLength || s.phase == Data)
    requires data != [] && |data| <= s.remaining
    ensures Run(BODY, Cursor(s, data + rest)) == Run(BODY, Cursor(Deliver(s, data), rest))
    decreases |data|
  {
    hide StepBody, Run;
    assert data == [data[0]] + data[1..];
    assert data + rest == [data[0]] + (data[1..] + rest);
    DeliverOne(s, data[0], data[1..] + rest);
    if |data| == 1 {
      assert data[1..] + rest == rest && data == [data[0]];
    } else {
      DeliverTwice(s, [data[0]], data[1..]);
      DeliverRun(Deliver(s, [data[0]]), data[1..], rest);
    }
  }
}
