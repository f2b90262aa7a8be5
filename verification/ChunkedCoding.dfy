/** encode_chunk and the terminator of src/http/http_response_writer.cpp against both decoders. */
module ChunkedCoding {
  import opened Bytes
  import opened Incremental
  import opened HttpText
  import opened HttpDecoder
  import opened HttpParsing
  import opened BodyDecoder
  import opened BodyAgreement

  function HexDigit(v: nat): byte
    requires v < 16
  {
    if v < 10 then '0' as int + v else 'a' as int + (v - 10)
  }

  /** std::to_chars in base 16. */
  function HexDigits(n: nat): (s: Bytes)
    ensures s != []
  {
    if n < 16 then [HexDigit(n)] else HexDigits(n / 16) + [HexDigit(n % 16)]
  }

  function EncodeChunk(data: Bytes): Bytes { HexDigits(|data|) + CRLF + data + CRLF }

  /** What finish() sends behind the last chunk. */
  const TERMINATOR: Bytes := ['0' as int, CR, LF, CR, LF]

  function EncodeChunks(chunks: seq<Bytes>): Bytes {
    if chunks == [] then TERMINATOR else EncodeChunk(chunks[0]) + EncodeChunks(chunks[1..])
  }

  predicate IsHexDigit(c: byte) { IsDigit(c) || 'a' as int <= c <= 'f' as int }

  lemma {:induction false} HexValue(n: nat)
    ensures Numeral(16, HexDigits(n)) == Some(n)
    ensures forall i | 0 <= i < |HexDigits(n)| :: IsHexDigit(HexDigits(n)[i])
  {
    var s := HexDigits(n);
    if n < 16 {
      assert s[..|s| - 1] == [];
    } else {
      HexValue(n / 16);
      assert s[..|s| - 1] == HexDigits(n / 16);
    }
  }

  lemma HexLine(n: nat, rest: Bytes)
    requires n < TWO_64
    ensures ParseChunkLine(HexDigits(n)) == Some(n)
    ensures Find(HexDigits(n) + CRLF + rest, CRLF) == Some(|HexDigits(n)|)
  {
    HexValue(n);
    PlainSize(HexDigits(n));
    LineEnd(HexDigits(n), rest);
  }

  lemma PlainSize(line: Bytes)
    requires line != [] && forall i | 0 <= i < |line| :: IsHexDigit(line[i])
    ensures ParseChunkLine(line) == ParseU64(16, line) && TrimOws(line) == line
  {
    FindFirst(line, [';' as int]);
    var semicolon: Bytes := [';' as int];
    forall j: nat ensures !OccursAt(line, semicolon, j) {
      assert j < |line| ==> IsHexDigit(line[j]) && line[j..j + 1] == [line[j]];
    }
    assert IsHexDigit(line[0]) && IsHexDigit(line[|line| - 1]);
  }

  lemma LineEnd(line: Bytes, rest: Bytes)
    requires forall i | 0 <= i < |line| :: IsHexDigit(line[i])
    ensures Find(line + CRLF + rest, CRLF) == Some(|line|)
  {
    var text := line + CRLF + rest;
    forall j: nat | j < |line| ensures !OccursAt(text, CRLF, j) {
      assert IsHexDigit(line[j]) && text[j] == line[j];
      assert j + 2 <= |text| ==> text[j..j + 2][0] == line[j];
    }
    assert text[|line|..|line| + 2] == CRLF;
    FindIs(text, CRLF, |line|);
  }

  /** The size line and the chunk behind it, taken by the buffered decoder. */
  lemma ChunkDecoded(cfg: Config, h: State, data: Bytes, rest: Bytes)
    requires h.Active? && h.phase == ChunkSize && !cfg.headOnly && cfg.options.maxBody < TWO_64
    requires data != [] && h.decodedBytes + |data| <= cfg.options.maxBody
    ensures Run(Decoder(cfg), Cursor(h, EncodeChunk(data) + rest)) ==
            Run(Decoder(cfg), Cursor(h.(chunkSize := |data|, decodedBytes := h.decodedBytes + |data|,
                                        message := h.message.(body := h.message.body + data)), rest))
  {
    hide StepHttp, HexDigits, Run;
    var line := HexDigits(|data|);
    var inner := data + CRLF + rest;
    assert EncodeChunk(data) + rest == line + CRLF + inner;
    SizeDecoded(cfg, h, data, inner);
    RunOn(cfg, h, line + CRLF + inner);
    assert (line + CRLF + inner)[|line| + 2..] == inner;
    var t := h.(chunkSize := |data|, phase := ChunkData);
    DataDecoded(cfg, t, data, rest);
    RunOn(cfg, t, inner);
    assert inner[|data| + 2..] == rest;
  }

  lemma SizeDecoded(cfg: Config, h: State, data: Bytes, inner: Bytes)
    requires h.Active? && h.phase == ChunkSize && !cfg.headOnly && cfg.options.maxBody < TWO_64
    requires data != [] && h.decodedBytes + |data| <= cfg.options.maxBody
    ensures var line := HexDigits(|data|);
            StepHttp(cfg, h, line + CRLF + inner) == Advance(h.(chunkSize := |data|, phase := ChunkData), |line| + 2)
  {
    hide Find, ParseChunkLine, StepStartLine, StepHeaders, StepFixedBody, StepTrailers, StepChunkData, HexDigits;
    var line := HexDigits(|data|);
    HexLine(|data|, inner);
    assert (line + CRLF + inner)[..|line|] == line;
  }

  lemma DataDecoded(cfg: Config, t: State, data: Bytes, rest: Bytes)
    requires t.Active? && t.phase == ChunkData && t.chunkSize == |data| && !cfg.headOnly
    ensures StepHttp(cfg, t, data + CRLF + rest) ==
            Advance(t.(message := t.message.(body := t.message.body + data), decodedBytes := t.decodedBytes + |data|,
                       phase := ChunkSize), |data| + 2)
  {
    hide StepStartLine, StepHeaders, StepFixedBody, StepTrailers, StepChunkSize;
    var text := data + CRLF + rest;
    assert text[..|data|] == data && text[|data|] == CR && text[|data| + 1] == LF;
  }

  lemma TerminatorDecoded(cfg: Config, h: State, rest: Bytes)
    requires h.Active? && h.phase == ChunkSize && !cfg.headOnly
    ensures Run(Decoder(cfg), Cursor(h, TERMINATOR + rest)) == Cursor(h.(chunkSize := 0, phase := Complete), rest)
    ensures TrailerText(TERMINATOR + rest) == CRLF + rest && TrailerLength(CRLF + rest) == Some(2)
  {
    hide Find, ParseChunkLine, StepStartLine, StepHeaders, StepFixedBody, StepChunkData, HexDigits, ParseTrailerLine,
      Run;
    var zero := ['0' as int];
    var text := zero + CRLF + (CRLF + rest);
    assert TERMINATOR + rest == text;
    assert HexDigits(0) == zero by { ZeroDigit(); }
    HexLine(0, CRLF + rest);
    assert text[..1] == zero && text[3..] == CRLF + rest;
    var t := h.(chunkSize := 0, phase := Trailers);
    RunOn(cfg, h, text);
    assert StepHttp(cfg, h, text) == Advance(t, 3);
    EmptyLineFirst(rest);
    RunOn(cfg, t, CRLF + rest);
    assert (CRLF + rest)[2..] == rest;
    RunParked(cfg, h.(chunkSize := 0, phase := Complete), rest);
  }

  lemma ZeroDigit()
    ensures HexDigits(0) == ['0' as int]
  {
  }

  lemma EmptyLineFirst(rest: Bytes)
    ensures Find(CRLF + rest, CRLF) == Some(0)
  {
    assert (CRLF + rest)[0..2] == CRLF;
    FindIs(CRLF + rest, CRLF, 0);
  }

  lemma ChunkSkipped(data: Bytes, rest: Bytes)
    requires 0 < |data| < TWO_64
    ensures TrailerText(EncodeChunk(data) + rest) == TrailerText(rest)
  {
    hide Find, ParseChunkLine, HexDigits;
    var line := HexDigits(|data|);
    var inner := data + CRLF + rest;
    assert EncodeChunk(data) + rest == line + CRLF + inner;
    HexLine(|data|, inner);
    assert (line + CRLF + inner)[..|line|] == line && (line + CRLF + inner)[|line| + 2..] == inner;
    assert inner[|data| + 2..] == rest;
  }

  /** Any non-empty chunks and the terminator decode to their concatenation; what follows is untouched. */
  lemma {:induction false} BufferedRoundTrip(cfg: Config, h: State, chunks: seq<Bytes>, rest: Bytes)
    requires h.Active? && h.phase == ChunkSize && !cfg.headOnly && cfg.options.maxBody < TWO_64
    requires forall i | 0 <= i < |chunks| :: chunks[i] != []
    requires h.decodedBytes + |Concat(chunks)| <= cfg.options.maxBody
    ensures var end := Run(Decoder(cfg), Cursor(h, EncodeChunks(chunks) + rest));
            && Completed(end) && end.state.message == h.message.(body := h.message.body + Concat(chunks))
               && end.unread == rest
    ensures TrailerText(EncodeChunks(chunks) + rest) == CRLF + rest
    ensures TrailersFit(EncodeChunks(chunks) + rest)
    decreases |chunks|
  {
    hide EncodeChunk, TrailerText, TrailerLength, Run;
    if chunks == [] {
      TerminatorDecoded(cfg, h, rest);
      assert h.message.body + [] == h.message.body;
    } else {
      var data, more := chunks[0], EncodeChunks(chunks[1..]) + rest;
      assert EncodeChunks(chunks) + rest == EncodeChunk(data) + more;
      ChunkDecoded(cfg, h, data, more);
      ChunkSkipped(data, more);
      var t := h.(chunkSize := |data|, decodedBytes := h.decodedBytes + |data|,
        message := h.message.(body := h.message.body + data));
      BufferedRoundTrip(cfg, t, chunks[1..], rest);
      assert h.message.body + Concat(chunks) == t.message.body + Concat(chunks[1..]);
      TerminatorDecoded(cfg, h, rest);
    }
  }

  /** The same for the streaming decoder, under any arrivals, pauses and resumptions. */
  lemma StreamingRoundTrip(chunks: seq<Bytes>, rest: Bytes, events: seq<Event>)
    requires forall i | 0 <= i < |chunks| :: chunks[i] != []
    requires |Concat(chunks)| <= MAX_STREAMING_BODY
    requires Arrived(events) == EncodeChunks(chunks) + rest
    ensures EndsWith(Run(BODY, Drive(BODY, Cursor(StartChunked(), []), events)), Concat(chunks), rest)
  {
    hide EncodeChunks, TrailersFit, Run, Drive;
    var text := EncodeChunks(chunks) + rest;
    var cfg := Config(RequestMode, Options(0, 0, MAX_STREAMING_BODY), false);
    var h := Active(ChunkSize, NO_MESSAGE, 0, 0, 0, 0);
    BufferedRoundTrip(cfg, h, chunks, rest);
    assert [] + Concat(chunks) == Concat(chunks);
    ChunksAgree(cfg, h, StartChunked(), text);
    BodyIsStable();
    assert [] + text == text;
    ScheduleIndependent(BODY, (s, unread) => true, Cursor(StartChunked(), []), events);
  }
}
