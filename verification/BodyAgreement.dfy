/** The streaming body path against the buffered path, framing decision included. */
module BodyAgreement {
  import opened Bytes
  import opened Incremental
  import opened HttpText
  import opened HttpDecoder
  import opened HttpSplitting
  import opened HttpParsing
  import opened BodyDecoder

  /** Bytes up to and including the empty line that ends a trailer section; None if it has no end yet. */
  function TrailerLength(text: Bytes): Option<nat>
    decreases |text|
  {
    var crlf := Find(text, CRLF);
    if crlf.None? then None
    else if crlf.value == 0 then Some(2)
    else
      var rest := TrailerLength(text[crlf.value + 2..]);
      if rest.None? then None else Some(crlf.value + 2 + rest.value)
  }

  /** The text behind the last chunk of a chunked body, where its trailer section starts. */
  function TrailerText(text: Bytes): Bytes
    decreases |text|
  {
    var crlf := Find(text, CRLF);
    if crlf.None? then []
    else
      var size := ParseChunkLine(text[..crlf.value]);
      var rest := text[crlf.value + 2..];
      if size.None? then []
      else if size.value == 0 then rest
      else if size.value + 2 <= |rest| then TrailerText(rest[size.value + 2..])
      else []
  }

  /** What the caller can check of a chunked body before streaming it. */
  predicate TrailersFit(text: Bytes) {
    TrailerLength(TrailerText(text)).Some? ==> TrailerLength(TrailerText(text)).value <= MAX_STREAMING_TRAILERS
  }

  predicate Completed(c: Cursor<State>) { c.state.Active? && c.state.phase == Complete }

  /** The streaming decoder ends having delivered `body` with `unread` left over. */
  predicate EndsWith(c: Cursor<BodyState>, body: Bytes, unread: Bytes) {
    c.state.Streaming? && c.state.phase == Finished && c.state.delivered == body && c.unread == unread
  }

  lemma TrailerLineAgrees(line: Bytes)
    ensures ParseTrailerLine(line).Some? ==> ValidTrailerLine(line)
  {
  }

  /** A trailer line on the way to a complete message. */
  lemma TrailerTaken(cfg: Config, h: State, text: Bytes)
    requires h.Active? && h.phase == Trailers && !cfg.headOnly
    requires Completed(Run(Decoder(cfg), Cursor(h, text)))
    ensures var crlf, o := Find(text, CRLF), StepHttp(cfg, h, text);
            && crlf.Some?
            && (crlf.value == 0 ==> o == Halt(h.(phase := Complete), 2))
            && (crlf.value != 0 ==>
                  && o.Advance? && o.used == crlf.value + 2 && ParseTrailerLine(text[..crlf.value]).Some?
                  && o.next.Active? && o.next.phase == Trailers && o.next.message.body == h.message.body)
  {
    hide ParseTrailerLine, Find, StepStartLine, StepHeaders, StepFixedBody, StepChunkSize, StepChunkData, Run;
    RunParked(cfg, h, text);
    RunOn(cfg, h, text);
    var o := StepHttp(cfg, h, text);
    if !o.Wait? && o.next.Failed? {
      RunParked(cfg, o.next, text[o.used..]);
    }
  }

  lemma TrailerSeen(s: BodyState, text: Bytes)
    requires s.Streaming? && s.phase == TrailerLines && Find(text, CRLF).Some?
    requires Find(text, CRLF).value != 0 ==> ParseTrailerLine(text[..Find(text, CRLF).value]).Some?
    ensures var n := Find(text, CRLF).value;
            var t := s.(trailerBytes := s.trailerBytes + n + 2);
            StepBody(s, text) == (if t.trailerBytes > MAX_STREAMING_TRAILERS then Halt(Broken, 0)
                                  else if n == 0 then Halt(t.(phase := Finished), 2)
                                  else Advance(t, n + 2))
  {
    hide ParseTrailerLine, ValidTrailerLine, Find;
    TrailerLineAgrees(text[..Find(text, CRLF).value]);
  }

  lemma {:induction false} TrailersAgree(cfg: Config, h: State, s: BodyState, text: Bytes)
    requires h.Active? && h.phase == Trailers && !cfg.headOnly
    requires s.Streaming? && s.phase == TrailerLines
    requires Completed(Run(Decoder(cfg), Cursor(h, text)))
    ensures var end := Run(Decoder(cfg), Cursor(h, text));
            && end.state.message.body == h.message.body
            && TrailerLength(text).Some?
            && (s.trailerBytes + TrailerLength(text).value <= MAX_STREAMING_TRAILERS ==>
                  EndsWith(Run(BODY, Cursor(s, text)), s.delivered, end.unread))
            && (s.trailerBytes + TrailerLength(text).value > MAX_STREAMING_TRAILERS ==>
                  Run(BODY, Cursor(s, text)).state.Broken?)
    decreases |text|
  {
    hide Find, StepHttp, StepBody, Run;
    TrailerTaken(cfg, h, text);
    TrailerSeen(s, text);
    RunTurn(Decoder(cfg), h, text);
    RunTurn(BODY, s, text);
    var n := Find(text, CRLF).value;
    if n != 0 {
      var t := s.(trailerBytes := s.trailerBytes + n + 2);
      TrailersAgree(cfg, StepHttp(cfg, h, text).next, t, text[n + 2..]);
    }
  }

  lemma ChunkLineAgrees(line: Bytes)
    ensures ParseChunkLine(line).Some? ==> ParseU64(16, SizePart(line)) == ParseChunkLine(line)
  {
  }

  /** One chunk: data, its line end, and back to the next size line. */
  lemma ChunkDelivered(s: BodyState, data: Bytes, rest: Bytes)
    requires s.Streaming? && s.phase == Data && s.remaining == |data| > 0
    ensures Run(BODY, Cursor(s, data + (CRLF + rest))) ==
            Run(BODY, Cursor(s.(phase := Size, remaining := 0, decoded := s.decoded + |data|,
              delivered := s.delivered + data), rest))
  {
    hide StepSize, StepTrailerLine;
    DeliverRun(s, data, CRLF + rest);
    var t := Deliver(s, data);
    assert (CRLF + rest)[2..] == rest;
    assert StepBody(t, CRLF + rest) == Advance(t.(phase := Size), 2);
  }

  lemma {:induction false} ChunksAgree(cfg: Config, h: State, s: BodyState, text: Bytes)
    requires h.Active? && h.phase == ChunkSize && !cfg.headOnly && cfg.options.maxBody <= MAX_STREAMING_BODY
    requires s.Streaming? && s.phase == Size && s.trailerBytes == 0
    requires h.decodedBytes == s.decoded <= cfg.options.maxBody && h.message.body == s.delivered
    requires Completed(Run(Decoder(cfg), Cursor(h, text)))
    ensures var end := Run(Decoder(cfg), Cursor(h, text));
            && TrailerLength(TrailerText(text)).Some?
            && (TrailersFit(text) ==> EndsWith(Run(BODY, Cursor(s, text)), end.state.message.body, end.unread))
            && (!TrailersFit(text) ==> Run(BODY, Cursor(s, text)).state.Broken?)
    decreases |text|
  {
    hide ParseChunkLine, ParseU64, SizePart, Find, TrailerLength, StepStartLine, StepHeaders, StepFixedBody,
      StepChunkData, StepTrailers, StepTrailerLine;
    var crlf := Find(text, CRLF);
    if crlf.Some? {
      var line, rest := text[..crlf.value], text[crlf.value + 2..];
      ChunkLineAgrees(line);
      var o := StepHttp(cfg, h, text);
      assert o.Advance? && ParseChunkLine(line).Some?;
      var size := ParseChunkLine(line).value;
      assert size <= cfg.options.maxBody - h.decodedBytes || size == 0;
      var t := s.(remaining := size, phase := if size == 0 then TrailerLines else Data);
      assert StepBody(s, text) == Advance(t, crlf.value + 2);
      if size == 0 {
        TrailersAgree(cfg, o.next, t, rest);
      } else {
        OneChunkAgrees(cfg, o.next, t, rest);
      }
    }
  }

  lemma {:induction false} OneChunkAgrees(cfg: Config, h: State, s: BodyState, text: Bytes)
    requires h.Active? && h.phase == ChunkData && !cfg.headOnly && cfg.options.maxBody <= MAX_STREAMING_BODY
    requires s.Streaming? && s.phase == Data && s.trailerBytes == 0 && s.remaining == h.chunkSize > 0
    requires h.decodedBytes == s.decoded && h.message.body == s.delivered
    requires h.decodedBytes + h.chunkSize <= cfg.options.maxBody
    requires Completed(Run(Decoder(cfg), Cursor(h, text)))
    ensures var end := Run(Decoder(cfg), Cursor(h, text));
            var n := h.chunkSize + 2;
            && n <= |text|
            && TrailerLength(TrailerText(text[n..])).Some?
            && (TrailersFit(text[n..]) ==> EndsWith(Run(BODY, Cursor(s, text)), end.state.message.body, end.unread))
            && (!TrailersFit(text[n..]) ==> Run(BODY, Cursor(s, text)).state.Broken?)
    decreases |text|
  {
    hide TrailersFit, TrailerText, TrailerLength, Run, StepHttp, StepBody;
    var n := h.chunkSize;
    ChunkTaken(cfg, h, text);
    var data, rest := text[..n], text[n + 2..];
    ChunkDelivered(s, data, rest);
    var t := s.(phase := Size, remaining := 0, decoded := s.decoded + n, delivered := s.delivered + data);
    ChunksAgree(cfg, StepHttp(cfg, h, text).next, t, rest);
  }

  lemma ChunkTaken(cfg: Config, h: State, text: Bytes)
    requires h.Active? && h.phase == ChunkData && !cfg.headOnly
    requires Completed(Run(Decoder(cfg), Cursor(h, text)))
    ensures var n, o := h.chunkSize, StepHttp(cfg, h, text);
            && n + 2 <= |text| && text == text[..n] + (CRLF + text[n + 2..])
            && !o.Wait?
            && o.next == h.(message := h.message.(body := h.message.body + text[..n]),
               decodedBytes := h.decodedBytes + n, phase := ChunkSize)
            && Run(Decoder(cfg), Cursor(h, text)) == Run(Decoder(cfg), Cursor(o.next, text[n + 2..]))
  {
    hide StepStartLine, StepHeaders, StepFixedBody, StepChunkSize, StepTrailers;
    assert StepHttp(cfg, h, text) == StepChunkData(h, text);
    RunOn(cfg, h, text);
    RunParked(cfg, h, text);
    if |text| >= h.chunkSize + 2 {
      assert text[h.chunkSize..h.chunkSize + 2] == [text[h.chunkSize], text[h.chunkSize + 1]];
    }
  }

  lemma FixedAgrees(length: nat, text: Bytes)
    requires length <= |text|
    ensures EndsWith(Run(BODY, Cursor(StartFixed(length), text)), text[..length], text[length..])
  {
    var s := StartFixed(length);
    if length > 0 {
      assert text == text[..length] + text[length..];
      DeliverRun(s, text[..length], text[length..]);
    }
  }

  /** The decoder the server starts for a parsed head. */
  function StartBody(head: State): BodyState
    requires head.Active?
  {
    match head.phase
    case FixedBody => StartFixed(head.fixedBodyBytes)
    case ChunkSize => StartChunked()
    case _ => StartFixed(0)
  }

  /** A parser that has just left the header section: nothing of the body read. */
  predicate AtBody(s: State) {
    && s.Active? && s.phase in {FixedBody, ChunkSize, Complete}
    && s.decodedBytes == 0 && s.message.body == []
  }

  predicate BeforeBody(s: State) {
    s.Active? && s.phase in {StartLine, Headers} && s.decodedBytes == 0 && s.message.body == []
  }

  lemma HeadStep(cfg: Config, s: State, b: Bytes)
    requires BeforeBody(s) && !cfg.headOnly
    ensures var whole, head := StepHttp(cfg, s, b), StepHttp(cfg.(headOnly := true), s, b);
            && (whole.Wait? ==> head.Wait?)
            && (!whole.Wait? && (whole.next.Active? || whole.next != Failed(BodyTooLarge)) ==>
                  !head.Wait? && whole.next == head.next && whole.used == head.used)
            && (!whole.Wait? && whole.next.Active? ==>
                  if whole.next.phase in {StartLine, Headers} then whole.Advance? && head.Advance?
                    && BeforeBody(whole.next)
                  else head.Halt? && AtBody(whole.next) && (whole.Halt? <==> whole.next.phase == Complete))
  {
    hide Find, ParseRequestLine, ParseResponseLine, ParseHeaderLine, Lengths, TransferCodings, Contains;
  }

  /** Parsing the head first and then the body is parsing the message. */
  lemma {:induction false} HeadFirst(cfg: Config, s: State, b: Bytes)
    requires BeforeBody(s) && !cfg.headOnly
    requires Completed(Run(Decoder(cfg), Cursor(s, b)))
    ensures var head := Run(Decoder(cfg.(headOnly := true)), Cursor(s, b));
            AtBody(head.state) && Run(Decoder(cfg), head) == Run(Decoder(cfg), Cursor(s, b))
    decreases |b|
  {
    hide StepHttp;
    var o := StepHttp(cfg, s, b);
    HeadStep(cfg, s, b);
    StepFits(cfg, s, b);
    if !o.Wait? && o.next.Active? {
      if o.next.phase in {StartLine, Headers} {
        HeadFirst(cfg, o.next, b[o.used..]);
      } else if o.Halt? {
        RunParked(cfg, o.next, b[o.used..]);
      }
    }
  }

  /** Started from the parser's own framing decision, the streaming decoder agrees with the buffered one. */
  lemma BodyAgrees(cfg: Config, head: Cursor<State>)
    requires AtBody(head.state) && !cfg.headOnly && cfg.options.maxBody <= MAX_STREAMING_BODY
    requires Completed(Run(Decoder(cfg), head))
    ensures var end := Run(Decoder(cfg), head);
            var streamed := Run(BODY, Cursor(StartBody(head.state), head.unread));
            && (head.state.phase != ChunkSize || TrailersFit(head.unread) ==>
                  EndsWith(streamed, end.state.message.body, end.unread))
            && (head.state.phase == ChunkSize && !TrailersFit(head.unread) ==> streamed.state.Broken?)
  {
    match head.state.phase
    case ChunkSize =>
      ChunksAgree(cfg, head.state, StartChunked(), head.unread);
    case FixedBody =>
      FixedAgrees(head.state.fixedBodyBytes, head.unread);
    case Complete =>
      FixedAgrees(0, head.unread);
      assert head.unread[..0] == [] && head.unread[0..] == head.unread;
  }

  /** A head that arrived in pieces. */
  lemma HeadInPieces(cfg: Config, early: seq<Bytes>)
    requires AtBody(RunChunks(Decoder(cfg.(headOnly := true)), Cursor(INITIAL, []), early).state)
    ensures var head := Decoder(cfg.(headOnly := true));
            RunChunks(head, Cursor(INITIAL, []), early) == Run(head, Cursor(INITIAL, Concat(early)))
  {
    CutOrRefused(cfg.(headOnly := true), Concat(early), early);
  }

  /**
   * A message that the buffered parser completes: the head parsed from the first pieces `early` of
   * the bytes, as they arrive, then the streaming decoder under any arrivals, pauses and resumptions,
   * delivers the same body and leaves the same bytes, if and only if a chunked body's trailers fit
   * in 64 KiB.
   */
  lemma StreamingAgreesIff(cfg: Config, early: seq<Bytes>, events: seq<Event>)
    requires !cfg.headOnly && cfg.options.maxBody <= MAX_STREAMING_BODY
    requires Completed(Run(Decoder(cfg), Cursor(INITIAL, Concat(early) + Arrived(events))))
    requires AtBody(RunChunks(Decoder(cfg.(headOnly := true)), Cursor(INITIAL, []), early).state)
    ensures var end := Run(Decoder(cfg), Cursor(INITIAL, Concat(early) + Arrived(events)));
            var head := RunChunks(Decoder(cfg.(headOnly := true)), Cursor(INITIAL, []), early);
            var streamed := Run(BODY, Drive(BODY, Cursor(StartBody(head.state), head.unread), events));
            EndsWith(streamed, end.state.message.body, end.unread) <==>
            (head.state.phase != ChunkSize || TrailersFit(head.unread + Arrived(events)))
  {
    HeadInPieces(cfg, early);
    StreamingBehindHead(cfg, Concat(early), events);
  }

  /** The same behind a head that was parsed from one piece. */
  lemma StreamingBehindHead(cfg: Config, early: Bytes, events: seq<Event>)
    requires !cfg.headOnly && cfg.options.maxBody <= MAX_STREAMING_BODY
    requires Completed(Run(Decoder(cfg), Cursor(INITIAL, early + Arrived(events))))
    requires AtBody(Run(Decoder(cfg.(headOnly := true)), Cursor(INITIAL, early)).state)
    ensures var end := Run(Decoder(cfg), Cursor(INITIAL, early + Arrived(events)));
            var head := Run(Decoder(cfg.(headOnly := true)), Cursor(INITIAL, early));
            var streamed := Run(BODY, Drive(BODY, Cursor(StartBody(head.state), head.unread), events));
            EndsWith(streamed, end.state.message.body, end.unread) <==>
            (head.state.phase != ChunkSize || TrailersFit(head.unread + Arrived(events)))
  {
    var text := early + Arrived(events);
    var headCfg := cfg.(headOnly := true);
    var head := Run(Decoder(headCfg), Cursor(INITIAL, early));
    HeadEarly(cfg, early, Arrived(events));
    HeadFirst(cfg, INITIAL, text);
    var full := Cursor(head.state, head.unread + Arrived(events));
    BodyAgrees(cfg, full);
    BodyIsStable();
    ScheduleIndependent(BODY, (s, rest) => true, Cursor(StartBody(head.state), head.unread), events);
  }

  /** A head found in a first part of the text is the head of the text. */
  lemma HeadEarly(cfg: Config, early: Bytes, later: Bytes)
    requires AtBody(Run(Decoder(cfg.(headOnly := true)), Cursor(INITIAL, early)).state)
    ensures var head := Run(Decoder(cfg.(headOnly := true)), Cursor(INITIAL, early));
            Run(Decoder(cfg.(headOnly := true)), Cursor(INITIAL, early + later))
              == Cursor(head.state, head.unread + later)
  {
    var headCfg := cfg.(headOnly := true);
    hide Run, StepHttp;
    if StartLineAtBound(headCfg, early + later) {
      AtBoundWider(headCfg, early + later);
      WiderRun(headCfg, Cursor(INITIAL, early));
      HeadStable(Wider(headCfg), early, later);
    } else {
      HeadStable(headCfg, early, later);
    }
  }

  lemma HeadStable(cfg: Config, early: Bytes, later: Bytes)
    requires cfg.headOnly && !StartLineAtBound(cfg, early + later)
    requires AtBody(Run(Decoder(cfg), Cursor(INITIAL, early)).state)
    ensures var head := Run(Decoder(cfg), Cursor(INITIAL, early));
            Run(Decoder(cfg), Cursor(INITIAL, early + later)) == Cursor(head.state, head.unread + later)
  {
    var head := Run(Decoder(cfg), Cursor(INITIAL, early));
    hide Run, StepHttp;
    DecoderStable(cfg);
    RunThenFeed(Decoder(cfg), (s, text) => NotAtBound(cfg, s, text), Cursor(INITIAL, early), later);
    RunParked(cfg, head.state, head.unread + later);
  }
}
