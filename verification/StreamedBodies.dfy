/**
 * The other direction of the agreement: which bodies the streaming decoder completes that the buffered
 * parser completes too. The streaming one looks at neither chunk extensions nor the fields of trailers.
 */
module StreamedBodies {
  import opened Bytes
  import opened Incremental
  import opened HttpText
  import opened HttpDecoder
  import opened HttpParsing
  import opened BodyDecoder
  import opened BodyAgreement

  /** Every trailer line is one the buffered parser takes: a header line, and none of the framing fields. */
  predicate StrictTrailers(text: Bytes)
    decreases |text|
  {
    var crlf := Find(text, CRLF);
    crlf.Some? && crlf.value != 0 ==>
      ParseTrailerLine(text[..crlf.value]).Some? && StrictTrailers(text[crlf.value + 2..])
  }

  /** Every size line has well-formed extensions, the chunks have room, and the trailer lines are strict. */
  predicate StrictBody(text: Bytes, room: int)
    decreases |text|
  {
    var crlf := Find(text, CRLF);
    crlf.Some? ==>
      var size := ParseChunkLine(text[..crlf.value]);
      var rest := text[crlf.value + 2..];
      && size.Some? && (size.value != 0 ==> size.value <= room)
      && (size.value == 0 ==> StrictTrailers(rest))
      && (0 < size.value && size.value + 2 <= |rest| ==> StrictBody(rest[size.value + 2..], room - size.value))
  }

  predicate Finishes(c: Cursor<BodyState>) { c.state.Streaming? && c.state.phase == Finished }

  lemma {:induction false} CompletedTrailers(cfg: Config, h: State, text: Bytes)
    requires h.Active? && h.phase == Trailers && !cfg.headOnly && Completed(Run(Decoder(cfg), Cursor(h, text)))
    ensures StrictTrailers(text)
    decreases |text|
  {
    hide Find, StepHttp, ParseTrailerLine;
    TrailerTaken(cfg, h, text);
    var n := Find(text, CRLF).value;
    if n != 0 {
      CompletedTrailers(cfg, StepHttp(cfg, h, text).next, text[n + 2..]);
    }
  }

  /** A size line on the way to a complete message. */
  lemma SizeTaken(cfg: Config, h: State, text: Bytes)
    requires h.Active? && h.phase == ChunkSize && !cfg.headOnly && Completed(Run(Decoder(cfg), Cursor(h, text)))
    ensures Find(text, CRLF).Some?
    ensures var n := Find(text, CRLF).value;
            var size, o := ParseChunkLine(text[..n]), StepHttp(cfg, h, text);
            && size.Some? && o.Advance? && o.used == n + 2
            && (size.value == 0 ==> o.next == h.(chunkSize := 0, phase := Trailers))
            && (size.value != 0 ==>
                  && h.decodedBytes + size.value <= cfg.options.maxBody
                  && o.next == h.(chunkSize := size.value, phase := ChunkData))
  {
    hide ParseChunkLine, Find, StepStartLine, StepHeaders, StepFixedBody, StepChunkData, StepTrailers, Run;
    RunParked(cfg, h, text);
    RunOn(cfg, h, text);
    var o := StepHttp(cfg, h, text);
    if !o.Wait? && o.next.Failed? {
      RunParked(cfg, o.next, text[o.used..]);
    }
  }

  lemma {:induction false} CompletedBody(cfg: Config, h: State, text: Bytes)
    requires h.Active? && h.phase == ChunkSize && !cfg.headOnly && Completed(Run(Decoder(cfg), Cursor(h, text)))
    ensures StrictBody(text, cfg.options.maxBody - h.decodedBytes)
    decreases |text|
  {
    hide Find, StepHttp, ParseChunkLine, StrictTrailers, Run;
    SizeTaken(cfg, h, text);
    RunOn(cfg, h, text);
    var n := Find(text, CRLF).value;
    var t, rest := StepHttp(cfg, h, text).next, text[n + 2..];
    var size := ParseChunkLine(text[..n]).value;
    if size == 0 {
      CompletedTrailers(cfg, t, rest);
    } else {
      ChunkTaken(cfg, t, rest);
      CompletedBody(cfg, StepHttp(cfg, t, rest).next, rest[size + 2..]);
    }
  }

  /** One step of the streaming decoder as part of its run. */
  lemma BodyTurn(s: BodyState, text: Bytes)
    ensures var o := StepBody(s, text);
            Run(BODY, Cursor(s, text)) ==
              if o.Wait? || o.used > |text| then Cursor(s, text)
              else if o.Halt? || o.used == 0 then Cursor(o.next, text[o.used..])
              else Run(BODY, Cursor(o.next, text[o.used..]))
  {
    hide StepBody;
  }

  /** A trailer line that the streaming decoder passes. */
  lemma TrailerPassed(s: BodyState, text: Bytes)
    requires s.Streaming? && s.phase == TrailerLines && Finishes(Run(BODY, Cursor(s, text)))
    ensures Find(text, CRLF).Some?
    ensures var n, o := Find(text, CRLF).value, StepBody(s, text);
            n != 0 ==>
              && o == Advance(s.(trailerBytes := s.trailerBytes + n + 2), n + 2)
              && Run(BODY, Cursor(o.next, text[n + 2..])) == Run(BODY, Cursor(s, text))
  {
    hide Find, ValidTrailerLine, Run;
    BodyTurn(s, text);
  }

  lemma {:induction false} FinishedTrailers(cfg: Config, h: State, s: BodyState, text: Bytes)
    requires h.Active? && h.phase == Trailers && !cfg.headOnly && StrictTrailers(text)
    requires s.Streaming? && s.phase == TrailerLines && Finishes(Run(BODY, Cursor(s, text)))
    ensures Completed(Run(Decoder(cfg), Cursor(h, text)))
    decreases |text|
  {
    hide Find, StepBody, ParseTrailerLine, StepHttp, Run;
    TrailerPassed(s, text);
    TrailerLineRuns(cfg, h, text);
    var n := Find(text, CRLF).value;
    if n != 0 {
      FinishedTrailers(cfg, TrailerNext(h, text), StepBody(s, text).next, text[n + 2..]);
    }
  }

  function TrailerNext(h: State, text: Bytes): State
    requires h.Active? && Find(text, CRLF).Some? && ParseTrailerLine(text[..Find(text, CRLF).value]).Some?
  {
    var field := ParseTrailerLine(text[..Find(text, CRLF).value]).value;
    h.(message := h.message.(trailers := h.message.trailers + [field]))
  }

  lemma TrailerLineRuns(cfg: Config, h: State, text: Bytes)
    requires h.Active? && h.phase == Trailers && !cfg.headOnly && Find(text, CRLF).Some?
    ensures var n := Find(text, CRLF).value;
            && (n == 0 ==> Completed(Run(Decoder(cfg), Cursor(h, text))))
            && (n != 0 && ParseTrailerLine(text[..n]).Some? ==>
                  && TrailerNext(h, text).Active? && TrailerNext(h, text).phase == Trailers
                  && Run(Decoder(cfg), Cursor(h, text))
                     == Run(Decoder(cfg), Cursor(TrailerNext(h, text), text[n + 2..])))
  {
    hide Find, ParseTrailerLine, StepStartLine, StepHeaders, StepFixedBody, StepChunkSize, StepChunkData;
  }

  /** A size line that the streaming decoder passes. */
  lemma SizePassed(s: BodyState, text: Bytes)
    requires s.Streaming? && s.phase == Size && Finishes(Run(BODY, Cursor(s, text)))
    ensures Find(text, CRLF).Some?
    ensures var n := Find(text, CRLF).value;
            var size := ParseU64(16, SizePart(text[..n]));
            && size.Some?
            && Run(BODY, Cursor(s, text)) ==
               Run(BODY, Cursor(s.(remaining := size.value, phase := if size.value == 0 then TrailerLines else Data),
                                text[n + 2..]))
  {
    hide Find, ParseU64, SizePart, Run;
    BodyTurn(s, text);
  }

  /** Chunk data that the streaming decoder passes is all there, with its line end. */
  lemma DataPassed(s: BodyState, text: Bytes)
    requires s.Streaming? && s.phase == Data && s.remaining > 0 && Finishes(Run(BODY, Cursor(s, text)))
    ensures var n := s.remaining;
            && n + 2 <= |text| && text == text[..n] + (CRLF + text[n + 2..])
            && Run(BODY, Cursor(s, text)) ==
               Run(BODY, Cursor(s.(phase := Size, remaining := 0, decoded := s.decoded + n,
                                   delivered := s.delivered + text[..n]), text[n + 2..]))
  {
    hide Run, StepBody, Deliver;
    var n := s.remaining;
    if |text| < n {
      ShortWaits(s, text);
    } else {
      var data, rest := text[..n], text[n..];
      assert text == data + rest;
      DeliverRun(s, data, rest);
      DeliveredIs(s, data);
      LineEndPassed(Deliver(s, data), rest);
      LineEndJoins(text, n);
    }
  }

  lemma ShortWaits(s: BodyState, text: Bytes)
    requires s.Streaming? && s.phase == Data && |text| < s.remaining
    ensures !Finishes(Run(BODY, Cursor(s, text)))
  {
    hide Run, StepBody, Deliver;
    if text == [] {
      StillWaits(s);
    } else {
      var none: Bytes := [];
      assert text + none == text;
      DeliverRun(s, text, none);
      DeliversPart(s, text);
      StillWaits(Deliver(s, text));
    }
  }

  lemma DeliversPart(s: BodyState, data: Bytes)
    requires s.Streaming? && s.phase == Data && |data| < s.remaining
    ensures Deliver(s, data).Streaming? && Deliver(s, data).phase == Data
  {
  }

  lemma LineEndJoins(text: Bytes, n: nat)
    requires n + 2 <= |text| && text[n..][..2] == CRLF
    ensures text == text[..n] + (CRLF + text[n + 2..]) && text[n..][2..] == text[n + 2..]
  {
    assert text[n..] == text[n..][..2] + text[n..][2..];
  }

  lemma DeliveredIs(s: BodyState, data: Bytes)
    requires s.Streaming? && s.phase == Data && s.remaining == |data|
    ensures Deliver(s, data) == s.(phase := DataCrlf, remaining := 0, decoded := s.decoded + |data|,
                                   delivered := s.delivered + data)
  {
  }

  lemma StillWaits(s: BodyState)
    requires s.Streaming? && s.phase == Data
    ensures Run(BODY, Cursor(s, [])) == Cursor(s, [])
  {
  }

  lemma LineEndPassed(s: BodyState, text: Bytes)
    requires s.Streaming? && s.phase == DataCrlf && Finishes(Run(BODY, Cursor(s, text)))
    ensures |text| >= 2 && text[..2] == CRLF
    ensures Run(BODY, Cursor(s, text)) == Run(BODY, Cursor(s.(phase := Size), text[2..]))
  {
    hide Run;
    BodyTurn(s, text);
  }

  lemma {:induction false} FinishedBody(cfg: Config, h: State, s: BodyState, text: Bytes)
    requires h.Active? && h.phase == ChunkSize && !cfg.headOnly && h.decodedBytes <= cfg.options.maxBody
    requires StrictBody(text, cfg.options.maxBody - h.decodedBytes)
    requires s.Streaming? && s.phase == Size && Finishes(Run(BODY, Cursor(s, text)))
    ensures Completed(Run(Decoder(cfg), Cursor(h, text)))
    decreases |text|
  {
    hide Find, ParseChunkLine, ParseU64, SizePart, StrictTrailers, Run, StepHttp, StepBody;
    SizePassed(s, text);
    var n := Find(text, CRLF).value;
    ChunkLineAgrees(text[..n]);
    var size, rest := ParseChunkLine(text[..n]).value, text[n + 2..];
    SizeRuns(cfg, h, text, size);
    if size == 0 {
      FinishedTrailers(cfg, h.(chunkSize := 0, phase := Trailers), s.(remaining := 0, phase := TrailerLines), rest);
    } else {
      var t := s.(remaining := size, phase := Data);
      DataPassed(t, rest);
      var g := h.(chunkSize := size, phase := ChunkData);
      DataRuns(cfg, g, rest);
      FinishedBody(cfg, DataNext(g, rest), t.(phase := Size, remaining := 0, decoded := s.decoded + size,
                   delivered := s.delivered + rest[..size]), rest[size + 2..]);
    }
  }

  lemma SizeRuns(cfg: Config, h: State, text: Bytes, size: nat)
    requires h.Active? && h.phase == ChunkSize && !cfg.headOnly && Find(text, CRLF).Some?
    requires ParseChunkLine(text[..Find(text, CRLF).value]) == Some(size)
    requires size != 0 ==> h.decodedBytes + size <= cfg.options.maxBody
    ensures var t := h.(chunkSize := size, phase := if size == 0 then Trailers else ChunkData);
            Run(Decoder(cfg), Cursor(h, text)) == Run(Decoder(cfg), Cursor(t, text[Find(text, CRLF).value + 2..]))
  {
    hide Find, ParseChunkLine, StepStartLine, StepHeaders, StepFixedBody, StepTrailers, StepChunkData;
  }

  function DataNext(h: State, text: Bytes): State
    requires h.Active? && h.chunkSize <= |text|
  {
    h.(message := h.message.(body := h.message.body + text[..h.chunkSize]),
       decodedBytes := h.decodedBytes + h.chunkSize, phase := ChunkSize)
  }

  lemma DataRuns(cfg: Config, h: State, text: Bytes)
    requires h.Active? && h.phase == ChunkData && !cfg.headOnly && h.chunkSize + 2 <= |text|
    requires text == text[..h.chunkSize] + (CRLF + text[h.chunkSize + 2..])
    ensures Run(Decoder(cfg), Cursor(h, text)) == Run(Decoder(cfg), Cursor(DataNext(h, text), text[h.chunkSize + 2..]))
  {
    hide StepStartLine, StepHeaders, StepFixedBody, StepTrailers, StepChunkSize;
    assert text[h.chunkSize] == CR && text[h.chunkSize + 1] == LF;
  }

  /** A body of known length that arrived completes in both. */
  lemma FixedCompletes(cfg: Config, head: State, text: Bytes)
    requires head.Active? && head.phase in {FixedBody, Complete} && !cfg.headOnly
    requires Finishes(Run(BODY, Cursor(StartBody(head), text)))
    ensures Completed(Run(Decoder(cfg), Cursor(head, text)))
  {
    if head.phase == FixedBody && |text| < head.fixedBodyBytes {
      var none: Bytes := [];
      assert text + none == text;
      DeliverRun(StartBody(head), text, none);
    } else {
      hide StepStartLine, StepHeaders, StepChunkSize, StepTrailers, StepChunkData;
    }
  }

  /** The streaming decoder ends the same whenever the bytes arrive. */
  lemma AllArrived(head: State, unread: Bytes, events: seq<Event>)
    requires head.Active?
    ensures Run(BODY, Drive(BODY, Cursor(StartBody(head), unread), events))
            == Run(BODY, Cursor(StartBody(head), unread + Arrived(events)))
  {
    hide Run, Drive, StepBody, StartBody;
    BodyIsStable();
    ScheduleIndependent(BODY, (s, rest) => true, Cursor(StartBody(head), unread), events);
  }

  /** Only the buffered parser bounds a Content-Length. */
  predicate TooLong(cfg: Config, head: State) {
    head.Active? && head.phase == FixedBody && head.fixedBodyBytes > cfg.options.maxBody
  }

  /** A step of the head parser, and what the buffered parser does there. */
  lemma HeadStepOn(cfg: Config, s: State, b: Bytes)
    requires BeforeBody(s) && !cfg.headOnly
    ensures var whole, head := StepHttp(cfg, s, b), StepHttp(cfg.(headOnly := true), s, b);
            !head.Wait? && head.next.Active? ==>
              if head.next.phase in {StartLine, Headers} then whole == head && head.Advance? && BeforeBody(head.next)
              else
                && head.Halt? && AtBody(head.next)
                && if TooLong(cfg, head.next) then whole == Halt(Failed(BodyTooLarge), head.used)
                   else if head.next.phase == Complete then whole == head
                   else whole == Advance(head.next, head.used)
  {
    hide Find, ParseRequestLine, ParseResponseLine, ParseHeaderLine, Lengths, TransferCodings, Contains;
  }

  /** Where the head parser has found a head, the buffered parser refuses its length or goes on from there. */
  lemma {:induction false} HeadOnward(cfg: Config, s: State, b: Bytes)
    requires BeforeBody(s) && !cfg.headOnly
    requires AtBody(Run(Decoder(cfg.(headOnly := true)), Cursor(s, b)).state)
    ensures var head := Run(Decoder(cfg.(headOnly := true)), Cursor(s, b));
            Run(Decoder(cfg), Cursor(s, b))
            == if TooLong(cfg, head.state) then Cursor(Failed(BodyTooLarge), head.unread) else Run(Decoder(cfg), head)
    decreases |b|
  {
    hide StepHttp, Run;
    var headCfg := cfg.(headOnly := true);
    HeadStepOn(cfg, s, b);
    RunOn(cfg, s, b);
    RunOn(headCfg, s, b);
    RunParked(headCfg, s, b);
    var o := StepHttp(headCfg, s, b);
    StepFits(headCfg, s, b);
    var rest := b[o.used..];
    RunParked(headCfg, o.next, rest);
    if o.Advance? {
      HeadOnward(cfg, o.next, rest);
    } else {
      RunParked(cfg, Failed(BodyTooLarge), rest);
    }
  }

  /**
   * A message whose head was parsed from the first pieces `early` of its bytes, and whose body the
   * streaming decoder completes under any arrivals and pauses, is one the buffered parser completes too,
   * if and only if its Content-Length is within the body bound, and a chunked body has size lines, chunks
   * and trailer lines such as the buffered parser takes.
   */
  lemma BufferedCompletesIff(cfg: Config, early: seq<Bytes>, events: seq<Event>)
    requires !cfg.headOnly
    requires AtBody(RunChunks(Decoder(cfg.(headOnly := true)), Cursor(INITIAL, []), early).state)
    requires var head := RunChunks(Decoder(cfg.(headOnly := true)), Cursor(INITIAL, []), early);
             Finishes(Run(BODY, Drive(BODY, Cursor(StartBody(head.state), head.unread), events)))
    ensures var head := RunChunks(Decoder(cfg.(headOnly := true)), Cursor(INITIAL, []), early);
            Completed(Run(Decoder(cfg), Cursor(INITIAL, Concat(early) + Arrived(events)))) <==>
            && (head.state.phase == FixedBody ==> head.state.fixedBodyBytes <= cfg.options.maxBody)
            && (head.state.phase == ChunkSize ==> StrictBody(head.unread + Arrived(events), cfg.options.maxBody))
  {
    hide Run, RunChunks, StrictBody, Drive, StepHttp, StepBody;
    HeadInPieces(cfg, early);
    HeadEarly(cfg, Concat(early), Arrived(events));
    HeadOnward(cfg, INITIAL, Concat(early) + Arrived(events));
    var head := Run(Decoder(cfg.(headOnly := true)), Cursor(INITIAL, Concat(early)));
    if !TooLong(cfg, head.state) {
      BehindHead(cfg, head, events);
    }
  }

  /** The same from the framing decision on. */
  lemma BehindHead(cfg: Config, head: Cursor<State>, events: seq<Event>)
    requires AtBody(head.state) && !cfg.headOnly
    requires Finishes(Run(BODY, Drive(BODY, Cursor(StartBody(head.state), head.unread), events)))
    ensures var text := head.unread + Arrived(events);
            Completed(Run(Decoder(cfg), Cursor(head.state, text))) <==>
            (head.state.phase == ChunkSize ==> StrictBody(text, cfg.options.maxBody))
  {
    var text := head.unread + Arrived(events);
    hide Run, StrictBody, Drive, StepHttp, StepBody;
    AllArrived(head.state, head.unread, events);
    if head.state.phase == ChunkSize {
      if Completed(Run(Decoder(cfg), Cursor(head.state, text))) {
        CompletedBody(cfg, head.state, text);
      }
      if StrictBody(text, cfg.options.maxBody) {
        FinishedBody(cfg, head.state, StartChunked(), text);
      }
    } else {
      FixedCompletes(cfg, head.state, text);
    }
  }
}
