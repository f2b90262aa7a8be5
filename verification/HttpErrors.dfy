/** Which error each fault of a message leads to, in the buffered parser and in the streaming body decoder. */
module HttpErrors {
  import opened Bytes
  import opened Incremental
  import opened HttpText
  import opened HttpDecoder
  import opened HttpParsing
  import opened HttpSplitting
  import opened BodyDecoder

  /** A step that refuses is the end of the run. */
  lemma Refuses(cfg: Config, s: State, text: Bytes)
    requires var o := StepHttp(cfg, s, text); !o.Wait? && o.next.Failed?
    ensures var o := StepHttp(cfg, s, text);
            o.used <= |text| && Run(Decoder(cfg), Cursor(s, text)) == Cursor(o.next, text[o.used..])
  {
    hide StepHttp, Run;
    RunOn(cfg, s, text);
    var o := StepHttp(cfg, s, text);
    RunParked(cfg, o.next, text[o.used..]);
  }

  /**
   * The start line is refused exactly when it is longer than its bound, also before its end has arrived,
   * or is not a start line.
   */
  lemma StartLineRefusedIff(cfg: Config, text: Bytes)
    ensures Run(Decoder(cfg), Cursor(INITIAL, text)).state == Failed(BadStartLine) <==>
            var end := Find(text, [13, 10]);
            if end.None? then |text| > cfg.options.maxStartLine
            else end.value > cfg.options.maxStartLine || ParseStartLine(cfg.mode, text[..end.value]).None?
  {
    hide Find, ParseRequestLine, ParseResponseLine, Run;
    assert CRLF == [13, 10];
    var o := StepHttp(cfg, INITIAL, text);
    RunOn(cfg, INITIAL, text);
    if o.Advance? {
      NoLateStartLineError(cfg, Cursor(o.next, text[o.used..]));
    } else if o.Halt? {
      Refuses(cfg, INITIAL, text);
    } else {
      RunParked(cfg, INITIAL, text);
    }
  }

  /** A header section over its bound is too large, also before the line has ended; a bad line is a bad header. */
  lemma HeaderRefused(cfg: Config, s: State, text: Bytes)
    requires s.Active? && s.phase == Headers
    ensures var end := Find(text, [13, 10]);
            var run := Run(Decoder(cfg), Cursor(s, text));
            var size := s.headerBytes + if end.None? then |text| else end.value + 2;
            && (size > cfg.options.maxHeaders ==> run == Cursor(Failed(HeaderTooLarge), text))
            && (size <= cfg.options.maxHeaders && end.None? ==> run == Cursor(s, text))
            && (size <= cfg.options.maxHeaders && end.Some? && end.value > 0 ==>
                  ParseHeaderLine(text[..end.value]).None? ==> run == Cursor(Failed(BadHeader), text))
  {
    hide Find, ParseHeaderLine, FinishHeaders, Run;
    assert CRLF == [13, 10];
    var o := StepHttp(cfg, s, text);
    if o.Wait? {
      RunParked(cfg, s, text);
    } else if o.next.Failed? {
      Refuses(cfg, s, text);
    }
  }

  /** A chunk: a bad size line, a body over its bound, data without its line end, a bad trailer. */
  lemma ChunkRefused(cfg: Config, s: State, text: Bytes)
    requires s.Active? && !cfg.headOnly && s.decodedBytes <= cfg.options.maxBody
    ensures var end := Find(text, [13, 10]);
            var run := Run(Decoder(cfg), Cursor(s, text));
            && (s.phase == ChunkSize && end.Some? && ParseChunkLine(text[..end.value]).None? ==>
                  run == Cursor(Failed(BadMessageFraming), text))
            && (s.phase == ChunkSize && end.Some? && ParseChunkLine(text[..end.value]).Some? ==>
                  s.decodedBytes + ParseChunkLine(text[..end.value]).value > cfg.options.maxBody ==>
                    run == Cursor(Failed(BodyTooLarge), text[end.value + 2..]))
            && (s.phase == ChunkData && |text| >= s.chunkSize + 2 ==>
                  text[s.chunkSize..s.chunkSize + 2] != [13, 10] ==> run == Cursor(Failed(BadMessageFraming), text))
            && (s.phase == Trailers && end.Some? && end.value > 0 && ParseTrailerLine(text[..end.value]).None? ==>
                  run == Cursor(Failed(BadHeader), text))
  {
    hide Find, ParseChunkLine, ParseTrailerLine, StepStartLine, StepHeaders, StepFixedBody, Run;
    assert CRLF == [13, 10];
    var o := StepHttp(cfg, s, text);
    if !o.Wait? && o.next.Failed? {
      Refuses(cfg, s, text);
    }
    if s.phase == ChunkData && |text| >= s.chunkSize + 2 {
      assert text[s.chunkSize..s.chunkSize + 2] == [text[s.chunkSize], text[s.chunkSize + 1]];
    }
  }

  lemma Breaks(s: BodyState, text: Bytes)
    requires StepBody(s, text) == Halt(Broken, 0)
    ensures Run(BODY, Cursor(s, text)).state == Broken
  {
    hide StepBody;
  }

  /**
   * The streaming decoder breaks exactly at a size that is no number, or with which the body is over 8 MiB,
   * at data without its line end, at a trailer section over 64 KiB and at a line of it that is not one.
   */
  lemma StreamingBreaks(s: BodyState, text: Bytes)
    requires s.Streaming? && s.decoded <= 8388608
    ensures var end := Find(text, [13, 10]);
            var size := if end.Some? then ParseU64(16, SizePart(text[..end.value])) else None;
            StepBody(s, text) == Halt(Broken, 0) <==>
              || (s.phase == Size && end.Some? && (size.None? || s.decoded + size.value > 8388608))
              || (s.phase == DataCrlf && |text| >= 2 && text[..2] != [13, 10])
              || (s.phase == TrailerLines && end.Some?
                  && (s.trailerBytes + end.value + 2 > 65536
                      || (end.value > 0 && !ValidTrailerLine(text[..end.value]))))
  {
    hide Find, ParseU64, ValidTrailerLine, SizePart;
    assert CRLF == [13, 10];
    if |text| >= 2 {
      assert text[..2] == [text[0], text[1]];
    }
  }
}
