/** HttpParser::parse does not care how its input is cut, with one exact exception. */
module HttpSplitting {
  import opened Bytes
  import opened Incremental
  import opened HttpText
  import opened HttpDecoder

  lemma LineStable(b: Bytes, e: Bytes)
    requires Find(b, CRLF).Some?
    ensures Find(b + e, CRLF) == Find(b, CRLF)
    ensures (b + e)[..Find(b, CRLF).value] == b[..Find(b, CRLF).value]
  {
    FindStable(b, e, CRLF);
  }

  lemma StartLineStable(cfg: Config, s: State, b: Bytes, e: Bytes)
    requires s.Active? && s.phase == StartLine && !StartLineAtBound(cfg, b + e)
    ensures StableAt(Decoder(cfg), s, b, e)
  {
    hide Find, ParseRequestLine, ParseResponseLine;
    if Find(b, CRLF).Some? {
      LineStable(b, e);
    } else {
      FindLate(b, e, CRLF);
    }
  }

  lemma HeadersStable(cfg: Config, s: State, b: Bytes, e: Bytes)
    requires s.Active? && s.phase == Headers
    ensures StableAt(Decoder(cfg), s, b, e)
  {
    hide Find, ParseHeaderLine, FrameBody;
    if Find(b, CRLF).Some? {
      LineStable(b, e);
    } else {
      FindLate(b, e, CRLF);
    }
  }

  lemma ChunkStable(cfg: Config, s: State, b: Bytes, e: Bytes)
    requires s.Active? && (s.phase == ChunkSize || s.phase == Trailers)
    ensures StableAt(Decoder(cfg), s, b, e)
  {
    hide Find, ParseChunkLine, ParseTrailerLine;
    if Find(b, CRLF).Some? {
      LineStable(b, e);
    }
  }

  lemma BodyStable(cfg: Config, s: State, b: Bytes, e: Bytes)
    requires s.Active? && (s.phase == FixedBody || s.phase == ChunkData)
    ensures StableAt(Decoder(cfg), s, b, e)
  {
    var n := if s.phase == FixedBody then s.fixedBodyBytes else s.chunkSize;
    if |b| >= n {
      assert (b + e)[..n] == b[..n];
    }
  }

  /** Steps keep the start line behind them, so the exception cannot come back. */
  lemma DecoderStable(cfg: Config)
    ensures Stable(Decoder(cfg), (s, text) => NotAtBound(cfg, s, text))
  {
    forall s, b: Bytes, e: Bytes | NotAtBound(cfg, s, b + e) ensures StableAt(Decoder(cfg), s, b, e) {
      if s.Active? {
        match s.phase
        case StartLine => StartLineStable(cfg, s, b, e);
        case Headers => HeadersStable(cfg, s, b, e);
        case FixedBody => BodyStable(cfg, s, b, e);
        case ChunkSize => ChunkStable(cfg, s, b, e);
        case ChunkData => BodyStable(cfg, s, b, e);
        case Trailers => ChunkStable(cfg, s, b, e);
        case Complete =>
      }
    }
    forall s, b: Bytes, e: Bytes | NotAtBound(cfg, s, b + e) && !StepHttp(cfg, s, b).Wait?
      && StepHttp(cfg, s, b).used <= |b|
      ensures NotAtBound(cfg, StepHttp(cfg, s, b).next, b[StepHttp(cfg, s, b).used..] + e)
    {
      StartLineLeft(cfg, s, b);
    }
  }

  lemma StartLineLeft(cfg: Config, s: State, b: Bytes)
    requires !StepHttp(cfg, s, b).Wait?
    ensures var t := StepHttp(cfg, s, b).next; t.Active? ==> t.phase != StartLine
    ensures s.Active? && s.phase != StartLine ==> StepHttp(cfg, s, b).next != Failed(BadStartLine)
  {
    hide Find, ParseRequestLine, ParseResponseLine, ParseHeaderLine, ParseChunkLine, ParseTrailerLine;
  }

  lemma {:induction false} NoLateStartLineError(cfg: Config, c: Cursor<State>)
    requires c.state.Active? && c.state.phase != StartLine
    ensures Run(Decoder(cfg), c).state != Failed(BadStartLine)
    decreases |c.unread|
  {
    var o := StepHttp(cfg, c.state, c.unread);
    if !o.Wait? {
      StartLineLeft(cfg, c.state, c.unread);
      if o.Advance? && 0 < o.used <= |c.unread| && o.next.Active? {
        NoLateStartLineError(cfg, Cursor(o.next, c.unread[o.used..]));
      }
    }
  }

  /** Cut behind the carriage return of a start line of exactly the bound, the parser gives up early. */
  lemma BoundLineCut(cfg: Config, text: Bytes)
    requires StartLineAtBound(cfg, text)
    ensures var n := cfg.options.maxStartLine + 1;
            && n <= |text|
            && RunChunks(Decoder(cfg), Cursor(INITIAL, []), [text[..n], text[n..]]).state == Failed(BadStartLine)
            && Run(Decoder(cfg), Cursor(INITIAL, text)).state != Failed(BadStartLine)
  {
    var n := cfg.options.maxStartLine + 1;
    var step := Decoder(cfg);
    var first, second := text[..n], text[n..];
    assert text == first + second;
    assert Find(first, CRLF).None? by {
      if Find(first, CRLF).Some? {
        FindStable(first, second, CRLF);
      }
    }
    EarlyRefusal(cfg, first, second);
    AtBoundAccepted(cfg, text);
  }

  lemma EarlyRefusal(cfg: Config, first: Bytes, second: Bytes)
    requires Find(first, CRLF).None? && |first| > cfg.options.maxStartLine
    ensures RunChunks(Decoder(cfg), Cursor(INITIAL, []), [first, second]).state == Failed(BadStartLine)
  {
    var step := Decoder(cfg);
    assert [] + first == first;
    var c := Run(step, Feed(Cursor(INITIAL, []), first));
    assert c.state == Failed(BadStartLine);
    assert Run(step, Feed(c, second)).state == Failed(BadStartLine);
    assert [first, second][1..] == [second];
    assert RunChunks(step, c, [second]) == RunChunks(step, Run(step, Feed(c, second)), []);
  }

  lemma AtBoundAccepted(cfg: Config, text: Bytes)
    requires StartLineAtBound(cfg, text)
    ensures Run(Decoder(cfg), Cursor(INITIAL, text)).state != Failed(BadStartLine)
  {
    hide Find, ParseRequestLine, ParseResponseLine;
    var o := StepHttp(cfg, INITIAL, text);
    assert o.Advance? && o.used <= |text|;
    NoLateStartLineError(cfg, Cursor(o.next, text[o.used..]));
  }

  lemma HttpSplit(cfg: Config, text: Bytes, chunks: seq<Bytes>)
    requires !StartLineAtBound(cfg, text) && chunks != [] && Concat(chunks) == text
    ensures RunChunks(Decoder(cfg), Cursor(INITIAL, []), chunks) == Run(Decoder(cfg), Cursor(INITIAL, text))
  {
    DecoderStable(cfg);
    assert [] + text == text;
    SplitIndependent(Decoder(cfg), (s, rest) => NotAtBound(cfg, s, rest), Cursor(INITIAL, []), chunks);
  }

  /**
   * Same outcome, message and unread bytes under every cut, if and only if the input does not
   * start with an acceptable start line of exactly max_start_line bytes.
   */
  lemma HttpSplitIff(cfg: Config, text: Bytes)
    ensures (forall chunks | chunks != [] && Concat(chunks) == text ::
               RunChunks(Decoder(cfg), Cursor(INITIAL, []), chunks) == Run(Decoder(cfg), Cursor(INITIAL, text)))
            <==> !StartLineAtBound(cfg, text)
  {
    hide StepHttp, Run, RunChunks;
    if StartLineAtBound(cfg, text) {
      BoundLineCut(cfg, text);
      var n := cfg.options.maxStartLine + 1;
      TwoPieces(text, n);
      assert [text[..n], text[n..]] != [];
    } else {
      forall chunks | chunks != [] && Concat(chunks) == text
        ensures RunChunks(Decoder(cfg), Cursor(INITIAL, []), chunks) == Run(Decoder(cfg), Cursor(INITIAL, text))
      {
        HttpSplit(cfg, text, chunks);
      }
    }
  }

  /** The same parser with room for one more byte in its start line. */
  function Wider(cfg: Config): Config {
    cfg.(options := cfg.options.(maxStartLine := cfg.options.maxStartLine + 1))
  }

  /** The step does not see the bound: the start line is behind it, or is there and fits. */
  predicate Unbounded(cfg: Config, c: Cursor<State>) {
    c.state.Active? && c.state.phase == StartLine ==>
      Find(c.unread, CRLF).Some? && Find(c.unread, CRLF).value <= cfg.options.maxStartLine
  }

  lemma WiderStep(cfg: Config, c: Cursor<State>)
    ensures var o := StepHttp(cfg, c.state, c.unread);
            || o == StepHttp(Wider(cfg), c.state, c.unread)
            || (o == Halt(Failed(BadStartLine), 0) && !Unbounded(cfg, c))
  {
    hide Find, ParseRequestLine, ParseResponseLine, ParseHeaderLine, ParseChunkLine, ParseTrailerLine, Lengths,
      TransferCodings, Contains;
  }

  /** The wider parser goes the same way, unless the narrower one refuses the start line. */
  lemma {:induction false} WiderRun(cfg: Config, c: Cursor<State>)
    ensures var end := Run(Decoder(cfg), c);
            end == Run(Decoder(Wider(cfg)), c) || (end.state == Failed(BadStartLine) && !Unbounded(cfg, c))
    decreases |c.unread|
  {
    hide StepHttp;
    WiderStep(cfg, c);
    var o := StepHttp(cfg, c.state, c.unread);
    if o.Advance? && 0 < o.used <= |c.unread| {
      StartLineLeft(cfg, c.state, c.unread);
      WiderRun(cfg, Cursor(o.next, c.unread[o.used..]));
    }
  }

  lemma {:induction false} RefusedStays(cfg: Config, c: Cursor<State>, chunks: seq<Bytes>)
    requires c.state == Failed(BadStartLine)
    ensures RunChunks(Decoder(cfg), c, chunks).state == Failed(BadStartLine)
    decreases |chunks|
  {
    if chunks != [] {
      RefusedStays(cfg, Run(Decoder(cfg), Feed(c, chunks[0])), chunks[1..]);
    }
  }

  lemma {:induction false} WiderChunks(cfg: Config, c: Cursor<State>, chunks: seq<Bytes>)
    ensures var end := RunChunks(Decoder(cfg), c, chunks);
            end == RunChunks(Decoder(Wider(cfg)), c, chunks) || end.state == Failed(BadStartLine)
    decreases |chunks|
  {
    hide Run;
    if chunks != [] {
      var fed := Feed(c, chunks[0]);
      WiderRun(cfg, fed);
      var d := Run(Decoder(cfg), fed);
      if d.state == Failed(BadStartLine) {
        RefusedStays(cfg, d, chunks[1..]);
      } else {
        WiderChunks(cfg, d, chunks[1..]);
      }
    }
  }

  /** At the bound the wider parser is not at its own. */
  lemma AtBoundWider(cfg: Config, text: Bytes)
    requires StartLineAtBound(cfg, text)
    ensures !StartLineAtBound(Wider(cfg), text)
    ensures Run(Decoder(Wider(cfg)), Cursor(INITIAL, text)) == Run(Decoder(cfg), Cursor(INITIAL, text))
  {
    WiderRun(cfg, Cursor(INITIAL, text));
  }

  /** Whatever the input, a cut that does not end with the start line refused ends as the whole does. */
  lemma CutOrRefused(cfg: Config, text: Bytes, chunks: seq<Bytes>)
    requires chunks != [] && Concat(chunks) == text
    ensures var end := RunChunks(Decoder(cfg), Cursor(INITIAL, []), chunks);
            end == Run(Decoder(cfg), Cursor(INITIAL, text)) || end.state == Failed(BadStartLine)
  {
    hide Run, RunChunks, StepHttp;
    if StartLineAtBound(cfg, text) {
      AtBoundWider(cfg, text);
      WiderChunks(cfg, Cursor(INITIAL, []), chunks);
      HttpSplit(Wider(cfg), text, chunks);
    } else {
      HttpSplit(cfg, text, chunks);
    }
  }
}
