/**
 * How a head delimits the body behind it (section 6.3 of RFC 9112), for requests and responses: which heads
 * are refused, and which bytes the others take.
 */
module HttpFraming {
  import opened Bytes
  import opened Incremental
  import opened HttpText
  import opened HttpDecoder
  import opened HttpGrammar
  import opened HttpParsing
  import opened HttpRoundTrip
  import opened BodyAgreement
  import opened ChunkedCoding

  /** All Content-Length elements are numbers of 64 bits, and the same one. */
  predicate LengthsAgree(headers: seq<Field>) {
    Lengths(headers).Some? && forall a, b | a in Lengths(headers).value && b in Lengths(headers).value :: a == b
  }

  /** Content-Length and Transfer-Encoding do not contradict themselves or each other. */
  predicate Consistent(headers: seq<Field>) {
    && LengthsAgree(headers)
    && (TransferCodings(headers) != [] ==>
          TransferCodings(headers)[|TransferCodings(headers)| - 1] == Ascii("chunked") && Lengths(headers) == Some([]))
  }

  predicate Hostless(start: StartLine, headers: seq<Field>) {
    start.Request? && start.version == Http11 && Values(headers, Ascii("Host")) == []
  }

  /** What the parser starts from behind the header lines. */
  function Behind(cfg: Config, start: Bytes, lines: seq<Bytes>): (s: State)
    requires SoundHead(cfg, start, lines)
  {
    WithFields(AfterStart(cfg, start), lines)
  }

  lemma BehindIs(cfg: Config, start: Bytes, lines: seq<Bytes>)
    requires SoundHead(cfg, start, lines)
    ensures var s := Behind(cfg, start, lines);
            && BeforeBody(s) && s.phase == Headers && s.message.headers == FieldsOf(lines)
            && s.message.start == ParseStartLine(cfg.mode, start).value
            && s.message.trailers == [] && s.message.contentLength == None && !s.message.chunked
  {
    assert [] + FieldsOf(lines) == FieldsOf(lines);
    hide Section, ParseStartLine, WholeLine, HeaderLine, FieldsOf;
  }

  /** Which heads are refused, and why: never for the size of a body, when the head is parsed alone. */
  lemma HeadRefusedIff(cfg: Config, start: Bytes, lines: seq<Bytes>, rest: Bytes)
    requires SoundHead(cfg, start, lines)
    ensures var end := Run(Decoder(cfg.(headOnly := true)), Cursor(INITIAL, HeadText(start, lines) + rest));
            && end.unread == rest
            && (end.state == Failed(BadMessageFraming) <==> !Consistent(FieldsOf(lines)))
            && (end.state == Failed(BadHeader) <==>
                  Consistent(FieldsOf(lines)) && Hostless(ParseStartLine(cfg.mode, start).value, FieldsOf(lines)))
            && (end.state.Failed? ==> end.state.error in {BadMessageFraming, BadHeader})
  {
    var headCfg := cfg.(headOnly := true);
    hide Run, HeadText, WithFields, AfterStart, Section, ParseStartLine, WholeLine, HeaderLine, FieldsOf, FrameBody,
      FinishHeaders, Consistent, Hostless;
    HeadRun(headCfg, start, lines, rest);
    BehindIs(headCfg, start, lines);
    var s := Behind(headCfg, start, lines);
    Framed(headCfg, s);
  }

  lemma AllSame(lengths: seq<nat>)
    ensures (exists l | l in lengths :: l != lengths[0]) <==> !(forall a, b | a in lengths && b in lengths :: a == b)
  {
    if a, b :| a in lengths && b in lengths && a != b {
      assert a != lengths[0] || b != lengths[0];
    }
    if l :| l in lengths && l != lengths[0] {
      assert lengths[0] in lengths;
    }
  }

  /** Only the refusals, from the framing decision. */
  lemma Framed(cfg: Config, s: State)
    requires s.Active?
    ensures var u := FinishHeaders(cfg, s);
            && (u == Failed(BadMessageFraming) <==> !Consistent(s.message.headers))
            && (u == Failed(BadHeader) <==>
                  Consistent(s.message.headers) && Hostless(s.message.start, s.message.headers))
            && (u.Failed? ==> u.error in {BadMessageFraming, BadHeader} || (u == Failed(BodyTooLarge) && !cfg.headOnly))
  {
    if Lengths(s.message.headers).Some? {
      AllSame(Lengths(s.message.headers).value);
    }
    hide Lengths, TransferCodings, Ascii, Values;
  }

  /** A response to which HTTP gives no body, whatever its fields say: 1xx, 204, 205 and 304. */
  predicate Bodiless(start: StartLine) {
    start.Response? && (start.status < 200 || start.status == 204 || start.status == 205 || start.status == 304)
  }

  /** A head after which the message is complete. */
  lemma CompleteHead(cfg: Config, start: Bytes, lines: seq<Bytes>, rest: Bytes)
    requires SoundHead(cfg, start, lines)
    requires var u := FinishHeaders(cfg, Behind(cfg, start, lines)); u.Active? && u.phase == Complete
    ensures Reads(Run(Decoder(cfg), Cursor(INITIAL, HeadText(start, lines) + rest)),
                  ParseStartLine(cfg.mode, start).value, FieldsOf(lines), [], rest)
  {
    HeadRun(cfg, start, lines, rest);
    BehindIs(cfg, start, lines);
    var s := Behind(cfg, start, lines);
    FinishKeeps(cfg, s);
    hide Run, HeadText, WithFields, AfterStart, SoundHead, ParseStartLine, FieldsOf, FinishHeaders, Behind;
  }

  lemma FinishKeeps(cfg: Config, s: State)
    requires s.Active? && FinishHeaders(cfg, s).Active?
    ensures var m := FinishHeaders(cfg, s).message;
            m.start == s.message.start && m.headers == s.message.headers && m.body == s.message.body
  {
    hide FrameBody, Lengths;
  }

  /** A bodiless response with consistent fields ends at its empty line, with Content-Length or codings or none. */
  lemma BodilessReads(cfg: Config, start: Bytes, lines: seq<Bytes>, rest: Bytes)
    requires SoundHead(cfg, start, lines) && Consistent(FieldsOf(lines))
    requires Bodiless(ParseStartLine(cfg.mode, start).value)
    ensures Reads(Run(Decoder(cfg), Cursor(INITIAL, HeadText(start, lines) + rest)),
                  ParseStartLine(cfg.mode, start).value, FieldsOf(lines), [], rest)
  {
    BehindIs(cfg, start, lines);
    hide SoundHead, Reads, HeadText, WithFields, AfterStart, ParseStartLine, FieldsOf, Run;
    BodilessFramed(cfg, Behind(cfg, start, lines));
    CompleteHead(cfg, start, lines, rest);
  }

  lemma BodilessFramed(cfg: Config, s: State)
    requires s.Active? && Consistent(s.message.headers) && Bodiless(s.message.start)
    ensures var u := FinishHeaders(cfg, s); u.Active? && u.phase == Complete
  {
    AllSame(Lengths(s.message.headers).value);
    hide Lengths, TransferCodings, Ascii, Values;
  }

  /** Nothing but the fields decides. */
  predicate BodyByFields(start: StartLine, headers: seq<Field>) {
    Consistent(headers) && !Bodiless(start) && !Hostless(start, headers)
  }

  /** Without a length, or with length 0, and without codings there is no body. */
  lemma NothingReads(cfg: Config, start: Bytes, lines: seq<Bytes>, rest: Bytes)
    requires SoundHead(cfg, start, lines) && BodyByFields(ParseStartLine(cfg.mode, start).value, FieldsOf(lines))
    requires TransferCodings(FieldsOf(lines)) == [] && forall l | l in Lengths(FieldsOf(lines)).value :: l == 0
    ensures Reads(Run(Decoder(cfg), Cursor(INITIAL, HeadText(start, lines) + rest)),
                  ParseStartLine(cfg.mode, start).value, FieldsOf(lines), [], rest)
  {
    BehindIs(cfg, start, lines);
    hide SoundHead, Reads, HeadText, WithFields, AfterStart, ParseStartLine, FieldsOf, Run;
    LengthFramed(cfg, Behind(cfg, start, lines), 0);
    CompleteHead(cfg, start, lines, rest);
  }

  lemma LengthFramed(cfg: Config, s: State, n: nat)
    requires s.Active? && BodyByFields(s.message.start, s.message.headers) && TransferCodings(s.message.headers) == []
    requires forall l | l in Lengths(s.message.headers).value :: l == n
    requires n > 0 ==> Lengths(s.message.headers).value != []
    ensures var u := FinishHeaders(cfg, s);
            if n == 0 then u.Active? && u.phase == Complete
            else if n > cfg.options.maxBody && !cfg.headOnly then u == Failed(BodyTooLarge)
            else u == s.(phase := FixedBody, fixedBodyBytes := n, message := s.message.(contentLength := Some(n)))
  {
    var lengths := Lengths(s.message.headers).value;
    AllSame(lengths);
    assert lengths != [] ==> lengths[0] in lengths;
    hide Lengths, TransferCodings, Ascii, Values;
  }

  /** With a length the body is that many bytes, in requests and responses; above the bound it is refused. */
  lemma LengthReads(cfg: Config, start: Bytes, lines: seq<Bytes>, body: Bytes, rest: Bytes)
    requires SoundHead(cfg, start, lines) && BodyByFields(ParseStartLine(cfg.mode, start).value, FieldsOf(lines))
    requires TransferCodings(FieldsOf(lines)) == [] && Lengths(FieldsOf(lines)).value != [] && !cfg.headOnly
    requires body != [] && forall l | l in Lengths(FieldsOf(lines)).value :: l == |body|
    ensures var end := Run(Decoder(cfg), Cursor(INITIAL, HeadText(start, lines) + (body + rest)));
            if |body| > cfg.options.maxBody then end.state == Failed(BodyTooLarge)
            else Reads(end, ParseStartLine(cfg.mode, start).value, FieldsOf(lines), body, rest)
  {
    BehindIs(cfg, start, lines);
    HeadRun(cfg, start, lines, body + rest);
    var s := Behind(cfg, start, lines);
    hide SoundHead, HeadText, WithFields, AfterStart, ParseStartLine, FieldsOf, Run, Behind, FinishHeaders,
      BodyByFields, Lengths, TransferCodings;
    LengthFramed(cfg, s, |body|);
    var u := FinishHeaders(cfg, s);
    hide Reads, Onward;
    LengthEnds(cfg, u, body, rest);
  }

  /** From the framing decision on. */
  lemma LengthEnds(cfg: Config, u: State, body: Bytes, rest: Bytes)
    requires !cfg.headOnly
    requires u == Failed(BodyTooLarge) || (u.Active? && u.phase == FixedBody && u.fixedBodyBytes == |body|)
    ensures u.Failed? ==> Onward(cfg, u, body + rest).state == u
    ensures u.Active? ==> Reads(Onward(cfg, u, body + rest), u.message.start, u.message.headers, body, rest)
  {
    hide Run;
    if u.Active? {
      FixedBodyReads(cfg, u, body, rest);
    }
  }

  /** And as long as bytes are missing, the message is not complete and nothing of the body is taken. */
  lemma LengthWaits(cfg: Config, start: Bytes, lines: seq<Bytes>, n: nat, part: Bytes)
    requires SoundHead(cfg, start, lines) && BodyByFields(ParseStartLine(cfg.mode, start).value, FieldsOf(lines))
    requires TransferCodings(FieldsOf(lines)) == [] && Lengths(FieldsOf(lines)).value != [] && !cfg.headOnly
    requires |part| < n <= cfg.options.maxBody && forall l | l in Lengths(FieldsOf(lines)).value :: l == n
    ensures var end := Run(Decoder(cfg), Cursor(INITIAL, HeadText(start, lines) + part));
            end.state.Active? && end.state.phase == FixedBody && end.unread == part
  {
    BehindIs(cfg, start, lines);
    HeadRun(cfg, start, lines, part);
    var s := Behind(cfg, start, lines);
    LengthFramed(cfg, s, n);
    hide SoundHead, HeadText, WithFields, AfterStart, ParseStartLine, FieldsOf, Run, Behind, FinishHeaders,
      BodyByFields, Lengths, TransferCodings, StepHttp;
    var u := FinishHeaders(cfg, s);
    FixedBodyStep(cfg, u, part);
    RunParked(cfg, u, part);
  }

  /** With codings, the last one chunked, the body is what the chunks add up to. */
  lemma ChunksRead(cfg: Config, start: Bytes, lines: seq<Bytes>, chunks: seq<Bytes>, rest: Bytes)
    requires SoundHead(cfg, start, lines) && BodyByFields(ParseStartLine(cfg.mode, start).value, FieldsOf(lines))
    requires TransferCodings(FieldsOf(lines)) != [] && !cfg.headOnly
    requires cfg.options.maxBody < TWO_64 && |Concat(chunks)| <= cfg.options.maxBody
    requires forall i | 0 <= i < |chunks| :: chunks[i] != []
    ensures Reads(Run(Decoder(cfg), Cursor(INITIAL, HeadText(start, lines) + (EncodeChunks(chunks) + rest))),
                  ParseStartLine(cfg.mode, start).value, FieldsOf(lines), Concat(chunks), rest)
  {
    BehindIs(cfg, start, lines);
    HeadRun(cfg, start, lines, EncodeChunks(chunks) + rest);
    var s := Behind(cfg, start, lines);
    hide SoundHead, HeadText, WithFields, AfterStart, ParseStartLine, FieldsOf, Run, Behind, FinishHeaders,
      BodyByFields, EncodeChunks, TransferCodings, Concat;
    ChunkedFramed(cfg, s);
    var u := FinishHeaders(cfg, s);
    BufferedRoundTrip(cfg, u, chunks, rest);
    assert [] + Concat(chunks) == Concat(chunks);
  }

  lemma ChunkedFramed(cfg: Config, s: State)
    requires s.Active? && BodyByFields(s.message.start, s.message.headers) && TransferCodings(s.message.headers) != []
    ensures FinishHeaders(cfg, s) == s.(phase := ChunkSize, message := s.message.(chunked := true))
  {
    AllSame(Lengths(s.message.headers).value);
    hide Lengths, TransferCodings, Ascii, Values;
  }

  /** What a head that is not refused says of its body: the length it names, and whether it is chunked. */
  lemma Announced(cfg: Config, start: Bytes, lines: seq<Bytes>, rest: Bytes)
    requires SoundHead(cfg, start, lines) && Consistent(FieldsOf(lines))
    requires !Hostless(ParseStartLine(cfg.mode, start).value, FieldsOf(lines))
    ensures var head := Run(Decoder(cfg.(headOnly := true)), Cursor(INITIAL, HeadText(start, lines) + rest)).state;
            var lengths := Lengths(FieldsOf(lines)).value;
            && head.Active? && head.message.headers == FieldsOf(lines)
            && head.message.contentLength == (if lengths == [] then None else Some(lengths[0]))
            && (head.message.chunked <==> head.phase == ChunkSize)
            && (head.phase == ChunkSize <==>
                  TransferCodings(FieldsOf(lines)) != [] && !Bodiless(ParseStartLine(cfg.mode, start).value))
  {
    var headCfg := cfg.(headOnly := true);
    HeadRun(headCfg, start, lines, rest);
    BehindIs(headCfg, start, lines);
    hide Run, HeadText, WithFields, AfterStart, SoundHead, ParseStartLine, FieldsOf, FinishHeaders, Behind, Consistent,
      Hostless, Bodiless, Lengths, TransferCodings;
    HeadAnnounces(headCfg, Behind(headCfg, start, lines));
  }

  lemma HeadAnnounces(cfg: Config, s: State)
    requires s.Active? && cfg.headOnly && s.message.contentLength == None && !s.message.chunked
    requires Consistent(s.message.headers) && !Hostless(s.message.start, s.message.headers)
    ensures var head := FinishHeaders(cfg, s);
            var lengths := Lengths(s.message.headers).value;
            && head.Active? && head.message.headers == s.message.headers
            && head.message.contentLength == (if lengths == [] then None else Some(lengths[0]))
            && (head.message.chunked <==> head.phase == ChunkSize)
            && (head.phase == ChunkSize <==>
                  TransferCodings(s.message.headers) != [] && !Bodiless(s.message.start))
  {
    AllSame(Lengths(s.message.headers).value);
    hide Lengths, TransferCodings, Ascii, Values;
  }
}
