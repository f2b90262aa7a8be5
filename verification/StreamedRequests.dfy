/**
 * Requests whose body the server streams: which decoder src/http/http_server.cpp starts behind the head,
 * and inputs on which that is not the parser's own decision, or not the bound of the parser.
 */
module StreamedRequests {
  import opened Bytes
  import opened Incremental
  import opened HttpText
  import opened HttpDecoder
  import opened BodyDecoder
  import opened BodyAgreement
  import opened HttpGrammar
  import opened HttpRoundTrip
  import opened DecimalText
  import HttpStreaming

  /** HttpHeaders::get: the first value of a field, empty when there is none. */
  function FirstValue(headers: seq<Field>, name: Bytes): Bytes {
    if Values(headers, name) == [] then [] else Values(headers, name)[0]
  }

  predicate HasTransferEncoding(m: Message) { FirstValue(m.headers, TransferEncoding()) != [] }

  /** The decoder the server starts; it looks at the request, not at the parser. */
  function ServerBody(m: Message): BodyState {
    if HasTransferEncoding(m) then StartChunked()
    else StartFixed(if m.contentLength.Some? then m.contentLength.value else 0)
  }

  /** The end of on_streaming_request. */
  method StartStreaming(context: HttpStreaming.HttpContext, request: Message)
    modifies context
    ensures context.Valid() && context.active && context.View() == ServerBody(request)
  {
    var coding := FirstValue(request.headers, TransferEncoding());
    if coding != [] {
      context.StartStreamingChunkedBody();
    } else {
      context.StartStreamingBody(if request.contentLength.Some? then request.contentLength.value else 0);
    }
  }

  /** The framing decision as the fields of the request tell it. */
  lemma Announced(cfg: Config, s: State)
    requires s.Active? && s.message.start.Request? && s.message.contentLength == None && FinishHeaders(cfg, s).Active?
    ensures var head := FinishHeaders(cfg, s);
            && head.message.headers == s.message.headers
            && (head.phase == ChunkSize <==> TransferCodings(s.message.headers) != [])
            && (head.phase == FixedBody ==> head.message.contentLength == Some(head.fixedBodyBytes))
            && (head.phase !in {FixedBody, ChunkSize} ==> head.message.contentLength in {None, Some(0)})
  {
    hide Lengths, TransferCodings, Contains, Ascii;
  }

  /**
   * For every request whose head was parsed, from any pieces: the server starts the decoder of the
   * parser's framing decision, if and only if the first Transfer-Encoding value is not empty exactly when
   * the list of all codings is not.
   */
  lemma ServerAgreesIff(cfg: Config, early: seq<Bytes>)
    requires cfg.headOnly && cfg.mode == RequestMode
    requires AtBody(RunChunks(Decoder(cfg), Cursor(INITIAL, []), early).state)
    ensures var head := RunChunks(Decoder(cfg), Cursor(INITIAL, []), early).state;
            var values := Values(head.message.headers, Ascii("Transfer-Encoding"));
            ServerBody(head.message) == StartBody(head) <==>
            (values != [] && values[0] != [] <==> TransferCodings(head.message.headers) != [])
  {
    hide Run, RunChunks, FinishHeaders, TransferCodings, Section, HeaderLines, Values, Ascii;
    HeadInPieces(cfg, early);
    var start, lines := HeadBack(cfg, Concat(early));
    Announced(cfg, WithFields(AfterStart(cfg, start), lines));
    RequestStarts(start);
  }

  lemma RequestStarts(line: Bytes)
    ensures ParseRequestLine(line).Some? ==> ParseRequestLine(line).value.Request?
  {
  }

  /** Two more header lines behind some. */
  lemma TwoMore(lines: seq<Bytes>, f: Field, g: Field) returns (all: seq<Bytes>)
    requires HeaderLines(lines)
    requires forall h | h in [f, g] :: IsToken(h.name) && CR !in h.name && CR !in h.value && TrimOws(h.value) == h.value
    ensures all == lines + [FieldLine(f.name, f.value)] + [FieldLine(g.name, g.value)] && HeaderLines(all)
    ensures FieldsOf(all) == FieldsOf(lines) + [f] + [g]
    ensures forall name ::
              Values(FieldsOf(all), name) == Values(FieldsOf(lines), name)
                                             + (if SameName(f.name, name) then [f.value] else [])
                                             + (if SameName(g.name, name) then [g.value] else [])
  {
    hide IsToken, TrimOws, HeaderLine, ParseHeaderLine, FieldLine, SameName;
    assert f in [f, g] && g in [f, g];
    LastLine(lines, f.name, f.value);
    var more := lines + [FieldLine(f.name, f.value)];
    LastLine(more, g.name, g.value);
    all := more + [FieldLine(g.name, g.value)];
    forall name
      ensures Values(FieldsOf(all), name) == Values(FieldsOf(lines), name)
                                             + (if SameName(f.name, name) then [f.value] else [])
                                             + (if SameName(g.name, name) then [g.value] else [])
    {
      LastField(lines, f, name);
      LastField(more, g, name);
    }
  }

  /** What the head parser makes of a request head: the framing decision on its fields. */
  lemma HeadFramed(cfg: Config, start: Bytes, lines: seq<Bytes>, rest: Bytes) returns (s: State)
    requires HeadFits(cfg, start, lines)
    ensures s == WithFields(AfterStart(cfg, start), lines)
    ensures s.message.headers == FieldsOf(lines) && s.message.body == [] && s.decodedBytes == 0
    ensures s.message.start == ParseRequestLine(start).value && s.message.contentLength == None
    ensures var headCfg := cfg.(headOnly := true);
            var u := FinishHeaders(headCfg, s);
            u.Active? ==> Run(Decoder(headCfg), Cursor(INITIAL, HeadText(start, lines) + rest)) == Cursor(u, rest)
  {
    hide WholeLine, ParseRequestLine, FinishHeaders, Run, Section, HeaderLine, FieldsOf;
    s := WithFields(AfterStart(cfg, start), lines);
    assert [] + FieldsOf(lines) == FieldsOf(lines);
    RequestStarts(start);
    var headCfg := cfg.(headOnly := true);
    var u := FinishHeaders(headCfg, s);
    if u.Active? {
      HeadReads(headCfg, start, lines, u, rest);
      Reassociate(start + CRLF, Section(lines), rest);
    }
  }

  /** From the framing decision to the head. */
  lemma HeadMade(cfg: Config, s: State) returns (head: State)
    requires s.Active? && s.message.body == [] && s.decodedBytes == 0
    ensures head == FinishHeaders(cfg, s)
    ensures FrameBody(cfg, s.message) == Chunked ==>
              AtBody(head) && head.phase == ChunkSize && head.message == s.message.(chunked := true)
    ensures FrameBody(cfg, s.message).Fixed? ==>
              AtBody(head) && head.phase == FixedBody && head.fixedBodyBytes == FrameBody(cfg, s.message).length
              && head.message.headers == s.message.headers
              && (Lengths(s.message.headers) == Some([head.fixedBodyBytes]) ==>
                    head.message.contentLength == Some(head.fixedBodyBytes))
  {
    hide FrameBody, Lengths;
    head := FinishHeaders(cfg, s);
  }

  /** An empty coding in front of the real one. */
  function EmptyCodingFirst(lines: seq<Bytes>): seq<Bytes> {
    lines + [FieldLine(TransferEncoding(), [])] + [FieldLine(TransferEncoding(), ChunkedWord())]
  }

  lemma EmptyCodingLines(lines: seq<Bytes>)
    requires HeaderLines(lines)
    ensures HeaderLines(EmptyCodingFirst(lines))
    ensures forall name ::
              Values(FieldsOf(EmptyCodingFirst(lines)), name)
              == Values(FieldsOf(lines), name)
                 + (if SameName(TransferEncoding(), name) then [[]] else [])
                 + (if SameName(TransferEncoding(), name) then [ChunkedWord()] else [])
  {
    NamesDiffer();
    LowerChunked();
    PlainText(ChunkedWord());
    AsciiToken("chunked");
    assert TrimOws([]) == [];
    hide ChunkedWord, TransferEncoding, TrimOws, IsToken, Values, SameName, HeaderLine, FieldsOf, SplitCommas, Lower;
    var all := TwoMore(lines, Field(TransferEncoding(), []), Field(TransferEncoding(), ChunkedWord()));
  }

  /** The parser reads a chunked body, the server starts one without bytes. */
  lemma EmptyCodingMissed(cfg: Config, start: Bytes, lines: seq<Bytes>, rest: Bytes) returns (head: State)
    requires HeaderLines(lines) && HeadFits(cfg, start, EmptyCodingFirst(lines))
    requires Bare(ParseRequestLine(start).value, lines)
    ensures Run(Decoder(cfg.(headOnly := true)), Cursor(INITIAL, HeadText(start, EmptyCodingFirst(lines)) + rest))
            == Cursor(head, rest)
    ensures AtBody(head) && head.phase == ChunkSize && ServerBody(head.message) == StartFixed(0)
  {
    EmptyCodingLines(lines);
    hide Run, HeadText, Values, TransferEncoding, ChunkedWord, EmptyCodingFirst, Bare, HeadFits, FieldsOf, SameName,
      FrameBody, Lengths, TransferCodings, HeaderLine, ParseRequestLine, FinishHeaders, WithFields, AfterStart, Ascii;
    var s := HeadFramed(cfg, start, EmptyCodingFirst(lines), rest);
    EmptyFirstFields(s.message, lines);
    ChunkedBy(cfg.(headOnly := true), s.message);
    head := HeadMade(cfg.(headOnly := true), s);
  }

  lemma EmptyFirstFields(m: Message, lines: seq<Bytes>)
    requires Bare(m.start, lines)
    requires forall name ::
               Values(m.headers, name) == Values(FieldsOf(lines), name)
                 + (if SameName(TransferEncoding(), name) then [[]] else [])
                 + (if SameName(TransferEncoding(), name) then [ChunkedWord()] else [])
    ensures Lengths(m.headers) == Some([]) && TransferCodings(m.headers) == [ChunkedWord()] && HostThere(m)
    ensures FirstValue(m.headers, TransferEncoding()) == []
  {
    NamesDiffer();
    OneCoding();
    var values: seq<Bytes> := [[], ChunkedWord()];
    assert [[]] + [ChunkedWord()] == values;
    hide Lower, Ascii, ChunkedWord, FieldsOf, HeaderLine, Values, AllU64, SplitCommas, Codings;
    assert SameName(TransferEncoding(), TransferEncoding());
    hide SameName;
    assert Values(m.headers, ContentLength()) == [];
    assert Values(m.headers, TransferEncoding()) == values;
    assert Elements(values) == SplitCommas([]) + Elements([ChunkedWord()]) by { assert values[1..] == [ChunkedWord()]; }
    assert SplitCommas([]) + Elements([ChunkedWord()]) == Elements([ChunkedWord()]);
    assert AllU64(Elements([])) == Some([]);
  }

  /** A list of codings with nothing in it, beside a Content-Length. */
  function CommaCoding(lines: seq<Bytes>, n: nat): seq<Bytes> {
    lines + [FieldLine(TransferEncoding(), [',' as int])] + [FieldLine(ContentLength(), Decimal(n))]
  }

  lemma CommaLines(lines: seq<Bytes>, n: nat)
    requires HeaderLines(lines) && n < TWO_64
    ensures HeaderLines(CommaCoding(lines, n))
    ensures forall name ::
              Values(FieldsOf(CommaCoding(lines, n)), name)
              == Values(FieldsOf(lines), name)
                 + (if SameName(TransferEncoding(), name) then [[',' as int]] else [])
                 + (if SameName(ContentLength(), name) then [Decimal(n)] else [])
  {
    NamesDiffer();
    DecimalReads(n);
    DecimalPlain(n);
    var comma := [',' as int];
    assert TrimOws(comma) == comma && CR !in comma;
    hide Decimal, TransferEncoding, ContentLength, TrimOws, IsToken, Values, SameName, HeaderLine, FieldsOf,
      SplitCommas;
    var all := TwoMore(lines, Field(TransferEncoding(), comma), Field(ContentLength(), Decimal(n)));
  }

  /** The parser reads a body of n bytes, the server starts a chunked one. */
  lemma CommaMisread(cfg: Config, start: Bytes, lines: seq<Bytes>, n: nat, rest: Bytes) returns (head: State)
    requires HeaderLines(lines) && HeadFits(cfg, start, CommaCoding(lines, n)) && 0 < n < TWO_64
    requires Bare(ParseRequestLine(start).value, lines)
    ensures Run(Decoder(cfg.(headOnly := true)), Cursor(INITIAL, HeadText(start, CommaCoding(lines, n)) + rest))
            == Cursor(head, rest)
    ensures AtBody(head) && StartBody(head) == StartFixed(n) && ServerBody(head.message) == StartChunked()
  {
    CommaLines(lines, n);
    hide Run, HeadText, Values, TransferEncoding, ContentLength, CommaCoding, Bare, HeadFits, FieldsOf, SameName,
      FrameBody, Lengths, TransferCodings, HeaderLine, ParseRequestLine, FinishHeaders, WithFields, AfterStart, Ascii,
      Decimal;
    var s := HeadFramed(cfg, start, CommaCoding(lines, n), rest);
    CommaFields(s.message, lines, n);
    FixedBy(cfg.(headOnly := true), s.message, n);
    head := HeadMade(cfg.(headOnly := true), s);
  }

  lemma CommaFields(m: Message, lines: seq<Bytes>, n: nat)
    requires Bare(m.start, lines) && n < TWO_64
    requires forall name ::
               Values(m.headers, name) == Values(FieldsOf(lines), name)
                 + (if SameName(TransferEncoding(), name) then [[',' as int]] else [])
                 + (if SameName(ContentLength(), name) then [Decimal(n)] else [])
    ensures Lengths(m.headers) == Some([n]) && TransferCodings(m.headers) == [] && HostThere(m)
    ensures FirstValue(m.headers, TransferEncoding()) == [',' as int]
  {
    NamesDiffer();
    OneLength(n);
    NoCodings();
    hide Lower, Ascii, FieldsOf, HeaderLine, Values, AllU64, Elements, Codings, Decimal;
    assert SameName(TransferEncoding(), TransferEncoding()) && SameName(ContentLength(), ContentLength());
    assert !SameName(TransferEncoding(), ContentLength());
    hide SameName;
    assert Values(m.headers, ContentLength()) == [Decimal(n)];
    assert Values(m.headers, TransferEncoding()) == [[',' as int]];
  }

  lemma NoCodings()
    ensures Codings(Elements([[',' as int]])) == []
  {
    var comma := [',' as int];
    FindByte(comma, ',' as int, 0);
    assert SplitCommas(comma) == [[]];
    assert Elements([comma]) == [[]] by { assert [comma][1..] == []; }
    assert IndexOf([], ';' as int).None?;
    assert StripParameters(Lower([])) == [];
    var none: seq<Bytes> := [[]];
    assert none[1..] == [];
  }

  /**
   * A Content-Length above the bound: streaming completes the body, whatever its length, where the
   * buffered parser refuses the head.
   */
  lemma LongBodyStreams(cfg: Config, start: Bytes, lines: seq<Bytes>, body: Bytes, rest: Bytes) returns (head: State)
    requires HeaderLines(lines) && cfg.options.maxBody < |body| < TWO_64
    requires HeadFits(cfg, start, FixedLines(lines, |body|)) && Bare(ParseRequestLine(start).value, lines)
    ensures var text := HeadText(start, FixedLines(lines, |body|)) + (body + rest);
            && Run(Decoder(cfg.(headOnly := true)), Cursor(INITIAL, text)) == Cursor(head, body + rest)
            && Run(Decoder(cfg), Cursor(INITIAL, text)).state == Failed(BodyTooLarge)
    ensures AtBody(head) && EndsWith(Run(BODY, Cursor(StartBody(head), body + rest)), body, rest)
  {
    var n := |body|;
    var headCfg := cfg.(headOnly := true);
    FixedLinesRead(lines, n);
    hide Run, HeadText, Values, FixedLines, FieldsOf, FrameBody, Lengths, TransferCodings, HeaderLine,
      ParseRequestLine, FinishHeaders, WithFields, AfterStart, Ascii, Decimal, ContentLength, Section, HostThere;
    var s := HeadFramed(cfg, start, FixedLines(lines, n), body + rest);
    FixedFields(s.message, lines, n);
    FixedBy(headCfg, s.message, n);
    head := HeadMade(headCfg, s);
    LongRefused(cfg, s, n);
    HeadRun(cfg, start, FixedLines(lines, n), body + rest);
    FixedAgrees(n, body + rest);
    Parts(body + rest, body, rest);
  }

  lemma LongRefused(cfg: Config, s: State, n: nat)
    requires s.Active? && !cfg.headOnly && n > cfg.options.maxBody
    requires Lengths(s.message.headers) == Some([n]) && TransferCodings(s.message.headers) == [] && HostThere(s.message)
    ensures FinishHeaders(cfg, s) == Failed(BodyTooLarge)
  {
    FixedBy(cfg, s.message, n);
    hide FrameBody;
  }

  /** The limits a parser has unless it is given others. */
  const DEFAULT := Config(RequestMode, Options(8 * 1024, 64 * 1024, 8 * 1024 * 1024), false)

  /** One byte more than the default bound, with nothing but its length in the head. */
  lemma EightMegabytes(body: Bytes, rest: Bytes) returns (head: State)
    requires |body| == 8388609
    ensures var lines := [FieldLine(ContentLength(), Decimal(8388609))];
            var text := HeadText(Ascii("POST / HTTP/1.0"), lines) + (body + rest);
            && Run(Decoder(DEFAULT.(headOnly := true)), Cursor(INITIAL, text)) == Cursor(head, body + rest)
            && Run(Decoder(DEFAULT), Cursor(INITIAL, text)).state == Failed(BodyTooLarge)
    ensures AtBody(head) && EndsWith(Run(BODY, Cursor(StartBody(head), body + rest)), body, rest)
  {
    var n := 8388609;
    var start := Ascii("POST / HTTP/1.0");
    PlainRequest();
    FixedLinesRead([], n);
    assert FixedLines([], n) == [FieldLine(ContentLength(), Decimal(n))];
    ShortSection(n);
    hide Run, Section, WholeLine, ParseRequestLine, Decimal, HeadText, HeaderLine;
    head := LongBodyStreams(DEFAULT, start, [], body, rest);
  }

  lemma PlainRequest()
    ensures var start := Ascii("POST / HTTP/1.0");
            && WholeLine(start) && |start| == 15
            && ParseRequestLine(start) == Some(StartLine.Request(Ascii("POST"), Ascii("/"), Http10))
  {
    var start := Ascii("POST / HTTP/1.0");
    assert CR !in start;
    NoLineEnd(start);
    AsciiToken("POST");
    assert start == Ascii("POST") + [SP] + Ascii("/") + [SP] + VersionText(Http10);
    assert SP !in Ascii("/");
    hide Ascii, ParseRequestLine, WholeLine;
    RequestLineIff(start, Ascii("POST"), Ascii("/"), Http10);
  }

  lemma ShortSection(n: nat)
    requires n == 8388609
    ensures |Section([FieldLine(ContentLength(), Decimal(n))])| <= 64 * 1024
  {
    DigitsBounded(n, 7);
    var line: Bytes := FieldLine(ContentLength(), Decimal(n));
    var one: seq<Bytes> := [line];
    assert one[1..] == [];
    hide Decimal;
    assert |line| == 16 + |Decimal(n)|;
    assert Section([line]) == line + CRLF + CRLF;
  }

  function TenTo(k: nat): nat { if k == 0 then 1 else 10 * TenTo(k - 1) }

  lemma {:induction false} DigitsBounded(n: nat, k: nat)
    requires k > 0 && n < TenTo(k)
    ensures |Decimal(n)| <= k
    decreases k
  {
    if n >= 10 {
      assert TenTo(k - 1) > n / 10;
      assert k > 1 by { assert TenTo(0) == 1; }
      DigitsBounded(n / 10, k - 1);
    }
  }
}
