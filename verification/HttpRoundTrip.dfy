/** Whole requests written out and read back by src/http/http_parser.cpp. */
module HttpRoundTrip {
  import opened Bytes
  import opened Incremental
  import opened HttpText
  import opened HttpDecoder
  import opened HttpGrammar
  import opened BodyAgreement
  import opened ChunkedCoding
  import opened DecimalText

  lemma PlainText(s: Bytes)
    requires s != [] && forall c | c in s :: c != ',' as int && !IsOws(c)
    ensures TrimOws(s) == s && SplitCommas(s) == [s]
  {
    assert forall i | 0 <= i < |s| :: s[i] in s;
    FoundByte(s, ',' as int);
  }

  lemma DecimalReads(n: nat)
    requires n < TWO_64
    ensures SplitCommas(Decimal(n)) == [Decimal(n)] && ParseU64(10, Decimal(n)) == Some(n)
            && TrimOws(Decimal(n)) == Decimal(n)
  {
    DecimalValue(n);
    PlainText(Decimal(n));
    hide Decimal, Numeral;
  }

  lemma NoLineEnd(line: Bytes)
    requires CR !in line
    ensures WholeLine(line)
  {
    var text := line + CRLF;
    forall j: nat | j < |line| ensures !OccursAt(text, CRLF, j) {
      assert text[j] == line[j] && line[j] in line;
      assert j + 2 <= |text| ==> text[j..j + 2][0] == line[j];
    }
    assert text[|line|..|line| + 2] == CRLF;
    FindIs(text, CRLF, |line|);
  }

  /** A field written as name, colon, space and value. */
  function FieldLine(name: Bytes, value: Bytes): Bytes { name + [':' as int, SP] + value }

  lemma FieldLineReads(name: Bytes, value: Bytes)
    requires IsToken(name) && CR !in name && CR !in value && TrimOws(value) == value
    ensures HeaderLine(FieldLine(name, value)) && ParseHeaderLine(FieldLine(name, value)) == Some(Field(name, value))
  {
    var line := FieldLine(name, value);
    NoLineEnd(line);
    assert line[..|name| + 1] == name + [':' as int];
    assert line[|name| + 1..] == [SP] + value;
    assert ([SP] + value)[1..] == value;
    assert TrimOws([SP] + value) == TrimOws(value) by { assert IsOws(([SP] + value)[0]); }
    hide TrimOws, IsToken, ParseHeaderLine;
    HeaderLineIff(line, name, value);
  }

  lemma {:induction false} ValuesAppend(a: seq<Field>, b: seq<Field>, name: Bytes)
    ensures Values(a + b, name) == Values(a, name) + Values(b, name)
    decreases |a|
  {
    hide SameName;
    if a == [] {
      assert a + b == b;
    } else {
      ValuesAppend(a[1..], b, name);
      assert (a + b)[1..] == a[1..] + b && (a + b)[0] == a[0];
      var first := if SameName(a[0].name, name) then [a[0].value] else [];
      Reassociate(first, Values(a[1..], name), Values(b, name));
    }
  }

  lemma {:induction false} FieldsAppend(lines: seq<Bytes>, last: Bytes)
    requires HeaderLines(lines) && HeaderLine(last)
    ensures HeaderLines(lines + [last]) && FieldsOf(lines + [last]) == FieldsOf(lines) + [ParseHeaderLine(last).value]
    decreases |lines|
  {
    hide HeaderLine, ParseHeaderLine;
    var all := lines + [last];
    assert forall l | l in all :: l in lines || l == last;
    if lines == [] {
      assert all == [last] && all[1..] == [];
    } else {
      assert forall l | l in lines[1..] :: l in lines;
      FieldsAppend(lines[1..], last);
      assert all[1..] == lines[1..] + [last] && all[0] == lines[0];
    }
  }

  function ContentLength(): Bytes { Ascii("Content-Length") }
  function TransferEncoding(): Bytes { Ascii("Transfer-Encoding") }
  function ChunkedWord(): Bytes { Ascii("chunked") }

  predicate NameChar(c: char) { 'a' <= c <= 'z' || 'A' <= c <= 'Z' || c == '-' }

  lemma AsciiToken(s: string)
    requires s != "" && forall c | c in s :: NameChar(c)
    ensures IsToken(Ascii(s)) && CR !in Ascii(s)
  {
    var t := Ascii(s);
    assert Ascii("!#$%&'*+-.^_`|~")[8] == '-' as int;
    forall i | 0 <= i < |t| ensures IsTokenChar(t[i]) && t[i] != CR {
      assert NameChar(s[i]);
    }
  }

  lemma NamesDiffer()
    ensures !SameName(ContentLength(), TransferEncoding())
    ensures !SameName(ContentLength(), Ascii("Host")) && !SameName(TransferEncoding(), Ascii("Host"))
    ensures IsToken(ContentLength()) && IsToken(TransferEncoding()) && CR !in ContentLength()
            && CR !in TransferEncoding()
  {
    AsciiToken("Content-Length");
    AsciiToken("Transfer-Encoding");
    assert |Lower(ContentLength())| == 14 && |Lower(TransferEncoding())| == 17 && |Lower(Ascii("Host"))| == 4;
  }

  /** Header lines that say nothing of the body, with the Host field where it is required. */
  predicate Bare(start: StartLine, lines: seq<Bytes>) {
    && HeaderLines(lines) && start.Request?
    && Values(FieldsOf(lines), ContentLength()) == [] && Values(FieldsOf(lines), TransferEncoding()) == []
    && (start.version == Http11 ==> Contains(FieldsOf(lines), Ascii("Host")))
  }

  lemma LastField(lines: seq<Bytes>, f: Field, name: Bytes)
    requires HeaderLines(lines)
    ensures Values(FieldsOf(lines) + [f], name)
            == Values(FieldsOf(lines), name) + if SameName(f.name, name) then [f.value] else []
  {
    hide SameName;
    ValuesAppend(FieldsOf(lines), [f], name);
    assert Values([f], name) == if SameName(f.name, name) then [f.value] else [];
  }

  lemma OneLength(n: nat)
    requires n < TWO_64
    ensures AllU64(Elements([Decimal(n)])) == Some([n])
  {
    DecimalReads(n);
    hide SplitCommas, ParseU64, Decimal;
    var one := [Decimal(n)];
    assert one[1..] == [];
    assert Elements(one) == [Decimal(n)] + Elements([]) == one;
    assert AllU64(one[1..]) == Some([]) && [n] + [] == [n];
  }

  lemma LowerChunked()
    ensures Lower(ChunkedWord()) == ChunkedWord()
    ensures forall c | c in ChunkedWord() :: c != ',' as int && c != ';' as int && !IsOws(c)
  {
  }

  lemma OneCoding()
    ensures Codings(Elements([ChunkedWord()])) == [ChunkedWord()]
  {
    LowerChunked();
    PlainText(ChunkedWord());
    NoParameters(ChunkedWord());
    hide SplitCommas, IndexOf, Lower, ChunkedWord, TrimOws, StripParameters;
    OneElement(ChunkedWord());
  }

  lemma OneElement(word: Bytes)
    requires SplitCommas(word) == [word] && StripParameters(Lower(word)) == word && word != []
    ensures Elements([word]) == [word] && Codings([word]) == [word]
  {
    hide SplitCommas, Lower, StripParameters;
    assert [word][1..] == [] && [word] + [] == [word];
  }

  lemma NoParameters(word: Bytes)
    requires Lower(word) == word && (forall c | c in word :: c != ';' as int) && TrimOws(word) == word
    ensures StripParameters(Lower(word)) == word
  {
    FoundByte(word, ';' as int);
    assert ';' as int !in word;
    hide IndexOf, Lower, TrimOws;
  }

  /** The framing decision on a message without body fields, with Content-Length, and with chunked. */
  lemma FramedNone(cfg: Config, m: Message, lines: seq<Bytes>)
    requires Bare(m.start, lines) && m.headers == FieldsOf(lines)
    ensures FrameBody(cfg, m) == NoBody && Lengths(m.headers) == Some([])
  {
    hide Ascii, Values;
  }

  lemma FramedFixed(cfg: Config, m: Message, lines: seq<Bytes>, n: nat)
    requires Bare(m.start, lines) && m.headers == FieldsOf(lines) + [Field(ContentLength(), Decimal(n))]
    requires 0 < n <= cfg.options.maxBody && n < TWO_64
    ensures FrameBody(cfg, m) == Fixed(n) && Lengths(m.headers) == Some([n])
  {
    FixedFields(m, lines, n);
    hide *;
    FixedBy(cfg, m, n);
  }

  /** What the added field makes of the framing fields. */
  lemma FixedFields(m: Message, lines: seq<Bytes>, n: nat)
    requires Bare(m.start, lines) && m.headers == FieldsOf(lines) + [Field(ContentLength(), Decimal(n))] && n < TWO_64
    ensures Lengths(m.headers) == Some([n]) && TransferCodings(m.headers) == [] && HostThere(m)
  {
    hide Decimal, SplitCommas, TrimOws, IndexOf, Lower;
    NamesDiffer();
    var f := Field(ContentLength(), Decimal(n));
    LastField(lines, f, ContentLength());
    LastField(lines, f, TransferEncoding());
    LastField(lines, f, Ascii("Host"));
    OneLength(n);
    hide Ascii, Values, SameName, Elements, AllU64, FieldsOf, HeaderLine;
    assert Elements([]) == [] && Codings([]) == [];
    assert Values(m.headers, ContentLength()) == [Decimal(n)];
    assert Values(m.headers, TransferEncoding()) == [];
    assert Contains(FieldsOf(lines), Ascii("Host")) ==> Contains(m.headers, Ascii("Host"));
  }

  predicate HostThere(m: Message) {
    m.start.Request? && (m.start.version == Http11 ==> Contains(m.headers, Ascii("Host")))
  }

  lemma FixedBy(cfg: Config, m: Message, n: nat)
    requires Lengths(m.headers) == Some([n]) && TransferCodings(m.headers) == [] && HostThere(m) && n > 0
    ensures FrameBody(cfg, m) == if !cfg.headOnly && n > cfg.options.maxBody then Refused(BodyTooLarge) else Fixed(n)
  {
    hide Lengths, TransferCodings, Contains, Ascii;
  }

  lemma FramedChunked(cfg: Config, m: Message, lines: seq<Bytes>)
    requires Bare(m.start, lines) && m.headers == FieldsOf(lines) + [Field(TransferEncoding(), ChunkedWord())]
    ensures FrameBody(cfg, m) == Chunked && Lengths(m.headers) == Some([])
  {
    ChunkedFields(m, lines);
    hide *;
    ChunkedBy(cfg, m);
  }

  lemma ChunkedFields(m: Message, lines: seq<Bytes>)
    requires Bare(m.start, lines) && m.headers == FieldsOf(lines) + [Field(TransferEncoding(), ChunkedWord())]
    ensures Lengths(m.headers) == Some([]) && TransferCodings(m.headers) == [ChunkedWord()] && HostThere(m)
  {
    NamesDiffer();
    var f := Field(TransferEncoding(), ChunkedWord());
    LastField(lines, f, ContentLength());
    LastField(lines, f, TransferEncoding());
    LastField(lines, f, Ascii("Host"));
    OneCoding();
    assert AllU64(Elements([])) == Some([]);
    hide AllU64, Elements, ChunkedWord;
    hide Ascii, Values, SameName, Codings, FieldsOf, HeaderLine;
    assert Values(m.headers, ContentLength()) == [];
    assert Values(m.headers, TransferEncoding()) == [ChunkedWord()];
    assert Contains(FieldsOf(lines), Ascii("Host")) ==> Contains(m.headers, Ascii("Host"));
  }

  lemma ChunkedBy(cfg: Config, m: Message)
    requires Lengths(m.headers) == Some([]) && TransferCodings(m.headers) == [ChunkedWord()] && HostThere(m)
    ensures FrameBody(cfg, m) == Chunked
  {
    hide Lengths, TransferCodings, Contains, Ascii;
  }

  /** A request head within the bounds: start line, header lines and the empty line. */
  function HeadText(start: Bytes, lines: seq<Bytes>): Bytes { start + CRLF + Section(lines) }

  predicate SoundHead(cfg: Config, start: Bytes, lines: seq<Bytes>) {
    && |start| <= cfg.options.maxStartLine && WholeLine(start) && ParseStartLine(cfg.mode, start).Some?
    && HeaderLines(lines) && |Section(lines)| <= cfg.options.maxHeaders
  }

  predicate HeadFits(cfg: Config, start: Bytes, lines: seq<Bytes>) {
    cfg.mode == RequestMode && !cfg.headOnly && SoundHead(cfg, start, lines)
  }

  lemma HeadRun(cfg: Config, start: Bytes, lines: seq<Bytes>, rest: Bytes)
    requires SoundHead(cfg, start, lines)
    ensures Run(Decoder(cfg), Cursor(INITIAL, HeadText(start, lines) + rest))
            == Onward(cfg, FinishHeaders(cfg, WithFields(AfterStart(cfg, start), lines)), rest)
  {
    hide WholeLine, ParseStartLine, FinishHeaders, Run, Section, HeaderLines, Onward;
    StartStep(cfg, start, Section(lines) + rest);
    SectionReads(cfg, AfterStart(cfg, start), lines, rest);
    Reassociate(start + CRLF, Section(lines), rest);
  }

  /** The parser has finished with this message and left `rest`. */
  predicate Reads(end: Cursor<State>, start: StartLine, headers: seq<Field>, body: Bytes, rest: Bytes) {
    && Completed(end) && end.unread == rest
    && end.state.message.start == start && end.state.message.headers == headers && end.state.message.body == body
  }

  lemma LastLine(lines: seq<Bytes>, name: Bytes, value: Bytes)
    requires HeaderLines(lines) && IsToken(name) && CR !in name && CR !in value && TrimOws(value) == value
    ensures HeaderLines(lines + [FieldLine(name, value)])
    ensures FieldsOf(lines + [FieldLine(name, value)]) == FieldsOf(lines) + [Field(name, value)]
  {
    hide IsToken, TrimOws, HeaderLine, ParseHeaderLine;
    FieldLineReads(name, value);
    FieldsAppend(lines, FieldLine(name, value));
  }

  /** A request without body fields ends at its empty line. */
  lemma BodylessRequestReads(cfg: Config, start: Bytes, lines: seq<Bytes>, rest: Bytes)
    requires HeadFits(cfg, start, lines) && Bare(ParseRequestLine(start).value, lines)
    ensures Reads(Run(Decoder(cfg), Cursor(INITIAL, HeadText(start, lines) + rest)),
                  ParseRequestLine(start).value, FieldsOf(lines), [], rest)
  {
    HeadRun(cfg, start, lines, rest);
    var s := WithFields(AfterStart(cfg, start), lines);
    assert [] + FieldsOf(lines) == FieldsOf(lines);
    FramedNone(cfg, s.message, lines);
    hide Run, FrameBody, Lengths, Section, ParseRequestLine, WholeLine, HeaderLines, Bare;
  }

  function FixedLines(lines: seq<Bytes>, n: nat): seq<Bytes> { lines + [FieldLine(ContentLength(), Decimal(n))] }

  function FixedHeaders(lines: seq<Bytes>, n: nat): seq<Field>
    requires HeaderLines(lines)
  {
    FieldsOf(lines) + [Field(ContentLength(), Decimal(n))]
  }

  lemma FixedLinesRead(lines: seq<Bytes>, n: nat)
    requires HeaderLines(lines) && n < TWO_64
    ensures HeaderLines(FixedLines(lines, n)) && FieldsOf(FixedLines(lines, n)) == FixedHeaders(lines, n)
  {
    hide Decimal, ContentLength, TrimOws, IsToken, Digits, Lower, SplitCommas, ParseU64, Ascii;
    NamesDiffer();
    DecimalReads(n);
    DecimalPlain(n);
    LastLine(lines, ContentLength(), Decimal(n));
  }

  /** A request with a body of n bytes, announced by Content-Length, reads back whatever follows it. */
  lemma FixedRequestReads(cfg: Config, start: Bytes, lines: seq<Bytes>, body: Bytes, rest: Bytes)
    requires HeaderLines(lines) && 0 < |body| <= cfg.options.maxBody && |body| < TWO_64
    requires HeadFits(cfg, start, FixedLines(lines, |body|)) && Bare(ParseRequestLine(start).value, lines)
    ensures Reads(Run(Decoder(cfg), Cursor(INITIAL, HeadText(start, FixedLines(lines, |body|)) + (body + rest))),
                  ParseRequestLine(start).value, FixedHeaders(lines, |body|), body, rest)
  {
    var u := FixedStart(cfg, start, lines, |body|);
    FixedLinesRead(lines, |body|);
    hide Run, Section, ParseRequestLine, WholeLine, HeaderLines, FixedLines, FixedHeaders, Bare, FinishHeaders,
      HeadText, WithFields, AfterStart;
    HeadRun(cfg, start, FixedLines(lines, |body|), body + rest);
    FixedBodyReads(cfg, u, body, rest);
  }

  /** The parser behind the head of such a request. */
  lemma FixedStart(cfg: Config, start: Bytes, lines: seq<Bytes>, n: nat) returns (u: State)
    requires HeaderLines(lines) && 0 < n <= cfg.options.maxBody && n < TWO_64
    requires HeadFits(cfg, start, FixedLines(lines, n)) && Bare(ParseRequestLine(start).value, lines)
    ensures u == FinishHeaders(cfg, WithFields(AfterStart(cfg, start), FixedLines(lines, n)))
    ensures u.Active? && u.phase == FixedBody && u.fixedBodyBytes == n
    ensures u.message.start == ParseRequestLine(start).value && u.message.headers == FixedHeaders(lines, n)
  {
    var s := WithFields(AfterStart(cfg, start), FixedLines(lines, n));
    FixedLinesRead(lines, n);
    hide Section, ParseRequestLine, WholeLine, HeaderLines, FixedLines, FixedHeaders, Bare, FinishHeaders, FieldsOf;
    assert [] + FixedHeaders(lines, n) == FixedHeaders(lines, n);
    u := FixedHead(cfg, s, lines, n);
  }

  lemma FixedHead(cfg: Config, s: State, lines: seq<Bytes>, n: nat) returns (u: State)
    requires s.Active? && Bare(s.message.start, lines) && !cfg.headOnly && 0 < n <= cfg.options.maxBody && n < TWO_64
    requires s.message.headers == FixedHeaders(lines, n)
    ensures u == FinishHeaders(cfg, s)
            == s.(phase := FixedBody, fixedBodyBytes := n, message := s.message.(contentLength := Some(n)))
  {
    FramedFixed(cfg, s.message, lines, n);
    hide FrameBody, Lengths, Bare;
    u := FinishHeaders(cfg, s);
  }

  lemma DecimalPlain(n: nat)
    ensures CR !in Decimal(n)
  {
    DecimalValue(n);
  }

  lemma FixedBodyReads(cfg: Config, u: State, body: Bytes, rest: Bytes)
    requires !cfg.headOnly
    requires u.Active? && u.phase == FixedBody && u.fixedBodyBytes == |body|
    ensures Run(Decoder(cfg), Cursor(u, body + rest))
            == Cursor(u.(phase := Complete, message := u.message.(body := body)), rest)
  {
    Parts(body + rest, body, rest);
  }

  function ChunkedLines(lines: seq<Bytes>): seq<Bytes> { lines + [FieldLine(TransferEncoding(), ChunkedWord())] }

  function ChunkedHeaders(lines: seq<Bytes>): seq<Field>
    requires HeaderLines(lines)
  {
    FieldsOf(lines) + [Field(TransferEncoding(), ChunkedWord())]
  }

  lemma ChunkedLinesRead(lines: seq<Bytes>)
    requires HeaderLines(lines)
    ensures HeaderLines(ChunkedLines(lines)) && FieldsOf(ChunkedLines(lines)) == ChunkedHeaders(lines)
  {
    AsciiToken("chunked");
    hide TransferEncoding, TrimOws, IsToken, Lower, SplitCommas, Ascii;
    NamesDiffer();
    LowerChunked();
    PlainText(ChunkedWord());
    LastLine(lines, TransferEncoding(), ChunkedWord());
  }

  /** A chunked request reads back as the concatenation of its chunks. */
  lemma ChunkedRequestReads(cfg: Config, start: Bytes, lines: seq<Bytes>, chunks: seq<Bytes>, rest: Bytes)
    requires HeaderLines(lines) && cfg.options.maxBody < TWO_64 && |Concat(chunks)| <= cfg.options.maxBody
    requires forall i | 0 <= i < |chunks| :: chunks[i] != []
    requires HeadFits(cfg, start, ChunkedLines(lines)) && Bare(ParseRequestLine(start).value, lines)
    ensures var text := HeadText(start, ChunkedLines(lines)) + (EncodeChunks(chunks) + rest);
            Reads(Run(Decoder(cfg), Cursor(INITIAL, text)),
                  ParseRequestLine(start).value, ChunkedHeaders(lines), Concat(chunks), rest)
  {
    var all := ChunkedLines(lines);
    var s := WithFields(AfterStart(cfg, start), all);
    ChunkedLinesRead(lines);
    assert [] + FieldsOf(all) == FieldsOf(all);
    hide Run, Section, ParseRequestLine, WholeLine, HeaderLines, ChunkedLines, FieldsOf, Bare, FinishHeaders,
      ChunkedWord, TransferEncoding, EncodeChunks, HeadText;
    HeadRun(cfg, start, all, EncodeChunks(chunks) + rest);
    var u := ChunkedHead(cfg, s, lines);
    BufferedRoundTrip(cfg, u, chunks, rest);
    assert [] + Concat(chunks) == Concat(chunks);
  }

  lemma ChunkedHead(cfg: Config, s: State, lines: seq<Bytes>) returns (u: State)
    requires s.Active? && Bare(s.message.start, lines) && s.message.body == [] && s.decodedBytes == 0 && !cfg.headOnly
    requires s.message.headers == ChunkedHeaders(lines)
    ensures u == FinishHeaders(cfg, s) == s.(phase := ChunkSize, message := s.message.(chunked := true))
  {
    FramedChunked(cfg, s.message, lines);
    hide FrameBody, Lengths, Bare;
    u := FinishHeaders(cfg, s);
  }
}
