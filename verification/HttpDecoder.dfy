/** src/http/http_parser.cpp as a step function: one start line, header line, chunk or trailer a step. */
module HttpDecoder {
  import opened Bytes
  import opened Incremental
  import opened HttpText

  datatype Mode = RequestMode | ResponseMode

  datatype Options = Options(maxStartLine: nat, maxHeaders: nat, maxBody: nat)

  /** With `headOnly` the decoder stops behind the header section. */
  datatype Config = Config(mode: Mode, options: Options, headOnly: bool)

  datatype ParseError = BadStartLine | BadHeader | BadMessageFraming | HeaderTooLarge | BodyTooLarge

  datatype Phase = StartLine | Headers | FixedBody | ChunkSize | ChunkData | Trailers | Complete

  datatype Message = Message(
    start: StartLine,
    headers: seq<Field>,
    trailers: seq<Field>,
    body: Bytes,
    contentLength: Option<nat>,
    chunked: bool)

  /** What a caller can tell of a parser; a refused message shows its error only. */
  datatype State =
    | Failed(error: ParseError)
    | Active(phase: Phase, message: Message, headerBytes: nat, fixedBodyBytes: nat, chunkSize: nat, decodedBytes: nat)

  const NO_MESSAGE := Message(Unread, [], [], [], None, false)
  const INITIAL := Active(StartLine, NO_MESSAGE, 0, 0, 0, 0)

  function ParseStartLine(mode: Mode, line: Bytes): Option<StartLine> {
    if mode == RequestMode then ParseRequestLine(line) else ParseResponseLine(line)
  }

  function StepStartLine(cfg: Config, s: State, b: Bytes): Outcome<State>
    requires s.Active?
  {
    var crlf := Find(b, CRLF);
    if crlf.None? then
      if |b| > cfg.options.maxStartLine then Halt(Failed(BadStartLine), 0) else Wait
    else if crlf.value > cfg.options.maxStartLine then Halt(Failed(BadStartLine), 0)
    else
      var line := ParseStartLine(cfg.mode, b[..crlf.value]);
      if line.None? then Halt(Failed(BadStartLine), 0)
      else Advance(s.(message := s.message.(start := line.value), phase := Headers), crlf.value + 2)
  }

  /** How the header section says the body is delimited (section 6.3 of RFC 9112). */
  datatype Framing = Refused(error: ParseError) | NoBody | Fixed(length: nat) | Chunked

  function AllU64(texts: seq<Bytes>): Option<seq<nat>> {
    if texts == [] then Some([])
    else
      var first, rest := ParseU64(10, texts[0]), AllU64(texts[1..]);
      if first.None? || rest.None? then None else Some([first.value] + rest.value)
  }

  function StripParameters(coding: Bytes): Bytes {
    var semicolon := IndexOf(coding, ';' as int);
    if semicolon.None? then coding else TrimRight(coding[..semicolon.value])
  }

  function Codings(elements: seq<Bytes>): seq<Bytes> {
    if elements == [] then []
    else
      var coding := StripParameters(Lower(elements[0]));
      (if coding == [] then [] else [coding]) + Codings(elements[1..])
  }

  function Lengths(headers: seq<Field>): Option<seq<nat>> {
    AllU64(Elements(Values(headers, Ascii("Content-Length"))))
  }

  function TransferCodings(headers: seq<Field>): seq<Bytes> {
    Codings(Elements(Values(headers, Ascii("Transfer-Encoding"))))
  }

  predicate StatusAllowsBody(status: int) { status >= 200 && status !in {204, 205, 304} }

  function FrameBody(cfg: Config, message: Message): Framing {
    var lengths := Lengths(message.headers);
    var codings := TransferCodings(message.headers);
    if lengths.None? || exists l | l in lengths.value :: l != lengths.value[0] then Refused(BadMessageFraming)
    else if codings != [] && codings[|codings| - 1] != Ascii("chunked") then Refused(BadMessageFraming)
    else if codings != [] && lengths.value != [] then Refused(BadMessageFraming)
    else if message.start.Response? && !StatusAllowsBody(message.start.status) then NoBody
    else if message.start.Request? && message.start.version == Http11 && !Contains(message.headers, Ascii("Host")) then
      Refused(BadHeader)
    else if codings != [] then Chunked
    else if lengths.value == [] || lengths.value[0] == 0 then NoBody
    else if !cfg.headOnly && lengths.value[0] > cfg.options.maxBody then Refused(BodyTooLarge)
    else Fixed(lengths.value[0])
  }

  /** finish_headers: the state behind the empty line. */
  function FinishHeaders(cfg: Config, s: State): State
    requires s.Active?
  {
    var lengths := Lengths(s.message.headers);
    var known := if lengths.Some? && lengths.value != [] then Some(lengths.value[0]) else None;
    match FrameBody(cfg, s.message)
    case Refused(e) => Failed(e)
    case NoBody => s.(phase := Complete, message := s.message.(contentLength := known))
    case Fixed(n) => s.(phase := FixedBody, fixedBodyBytes := n, message := s.message.(contentLength := known))
    case Chunked => s.(phase := ChunkSize, message := s.message.(chunked := true))
  }

  function StepHeaders(cfg: Config, s: State, b: Bytes): Outcome<State>
    requires s.Active?
  {
    var crlf := Find(b, CRLF);
    if crlf.None? then
      if s.headerBytes + |b| > cfg.options.maxHeaders then Halt(Failed(HeaderTooLarge), 0) else Wait
    else
      var t := s.(headerBytes := s.headerBytes + crlf.value + 2);
      if t.headerBytes > cfg.options.maxHeaders then Halt(Failed(HeaderTooLarge), 0)
      else if crlf.value == 0 then
        var u := FinishHeaders(cfg, t);
        if u.Failed? || u.phase == Complete || cfg.headOnly then Halt(u, 2) else Advance(u, 2)
      else
        var field := ParseHeaderLine(b[..crlf.value]);
        if field.None? then Halt(Failed(BadHeader), 0)
        else Advance(t.(message := t.message.(headers := t.message.headers + [field.value])), crlf.value + 2)
  }

  function StepFixedBody(s: State, b: Bytes): Outcome<State>
    requires s.Active?
  {
    if |b| < s.fixedBodyBytes then Wait
    else Halt(s.(phase := Complete, message := s.message.(body := b[..s.fixedBodyBytes])), s.fixedBodyBytes)
  }

  /** The size of a chunk-size line with its extensions checked; None is bad_message_framing. */
  function ParseChunkLine(line: Bytes): Option<nat> {
    var semicolon := IndexOf(line, ';' as int);
    if semicolon.Some? && !ValidChunkExtensions(line[semicolon.value..]) then None
    else ParseU64(16, if semicolon.None? then line else line[..semicolon.value])
  }

  function StepChunkSize(cfg: Config, s: State, b: Bytes): Outcome<State>
    requires s.Active?
  {
    var crlf := Find(b, CRLF);
    if crlf.None? then Wait
    else
      var size := ParseChunkLine(b[..crlf.value]);
      if size.None? then Halt(Failed(BadMessageFraming), 0)
      else if size.value == 0 then Advance(s.(chunkSize := 0, phase := Trailers), crlf.value + 2)
      else if s.decodedBytes > cfg.options.maxBody || size.value > cfg.options.maxBody - s.decodedBytes then
        Halt(Failed(BodyTooLarge), crlf.value + 2)
      else Advance(s.(chunkSize := size.value, phase := ChunkData), crlf.value + 2)
  }

  function StepChunkData(s: State, b: Bytes): Outcome<State>
    requires s.Active?
  {
    var n := s.chunkSize;
    if |b| < n + 2 then Wait
    else if b[n] != CR || b[n + 1] != LF then Halt(Failed(BadMessageFraming), 0)
    else
      Advance(s.(message := s.message.(body := s.message.body + b[..n]), decodedBytes := s.decodedBytes + n,
        phase := ChunkSize), n + 2)
  }

  /** A trailer line; a framing field or a malformed line is bad_header. */
  function ParseTrailerLine(line: Bytes): Option<Field> {
    var colon := IndexOf(line, ':' as int);
    if colon.Some? && ForbiddenTrailer(line[..colon.value]) then None else ParseHeaderLine(line)
  }

  function StepTrailers(s: State, b: Bytes): Outcome<State>
    requires s.Active?
  {
    var crlf := Find(b, CRLF);
    if crlf.None? then Wait
    else if crlf.value == 0 then Halt(s.(phase := Complete), 2)
    else
      var field := ParseTrailerLine(b[..crlf.value]);
      if field.None? then Halt(Failed(BadHeader), 0)
      else Advance(s.(message := s.message.(trailers := s.message.trailers + [field.value])), crlf.value + 2)
  }

  function StepHttp(cfg: Config, s: State, b: Bytes): Outcome<State> {
    if s.Failed? then Wait
    else match s.phase
      case StartLine => StepStartLine(cfg, s, b)
      case Headers => StepHeaders(cfg, s, b)
      case FixedBody => if cfg.headOnly then Wait else StepFixedBody(s, b)
      case ChunkSize => if cfg.headOnly then Wait else StepChunkSize(cfg, s, b)
      case ChunkData => if cfg.headOnly then Wait else StepChunkData(s, b)
      case Trailers => if cfg.headOnly then Wait else StepTrailers(s, b)
      case Complete => Wait
  }

  function Decoder(cfg: Config): Step<State> { (s, b) => StepHttp(cfg, s, b) }

  /** The one input on which premature refusal matters: an acceptable start line of exactly the bound. */
  predicate StartLineAtBound(cfg: Config, text: Bytes) {
    && Find(text, CRLF) == Some(cfg.options.maxStartLine)
    && ParseStartLine(cfg.mode, text[..cfg.options.maxStartLine]).Some?
  }

  predicate NotAtBound(cfg: Config, s: State, text: Bytes) {
    s.Active? && s.phase == StartLine ==> !StartLineAtBound(cfg, text)
  }
}
