/** The parser object of src/http/http_parser.cpp, reading from a connection buffer. */
module HttpParsing {
  import opened Bytes
  import opened Incremental
  import opened HttpText
  import opened HttpDecoder
  import opened NetBuffer

  datatype ParseStatus = Incomplete | Done | Error

  /** What one step leaves of a state and its unread bytes. */
  function After(o: Outcome<State>, s: State, b: Bytes): Cursor<State>
    requires o.Wait? || o.used <= |b|
  {
    if o.Wait? then Cursor(s, b) else Cursor(o.next, b[o.used..])
  }

  lemma StepFits(cfg: Config, s: State, b: Bytes)
    ensures var o := StepHttp(cfg, s, b);
            && (!o.Wait? ==> o.used <= |b|)
            && (o.Advance? ==> 0 < o.used && o.next.Active?)
            && (o.Halt? ==>
                  StepHttp(cfg, o.next, b[o.used..]).Wait?
                  && (o.next.Failed? || o.next.phase == Complete || cfg.headOnly))
            && (o.Halt? && o.used == 0 && o.next.Active? ==> s.Active? && s.phase == FixedBody)
  {
    hide ParseRequestLine, ParseResponseLine, ParseHeaderLine, ParseChunkLine, ParseTrailerLine;
  }

  /** One more step at the front of a run. */
  lemma RunOn(cfg: Config, s: State, b: Bytes)
    ensures var o := StepHttp(cfg, s, b);
            && (o.Wait? || o.used <= |b|)
            && Run(Decoder(cfg), Cursor(s, b)) == Run(Decoder(cfg), After(o, s, b))
  {
    StepFits(cfg, s, b);
  }

  /** A state that waits or is finished is the end of its run. */
  lemma RunParked(cfg: Config, s: State, b: Bytes)
    ensures cfg.headOnly && s.Active? && s.phase !in {StartLine, Headers} ==> StepHttp(cfg, s, b).Wait?
    ensures s.Failed? || s.phase == Complete ==> StepHttp(cfg, s, b).Wait?
    ensures StepHttp(cfg, s, b).Wait? ==> Run(Decoder(cfg), Cursor(s, b)) == Cursor(s, b)
  {
  }

  lemma FixedBodyStep(cfg: Config, s: State, b: Bytes)
    requires s.Active? && s.phase == FixedBody && !cfg.headOnly
    ensures StepHttp(cfg, s, b) == StepFixedBody(s, b)
  {
  }

  lemma ChunkDataStep(cfg: Config, s: State, b: Bytes)
    requires s.Active? && s.phase == ChunkData && !cfg.headOnly
    ensures var n, o := s.chunkSize, StepHttp(cfg, s, b);
            if |b| < n + 2 then o == Wait
            else if b[n] != CR || b[n + 1] != LF then o == Halt(Failed(BadMessageFraming), 0)
            else
              o == Advance(s.(message := s.message.(body := s.message.body + b[..n]),
                decodedBytes := s.decodedBytes + n, phase := ChunkSize), n + 2)
  {
  }

  class HttpParser {
    const options: Options
    var mode: Mode
    var headOnly: bool
    var phase: Phase
    var error: Option<ParseError>
    var message: Message
    var headerBytes: nat
    var fixedBodyBytes: nat
    var currentChunkSize: nat
    var decodedBodyBytes: nat

    function Cfg(): Config
      reads this
    {
      Config(mode, options, headOnly)
    }

    function View(): State
      reads this
    {
      if error.Some? then Failed(error.value)
      else Active(phase, message, headerBytes, fixedBodyBytes, currentChunkSize, decodedBodyBytes)
    }

    constructor (mode: Mode, options: Options)
      ensures this.options == options && this.mode == mode && View() == INITIAL
    {
      this.mode, this.options, headOnly := mode, options, false;
      phase, error, message := StartLine, None, NO_MESSAGE;
      headerBytes, fixedBodyBytes, currentChunkSize, decodedBodyBytes := 0, 0, 0, 0;
    }

    method Reset()
      modifies this
      ensures View() == INITIAL && mode == old(mode)
    {
      phase, error, message, headOnly := StartLine, None, NO_MESSAGE, false;
      headerBytes, fixedBodyBytes, currentChunkSize, decodedBodyBytes := 0, 0, 0, 0;
    }

    /** parse_request and parse_response: everything the buffer allows. */
    method ParseMessage(mode: Mode, buffer: Buffer) returns (status: ParseStatus)
      requires buffer.Valid()
      modifies this, buffer`readerIndex, buffer`writerIndex
      ensures buffer.Valid()
      ensures Cursor(View(), buffer.Contents()) ==
              Run(Decoder(Config(mode, options, false)), old(Cursor(View(), buffer.Contents())))
      ensures status == if View().Failed? then Error else if View().phase == Complete then Done else Incomplete
    {
      this.mode, headOnly := mode, false;
      status := Parse(buffer);
    }

    /** parse_request_head and parse_response_head: up to the empty line. */
    method ParseHead(mode: Mode, buffer: Buffer) returns (status: ParseStatus)
      requires buffer.Valid()
      modifies this, buffer`readerIndex, buffer`writerIndex
      ensures buffer.Valid()
      ensures Cursor(View(), buffer.Contents()) ==
              Run(Decoder(Config(mode, options, true)), old(Cursor(View(), buffer.Contents())))
      ensures status == if View().Failed? then Error
                        else if View().phase in {StartLine, Headers} then Incomplete
                        else Done
    {
      hide StepHttp;
      this.mode, headOnly := mode, true;
      ghost var start := Cursor(View(), buffer.Contents());
      while true
        invariant buffer.Valid() && Cfg() == Config(mode, options, true)
        invariant Run(Decoder(Cfg()), Cursor(View(), buffer.Contents())) == Run(Decoder(Cfg()), start)
        decreases |buffer.Contents()|, if error.Some? then 0 else 1
      {
        ghost var s, b := View(), buffer.Contents();
        RunOn(Cfg(), s, b);
        StepFits(Cfg(), s, b);
        RunParked(Cfg(), s, b);
        if error.Some? {
          return Error;
        }
        if phase != StartLine && phase != Headers {
          return Done;
        }
        var ok: bool;
        if phase == StartLine {
          ok := HandleStartLine(buffer);
        } else {
          ok := HandleHeaders(buffer);
        }
        if !ok {
          RunParked(Cfg(), View(), buffer.Contents());
          return if error.Some? then Error else Incomplete;
        }
      }
    }

    method Parse(buffer: Buffer) returns (status: ParseStatus)
      requires buffer.Valid() && !headOnly
      modifies this, buffer`readerIndex, buffer`writerIndex
      ensures buffer.Valid() && mode == old(mode)
      ensures Cursor(View(), buffer.Contents()) == Run(Decoder(old(Cfg())), old(Cursor(View(), buffer.Contents())))
      ensures status == if View().Failed? then Error else if View().phase == Complete then Done else Incomplete
    {
      hide StepHttp;
      ghost var start := Cursor(View(), buffer.Contents());
      while true
        invariant buffer.Valid() && Cfg() == old(Cfg())
        invariant Run(Decoder(Cfg()), Cursor(View(), buffer.Contents())) == Run(Decoder(Cfg()), start)
        decreases |buffer.Contents()|, if error.Some? || phase == Complete then 0 else 1
      {
        ghost var s, b := View(), buffer.Contents();
        RunOn(Cfg(), s, b);
        StepFits(Cfg(), s, b);
        RunParked(Cfg(), s, b);
        if error.Some? {
          return Error;
        }
        if phase == Complete {
          return Done;
        }
        var ok := TakeStep(buffer);
        if !ok {
          RunParked(Cfg(), View(), buffer.Contents());
          return if error.Some? then Error else Incomplete;
        }
      }
    }

    method TakeStep(buffer: Buffer) returns (ok: bool)
      requires buffer.Valid() && !headOnly && error.None? && phase != Complete
      modifies this, buffer`readerIndex, buffer`writerIndex
      ensures buffer.Valid() && Cfg() == old(Cfg())
      ensures var o := StepHttp(Cfg(), old(View()), old(buffer.Contents()));
              && (o.Wait? || o.used <= |old(buffer.Contents())|)
              && Cursor(View(), buffer.Contents()) == After(o, old(View()), old(buffer.Contents()))
              && (ok <==> !o.Wait? && o.next.Active?)
    {
      hide StepHttp, After;
      match phase {
        case StartLine => ok := HandleStartLine(buffer);
        case Headers => ok := HandleHeaders(buffer);
        case FixedBody => ok := ParseFixedBody(buffer);
        case ChunkSize => ok := ParseChunkSize(buffer);
        case ChunkData => ok := ParseChunkData(buffer);
        case Trailers => ok := ParseTrailer(buffer);
      }
    }

    /** Every handler takes exactly one step; `ok` is false when it waits or refuses. */
    method HandleStartLine(buffer: Buffer) returns (ok: bool)
      requires buffer.Valid() && error.None? && phase == StartLine
      modifies this, buffer`readerIndex, buffer`writerIndex
      ensures buffer.Valid() && Cfg() == old(Cfg())
      ensures var o := StepHttp(Cfg(), old(View()), old(buffer.Contents()));
              && (o.Wait? || o.used <= |old(buffer.Contents())|)
              && Cursor(View(), buffer.Contents()) == After(o, old(View()), old(buffer.Contents()))
              && (ok <==> !o.Wait? && o.next.Active?)
    {
      hide Find, ParseHeaderLine, ParseRequestLine, ParseResponseLine, ParseChunkLine, ParseTrailerLine;
      var crlf := buffer.FindCrlf();
      if crlf.None? {
        if buffer.ReadableBytes() > options.maxStartLine {
          error := Some(BadStartLine);
        }
        return false;
      }
      if crlf.value > options.maxStartLine {
        error := Some(BadStartLine);
        return false;
      }
      var line := ParseStartLine(mode, buffer.Contents()[..crlf.value]);
      if line.None? {
        error := Some(BadStartLine);
        return false;
      }
      message := message.(start := line.value);
      buffer.Retrieve(crlf.value + 2);
      phase := Headers;
      return true;
    }

    method HandleHeaders(buffer: Buffer) returns (ok: bool)
      requires buffer.Valid() && error.None? && phase == Headers
      modifies this, buffer`readerIndex, buffer`writerIndex
      ensures buffer.Valid() && Cfg() == old(Cfg())
      ensures var o := StepHttp(Cfg(), old(View()), old(buffer.Contents()));
              && (o.Wait? || o.used <= |old(buffer.Contents())|)
              && Cursor(View(), buffer.Contents()) == After(o, old(View()), old(buffer.Contents()))
              && (ok <==> !o.Wait? && o.next.Active?)
    {
      hide Find, ParseHeaderLine, FinishHeaders, FrameBody;
      var crlf := buffer.FindCrlf();
      if crlf.None? {
        if headerBytes + buffer.ReadableBytes() > options.maxHeaders {
          error := Some(HeaderTooLarge);
        }
        return false;
      }
      headerBytes := headerBytes + crlf.value + 2;
      if headerBytes > options.maxHeaders {
        error := Some(HeaderTooLarge);
        return false;
      }
      if crlf.value == 0 {
        buffer.Retrieve(2);
        FinishHeaderSection();
        return error.None?;
      }
      var field := ParseHeaderLine(buffer.Contents()[..crlf.value]);
      if field.None? {
        error := Some(BadHeader);
        return false;
      }
      message := message.(headers := message.headers + [field.value]);
      buffer.Retrieve(crlf.value + 2);
      return true;
    }

    method FinishHeaderSection()
      requires error.None?
      modifies this
      ensures Cfg() == old(Cfg()) && View() == FinishHeaders(Cfg(), old(View()))
    {
      hide FrameBody, Lengths;
      var lengths := Lengths(message.headers);
      match FrameBody(Cfg(), message) {
        case Refused(e) =>
          error := Some(e);
        case NoBody =>
          message := message.(contentLength := if lengths.Some? && lengths.value != [] then Some(lengths.value[0])
            else None);
          phase := Complete;
        case Fixed(n) =>
          message := message.(contentLength := if lengths.Some? && lengths.value != [] then Some(lengths.value[0])
            else None);
          fixedBodyBytes := n;
          phase := FixedBody;
        case Chunked =>
          message := message.(chunked := true);
          phase := ChunkSize;
      }
    }

    method ParseFixedBody(buffer: Buffer) returns (ok: bool)
      requires buffer.Valid() && error.None? && phase == FixedBody && !headOnly
      modifies this, buffer`readerIndex, buffer`writerIndex
      ensures buffer.Valid() && Cfg() == old(Cfg())
      ensures var o := StepHttp(Cfg(), old(View()), old(buffer.Contents()));
              && (o.Wait? || o.used <= |old(buffer.Contents())|)
              && Cursor(View(), buffer.Contents()) == After(o, old(View()), old(buffer.Contents()))
              && (ok <==> !o.Wait? && o.next.Active?)
    {
      FixedBodyStep(Cfg(), View(), buffer.Contents());
      hide StepHttp;
      if buffer.ReadableBytes() < fixedBodyBytes {
        return false;
      }
      var body := buffer.RetrieveAsString(fixedBodyBytes);
      message := message.(body := body);
      phase := Complete;
      return true;
    }

    method ParseChunkSize(buffer: Buffer) returns (ok: bool)
      requires buffer.Valid() && error.None? && phase == ChunkSize && !headOnly
      modifies this, buffer`readerIndex, buffer`writerIndex
      ensures buffer.Valid() && Cfg() == old(Cfg())
      ensures var o := StepHttp(Cfg(), old(View()), old(buffer.Contents()));
              && (o.Wait? || o.used <= |old(buffer.Contents())|)
              && Cursor(View(), buffer.Contents()) == After(o, old(View()), old(buffer.Contents()))
              && (ok <==> !o.Wait? && o.next.Active?)
    {
      hide Find, ParseHeaderLine, ParseRequestLine, ParseResponseLine, ParseChunkLine, ParseTrailerLine;
      var crlf := buffer.FindCrlf();
      if crlf.None? {
        return false;
      }
      var size := ParseChunkLine(buffer.Contents()[..crlf.value]);
      if size.None? {
        error := Some(BadMessageFraming);
        return false;
      }
      buffer.Retrieve(crlf.value + 2);
      currentChunkSize := size.value;
      if currentChunkSize == 0 {
        phase := Trailers;
      } else {
        if decodedBodyBytes > options.maxBody || currentChunkSize > options.maxBody - decodedBodyBytes {
          error := Some(BodyTooLarge);
          return false;
        }
        phase := ChunkData;
      }
      return true;
    }

    method ParseChunkData(buffer: Buffer) returns (ok: bool)
      requires buffer.Valid() && error.None? && phase == ChunkData && !headOnly
      modifies this, buffer`readerIndex, buffer`writerIndex
      ensures buffer.Valid() && Cfg() == old(Cfg())
      ensures var o := StepHttp(Cfg(), old(View()), old(buffer.Contents()));
              && (o.Wait? || o.used <= |old(buffer.Contents())|)
              && Cursor(View(), buffer.Contents()) == After(o, old(View()), old(buffer.Contents()))
              && (ok <==> !o.Wait? && o.next.Active?)
    {
      ChunkDataStep(Cfg(), View(), buffer.Contents());
      hide StepHttp;
      var n := currentChunkSize;
      if buffer.ReadableBytes() < n + 2 {
        return false;
      }
      var data := buffer.Contents();
      if data[n] != CR || data[n + 1] != LF {
        error := Some(BadMessageFraming);
        return false;
      }
      buffer.Retrieve(n + 2);
      message := message.(body := message.body + data[..n]);
      decodedBodyBytes := decodedBodyBytes + n;
      phase := ChunkSize;
      return true;
    }

    /** One turn of the loop in parse_trailers. */
    method ParseTrailer(buffer: Buffer) returns (ok: bool)
      requires buffer.Valid() && error.None? && phase == Trailers && !headOnly
      modifies this, buffer`readerIndex, buffer`writerIndex
      ensures buffer.Valid() && Cfg() == old(Cfg())
      ensures var o := StepHttp(Cfg(), old(View()), old(buffer.Contents()));
              && (o.Wait? || o.used <= |old(buffer.Contents())|)
              && Cursor(View(), buffer.Contents()) == After(o, old(View()), old(buffer.Contents()))
              && (ok <==> !o.Wait? && o.next.Active?)
    {
      hide Find, ParseHeaderLine, ParseRequestLine, ParseResponseLine, ParseChunkLine, ParseTrailerLine;
      var crlf := buffer.FindCrlf();
      if crlf.None? {
        return false;
      }
      if crlf.value == 0 {
        buffer.Retrieve(2);
        phase := Complete;
        return true;
      }
      var field := ParseTrailerLine(buffer.Contents()[..crlf.value]);
      if field.None? {
        error := Some(BadHeader);
        return false;
      }
      message := message.(trailers := message.trailers + [field.value]);
      buffer.Retrieve(crlf.value + 2);
      return true;
    }
  }
}
