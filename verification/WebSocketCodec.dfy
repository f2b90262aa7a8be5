/** Encoding and parsing of WebSocket frames are mutual inverses, under any cut of the bytes. */
module WebSocketCodec {
  import opened Bytes
  import opened Incremental
  import opened WebSocketFrames
  import opened NetBuffer

  /** Frames an endpoint of the given role accepts. */
  predicate Legal(options: Options, f: Frame) {
    && !f.rsv2 && !f.rsv3
    && (f.rsv1 ==> options.enableCompression && IsData(f.opcode))
    && (IsControl(f.opcode) ==> f.fin && |f.payload| <= 125)
    && |f.payload| <= options.maxFramePayload && |f.payload| < 0x8000_0000_0000_0000
  }

  /** A server reads masked frames, a client unmasked ones. */
  predicate MaskFits(role: Role, mask: Option<Key>) { mask.Some? <==> role == Server }

  lemma FirstByteBits(options: Options, f: Frame)
    requires Legal(options, f)
    ensures FirstByteOk(options, FirstByte(f)) && FrameOf(FirstByte(f), f.payload) == f
  {
  }

  lemma FirstByteBack(options: Options, b: byte, payload: Bytes)
    requires FirstByteOk(options, b)
    ensures FirstByte(FrameOf(b, payload)) == b
  {
    assert b == b / 0x10 * 0x10 + b % 0x10;
    var h := b / 0x10;
    assert b / 0x20 == h / 2 && b / 0x40 == h / 4;
    assert h % 2 == 0 && h / 2 % 2 == 0;
  }

  lemma WidthPowers()
    ensures Power256(2) == 0x10000 && Power256(8) == 0x1_0000_0000_0000_0000
  {
    assert Power256(4) == 0x1_0000_0000 by { assert Power256(2) == 0x10000; }
    assert Power256(6) == 0x1_0000_0000_0000;
  }

  lemma LengthRead(len: nat, first: byte, bit: byte, rest: Bytes)
    requires len < TWO_63 && (bit == 0 || bit == 0x80)
    ensures ReadLength([first, LengthCode(len) + bit] + ExtendedLength(len) + rest) ==
            Length(len, 2 + |ExtendedLength(len)|)
  {
    hide FromBigEndian, BigEndian;
    var e := ExtendedLength(len);
    var b := [first, LengthCode(len) + bit] + e + rest;
    assert b[1] % 0x80 == LengthCode(len);
    assert b[2..2 + |e|] == e;
    WidthPowers();
    if 125 < len <= 0xFFFF {
      BigEndianValue(len, 2);
    } else if len > 0xFFFF {
      BigEndianValue(len, 8);
    }
  }

  lemma HeadRead(role: Role, options: Options, f: Frame, mask: Option<Key>, rest: Bytes)
    requires Legal(options, f) && MaskFits(role, mask)
    ensures ReadHead(role, options, EncodeHead(f, mask) + rest) ==
            Head(FirstByte(f), |f.payload|, |EncodeHead(f, mask)|, mask)
  {
    hide ReadLength, ExtendedLength, FirstByteOk, FirstByte, LengthCode;
    var bit := Bit(mask.Some?, 0x80);
    CodeRange(|f.payload|);
    var key: Bytes := if mask.Some? then mask.value else [];
    var lead := [FirstByte(f), LengthCode(|f.payload|) + bit] + ExtendedLength(|f.payload|);
    var b := EncodeHead(f, mask) + rest;
    assert b == lead + (key + rest);
    LengthRead(|f.payload|, FirstByte(f), bit, key + rest);
    FirstByteBits(options, f);
    assert b[0] == FirstByte(f) && b[1] == LengthCode(|f.payload|) + bit;
    assert b[|lead|..|lead| + |key|] == key;
  }

  lemma CodeRange(len: nat)
    ensures LengthCode(len) < 0x80
  {
  }

  /** An encoded legal frame in front of anything is parsed back and exactly its bytes are consumed. */
  lemma EncodedParses(role: Role, options: Options, s: ParserState, f: Frame, mask: Option<Key>, rest: Bytes)
    requires Legal(options, f) && MaskFits(role, mask)
    ensures StepFrame(role, options, s, Encode(f, mask) + rest) ==
            Advance(s.(frames := s.frames + [f]), |Encode(f, mask)|)
  {
    hide ReadHead, EncodeHead, ApplyMask, FirstByte;
    var raw := if mask.Some? then ApplyMask(f.payload, mask.value) else f.payload;
    MaskLength(f.payload, if mask.Some? then mask.value else [0, 0, 0, 0]);
    var head := EncodeHead(f, mask);
    var b := Encode(f, mask) + rest;
    assert b == head + (raw + rest);
    HeadRead(role, options, f, mask, raw + rest);
    assert b[|head|..|head| + |f.payload|] == raw;
    if mask.Some? {
      MaskTwice(f.payload, mask.value);
    }
    FirstByteBits(options, f);
  }

  lemma MaskLength(payload: Bytes, key: Key)
    ensures |ApplyMask(payload, key)| == |payload|
  {
  }

  lemma LengthBack(b: Bytes)
    requires |b| >= 2 && ReadLength(b).Length?
    ensures var len := ReadLength(b);
            && len.value < TWO_63
            && b[1] % 0x80 == LengthCode(len.value)
            && len.size <= |b| && len.size == 2 + |ExtendedLength(len.value)|
            && b[2..len.size] == ExtendedLength(len.value)
  {
    hide FromBigEndian, BigEndian;
    WidthPowers();
    var code := b[1] % 0x80;
    if code == 126 {
      BigEndianBytes(b[2..4]);
    } else if code == 127 {
      BigEndianBytes(b[2..10]);
    }
  }

  lemma HeadBack(role: Role, options: Options, b: Bytes, payload: Bytes)
    requires var h := ReadHead(role, options, b); h.Head? && |payload| == h.length
    ensures var h := ReadHead(role, options, b);
            && FirstByteOk(options, h.first) && MaskFits(role, h.mask)
            && h.length <= options.maxFramePayload && h.length < TWO_63 && h.size <= |b|
            && b[..h.size] == EncodeHead(FrameOf(h.first, payload), h.mask)
  {
    hide ReadLength, ExtendedLength, FirstByteOk, LengthCode;
    var h := ReadHead(role, options, b);
    LengthBack(b);
    FirstByteBack(options, b[0], payload);
    var size := ReadLength(b).size;
    assert b[1] == b[1] % 0x80 + Bit(role == Server, 0x80);
    assert b[..size] == [b[0], b[1]] + b[2..size];
    assert b[..h.size] == b[..size] + b[size..h.size];
  }

  /** Every accepted frame, encoded again with its mask key, is exactly the bytes consumed. */
  lemma ParsedEncodes(role: Role, options: Options, s: ParserState, b: Bytes) returns (f: Frame, mask: Option<Key>)
    requires StepFrame(role, options, s, b).Advance?
    ensures var o := StepFrame(role, options, s, b);
            && Legal(options, f) && MaskFits(role, mask)
            && o.next == s.(frames := s.frames + [f])
            && o.used <= |b| && b[..o.used] == Encode(f, mask)
  {
    hide ReadHead, EncodeHead, FirstByte, ApplyMask;
    var h := ReadHead(role, options, b);
    var raw := b[h.size..h.size + h.length];
    mask := h.mask;
    f := FrameOf(h.first, if mask.Some? then ApplyMask(raw, mask.value) else raw);
    MaskLength(raw, if mask.Some? then mask.value else [0, 0, 0, 0]);
    HeadBack(role, options, b, f.payload);
    if mask.Some? {
      MaskTwice(raw, mask.value);
    }
    assert b[..h.size + h.length] == b[..h.size] + raw;
  }

  lemma ReadLengthStable(b: Bytes, e: Bytes)
    requires |b| >= 2 && ReadLength(b) != TooShort
    ensures ReadLength(b + e) == ReadLength(b)
  {
    if |b| >= 4 { assert (b + e)[2..4] == b[2..4]; }
    if |b| >= 10 { assert (b + e)[2..10] == b[2..10]; }
  }

  lemma ReadHeadStable(role: Role, options: Options, b: Bytes, e: Bytes)
    requires ReadHead(role, options, b) != NeedMore
    ensures ReadHead(role, options, b + e) == ReadHead(role, options, b)
    ensures ReadHead(role, options, b).Head? ==> 2 <= ReadHead(role, options, b).size <= |b|
  {
    hide ReadLength, FirstByteOk;
    if FirstByteOk(options, b[0]) && !(b[1] >= 0x80 <==> role == Client) {
      ReadLengthStable(b, e);
      var len := ReadLength(b);
      LengthFits(b);
      if len.Length? && role == Server {
        assert (b + e)[len.size..len.size + 4] == b[len.size..len.size + 4];
      }
    }
  }

  lemma LengthFits(b: Bytes)
    requires |b| >= 2
    ensures ReadLength(b).Length? ==> 2 <= ReadLength(b).size <= |b|
  {
  }

  lemma FrameStable(role: Role, options: Options, s: ParserState, b: Bytes, e: Bytes)
    ensures StableAt(FrameParser(role, options), s, b, e)
  {
    hide ReadHead, ApplyMask;
    var h := ReadHead(role, options, b);
    if h != NeedMore {
      ReadHeadStable(role, options, b, e);
      if h.Head? && h.size + h.length <= |b| {
        assert (b + e)[h.size..h.size + h.length] == b[h.size..h.size + h.length];
      }
      assert b[0..] + e == b + e;
    }
  }

  lemma FrameParserStable(role: Role, options: Options)
    ensures Stable(FrameParser(role, options), (s, text) => true)
  {
    forall s, b, e ensures StableAt(FrameParser(role, options), s, b, e) {
      FrameStable(role, options, s, b, e);
    }
  }

  /** The parser never refuses bytes that begin a legal frame, however few of them have arrived. */
  lemma RefusesOnlyIllegal(role: Role, options: Options, s: ParserState, f: Frame, mask: Option<Key>, arrived: Bytes,
      missing: Bytes)
    requires Legal(options, f) && MaskFits(role, mask)
    requires StartsWith(arrived + missing, Encode(f, mask))
    ensures !StepFrame(role, options, s, arrived).Halt?
  {
    hide StepFrame, Encode, Legal;
    var n := |Encode(f, mask)|;
    var rest := (arrived + missing)[n..];
    assert arrived + missing == Encode(f, mask) + rest;
    EncodedParses(role, options, s, f, mask, rest);
    FrameStable(role, options, s, arrived, missing);
  }

  function EncodeFrames(frames: seq<Frame>, masks: seq<Option<Key>>): Bytes
    requires |frames| == |masks|
  {
    if frames == [] then [] else Encode(frames[0], masks[0]) + EncodeFrames(frames[1..], masks[1..])
  }

  predicate AllLegal(role: Role, options: Options, frames: seq<Frame>, masks: seq<Option<Key>>)
    requires |frames| == |masks|
  {
    forall i | 0 <= i < |frames| :: Legal(options, frames[i]) && MaskFits(role, masks[i])
  }

  lemma {:induction false} FramesParse(role: Role, options: Options, s: ParserState, frames: seq<Frame>,
      masks: seq<Option<Key>>)
    requires |frames| == |masks| && AllLegal(role, options, frames, masks)
    ensures Run(FrameParser(role, options), Cursor(s, EncodeFrames(frames, masks))) ==
            Cursor(s.(frames := s.frames + frames), [])
    decreases |frames|
  {
    hide Encode, StepFrame;
    if frames == [] {
      NothingToParse(role, options, s);
      assert s.frames + [] == s.frames;
    } else {
      var more := EncodeFrames(frames[1..], masks[1..]);
      assert Legal(options, frames[0]) && MaskFits(role, masks[0]);
      EncodedParses(role, options, s, frames[0], masks[0], more);
      EncodedNotEmpty(frames[0], masks[0]);
      var t := s.(frames := s.frames + [frames[0]]);
      FramesParse(role, options, t, frames[1..], masks[1..]);
      assert t.frames + frames[1..] == s.frames + frames;
      var n := |Encode(frames[0], masks[0])|;
      assert (Encode(frames[0], masks[0]) + more)[n..] == more;
    }
  }

  lemma EncodedNotEmpty(f: Frame, mask: Option<Key>)
    ensures |Encode(f, mask)| >= 2
  {
  }

  lemma NothingToParse(role: Role, options: Options, s: ParserState)
    ensures StepFrame(role, options, s, []) == Wait
  {
  }

  /** Any legal frames, any mask keys, any cut of the bytes: the parser returns the frames and nothing is left. */
  lemma FramesRoundTrip(role: Role, options: Options, frames: seq<Frame>, masks: seq<Option<Key>>, chunks: seq<Bytes>)
    requires |frames| == |masks| && AllLegal(role, options, frames, masks)
    requires chunks != [] && Concat(chunks) == EncodeFrames(frames, masks)
    ensures RunChunks(FrameParser(role, options), Cursor(ParserState([], None), []), chunks) ==
            Cursor(ParserState(frames, None), [])
  {
    FrameParserStable(role, options);
    var start := Cursor(ParserState([], None), []);
    assert start.unread + Concat(chunks) == Concat(chunks);
    SplitIndependent(FrameParser(role, options), (s, text) => true, start, chunks);
    FramesParse(role, options, ParserState([], None), frames, masks);
    assert [] + frames == frames;
  }

  /** Whatever arrives, the bytes are the encoding of the frames returned followed by the unread bytes. */
  lemma {:induction false} RunEncodes(role: Role, options: Options, s: ParserState, text: Bytes)
    returns (frames: seq<Frame>, masks: seq<Option<Key>>)
    ensures |frames| == |masks| && AllLegal(role, options, frames, masks)
    ensures var end := Run(FrameParser(role, options), Cursor(s, text));
            end.state.frames == s.frames + frames && text == EncodeFrames(frames, masks) + end.unread
    decreases |text|
  {
    hide Encode, StepFrame, EncodeFrames, AllLegal;
    FrameStable(role, options, s, text, []);
    StepKinds(role, options, s, text);
    var o := StepFrame(role, options, s, text);
    if o.Advance? {
      var f, mask := ParsedEncodes(role, options, s, text);
      var rest := text[o.used..];
      var fs, ms := RunEncodes(role, options, o.next, rest);
      frames, masks := [f] + fs, [mask] + ms;
      FramesCons(role, options, f, mask, fs, ms);
      var end := Run(FrameParser(role, options), Cursor(o.next, rest));
      assert (s.frames + [f]) + fs == s.frames + frames;
      assert text == Encode(f, mask) + (EncodeFrames(fs, ms) + end.unread);
    } else {
      frames, masks := [], [];
      NoFrames(role, options);
      assert s.frames + [] == s.frames;
    }
  }

  lemma FramesCons(role: Role, options: Options, f: Frame, mask: Option<Key>, frames: seq<Frame>,
      masks: seq<Option<Key>>)
    requires |frames| == |masks| && AllLegal(role, options, frames, masks)
    requires Legal(options, f) && MaskFits(role, mask)
    ensures AllLegal(role, options, [f] + frames, [mask] + masks)
    ensures EncodeFrames([f] + frames, [mask] + masks) == Encode(f, mask) + EncodeFrames(frames, masks)
  {
    assert ([f] + frames)[1..] == frames && ([mask] + masks)[1..] == masks;
  }

  lemma NoFrames(role: Role, options: Options)
    ensures AllLegal(role, options, [], []) && EncodeFrames([], []) == []
  {
  }

  lemma StepKinds(role: Role, options: Options, s: ParserState, text: Bytes)
    ensures var o := StepFrame(role, options, s, text);
            && (o.Halt? ==>
                  && o.used == 0 && o.next == s.(error := o.next.error)
                  && StepFrame(role, options, o.next, text) == Halt(o.next, 0))
            && (o.Advance? ==> |o.next.frames| == |s.frames| + 1 && o.next == s.(frames := o.next.frames))
            && (|text| < 2 ==> o.Wait?)
  {
  }

  datatype ParseStatus = Incomplete | Complete | Error

  class WebSocketFrameParser {
    const role: Role
    const options: Options
    var error: Option<FrameError>

    constructor (role: Role, options: Options)
      ensures this.role == role && this.options == options && error.None?
    {
      this.role, this.options, error := role, options, None;
    }

    /** Everything the buffer allows; `frames` are those of this call. */
    method Parse(buffer: Buffer) returns (status: ParseStatus, frames: seq<Frame>)
      requires buffer.Valid()
      modifies this, buffer`readerIndex, buffer`writerIndex
      ensures buffer.Valid()
      ensures Cursor(ParserState(frames, error), buffer.Contents()) ==
              Run(FrameParser(role, options), Cursor(ParserState([], old(error)), old(buffer.Contents())))
      ensures status == Complete ==> frames != []
      ensures status == Incomplete ==> frames == [] && buffer.Contents() == old(buffer.Contents())
      ensures status == Error <==> StepFrame(role, options, ParserState(frames, error), buffer.Contents()).Halt?
    {
      hide StepFrame;
      frames := [];
      ghost var start := Cursor(ParserState([], error), buffer.Contents());
      while buffer.ReadableBytes() >= 2
        invariant buffer.Valid()
        invariant Run(FrameParser(role, options), Cursor(ParserState(frames, error), buffer.Contents())) ==
                  Run(FrameParser(role, options), start)
        invariant frames == [] ==> buffer.Contents() == old(buffer.Contents())
        decreases |buffer.Contents()|
      {
        ghost var s, b := ParserState(frames, error), buffer.Contents();
        FrameStable(role, options, s, b, []);
        StepKinds(role, options, s, b);
        var turn, f := ParseOne(buffer, frames);
        if turn == Incomplete {
          return if frames != [] then Complete else Incomplete, frames;
        }
        if turn == Error {
          return Error, frames;
        }
        frames := frames + [f];
      }
      StepKinds(role, options, ParserState(frames, error), buffer.Contents());
      status := if frames != [] then Complete else Incomplete;
    }

    /** One turn of the loop. */
    method ParseOne(buffer: Buffer, ghost frames: seq<Frame>) returns (turn: ParseStatus, f: Frame)
      requires buffer.Valid()
      modifies this, buffer`readerIndex, buffer`writerIndex
      ensures buffer.Valid()
      ensures var s, b := ParserState(frames, old(error)), old(buffer.Contents());
              match StepFrame(role, options, s, b)
              case Wait => turn == Incomplete && error == s.error && buffer.Contents() == b
              case Halt(t, _) => turn == Error && error == t.error && buffer.Contents() == b
              case Advance(t, n) =>
                turn == Complete && error == s.error && t.frames == frames + [f] && n <= |b|
                  && buffer.Contents() == b[n..]
    {
      hide ReadHead, ApplyMask;
      f := Frame(true, false, false, false, Text, []);
      var b := buffer.Contents();
      var head := ReadHead(role, options, b);
      match head {
        case NeedMore =>
          turn := Incomplete;
        case BadHead(e) =>
          error := Some(e);
          turn := Error;
        case Head(first, length, size, mask) =>
          if |b| < size + length || OpcodeOf(first % 0x10).None? {
            return Incomplete, f;
          }
          var raw := b[size..size + length];
          f := FrameOf(first, if mask.Some? then ApplyMask(raw, mask.value) else raw);
          if IsControl(f.opcode) && (!f.fin || length > 125) {
            error := Some(ProtocolError);
            return Error, f;
          }
          buffer.Retrieve(size + length);
          turn := Complete;
      }
    }
  }
}
