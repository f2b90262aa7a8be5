/** Frames of src/websocket/websocket_frame.cpp: encoder and incremental parser (section 5.2 of RFC 6455). */
module WebSocketFrames {
  import opened Bytes
  import opened Incremental

  datatype Opcode = Continuation | Text | Binary | Close | Ping | Pong

  function OpcodeValue(op: Opcode): byte {
    match op
    case Continuation => 0x0
    case Text => 0x1
    case Binary => 0x2
    case Close => 0x8
    case Ping => 0x9
    case Pong => 0xA
  }

  /** valid_opcode and the cast behind it. */
  function OpcodeOf(v: nat): Option<Opcode> {
    if v == 0x0 then Some(Continuation)
    else if v == 0x1 then Some(Text)
    else if v == 0x2 then Some(Binary)
    else if v == 0x8 then Some(Close)
    else if v == 0x9 then Some(Ping)
    else if v == 0xA then Some(Pong)
    else None
  }

  predicate IsControl(op: Opcode) { OpcodeValue(op) >= 0x8 }
  predicate IsData(op: Opcode) { op == Text || op == Binary }

  datatype Frame = Frame(fin: bool, rsv1: bool, rsv2: bool, rsv3: bool, opcode: Opcode, payload: Bytes)

  datatype Role = Client | Server

  datatype Options = Options(maxFramePayload: nat, maxMessagePayload: nat, enableCompression: bool)

  type Key = k: Bytes | |k| == 4 witness [0, 0, 0, 0]

  function Power2(bits: nat): nat { if bits == 0 then 1 else 2 * Power2(bits - 1) }

  /** Exclusive or of the low `bits` bits. */
  function XorBits(a: nat, k: nat, bits: nat): (r: nat)
    ensures r < Power2(bits)
    decreases bits
  {
    if bits == 0 then 0 else (a + k) % 2 + 2 * XorBits(a / 2, k / 2, bits - 1)
  }

  function Xor(a: byte, k: byte): byte {
    assert Power2(8) == 0x100 by { assert Power2(4) == 16; }
    XorBits(a, k, 8)
  }

  lemma LowBit(d: nat, y: nat)
    requires d < 2
    ensures (d + 2 * y) / 2 == y && (d + 2 * y) % 2 == d
  {
  }

  lemma ParityTwice(a: nat, k: nat, y: nat)
    ensures ((a + k) % 2 + 2 * y + k) % 2 == a % 2
  {
  }

  lemma {:induction false} XorBitsTwice(a: nat, k: nat, bits: nat)
    requires a < Power2(bits)
    ensures XorBits(XorBits(a, k, bits), k, bits) == a
    decreases bits
  {
    if bits > 0 {
      var y := XorBits(a / 2, k / 2, bits - 1);
      LowBit((a + k) % 2, y);
      ParityTwice(a, k, y);
      XorBitsTwice(a / 2, k / 2, bits - 1);
    }
  }

  lemma XorTwice(a: byte, k: byte)
    ensures Xor(Xor(a, k), k) == a
  {
    assert Power2(8) == 0x100 by { assert Power2(4) == 16; }
    XorBitsTwice(a, k, 8);
  }

  function ApplyMask(payload: Bytes, key: Key): Bytes {
    seq(|payload|, i requires 0 <= i < |payload| => Xor(payload[i], key[i % 4]))
  }

  lemma MaskTwice(payload: Bytes, key: Key)
    ensures ApplyMask(ApplyMask(payload, key), key) == payload
  {
    forall i | 0 <= i < |payload| ensures ApplyMask(ApplyMask(payload, key), key)[i] == payload[i] {
      XorTwice(payload[i], key[i % 4]);
    }
  }

  /** append_u16 and append_u64: `width` bytes, most significant first. */
  function BigEndian(n: nat, width: nat): (s: Bytes)
    ensures |s| == width
  {
    if width == 0 then [] else BigEndian(n / 0x100, width - 1) + [n % 0x100]
  }

  /** read_u16 and read_u64. */
  function FromBigEndian(s: Bytes): nat {
    if s == [] then 0 else FromBigEndian(s[..|s| - 1]) * 0x100 + s[|s| - 1]
  }

  function Power256(width: nat): nat {
    if width == 0 then 1 else 0x100 * Power256(width - 1)
  }

  lemma {:induction false} BigEndianValue(n: nat, width: nat)
    requires n < Power256(width)
    ensures FromBigEndian(BigEndian(n, width)) == n
    decreases width
  {
    if width > 0 {
      BigEndianValue(n / 0x100, width - 1);
      var s := BigEndian(n, width);
      assert s[..|s| - 1] == BigEndian(n / 0x100, width - 1);
    }
  }

  lemma {:induction false} BigEndianBytes(s: Bytes)
    ensures BigEndian(FromBigEndian(s), |s|) == s
    ensures FromBigEndian(s) < Power256(|s|)
    decreases |s|
  {
    if s != [] {
      BigEndianBytes(s[..|s| - 1]);
      assert s == s[..|s| - 1] + [s[|s| - 1]];
    }
  }

  function Bit(on: bool, value: byte): byte { if on then value else 0 }

  function FirstByte(f: Frame): byte {
    OpcodeValue(f.opcode) + Bit(f.fin, 0x80) + Bit(f.rsv1, 0x40) + Bit(f.rsv2, 0x20) + Bit(f.rsv3, 0x10)
  }

  const TWO_63: nat := 0x8000_0000_0000_0000

  function LengthCode(len: nat): byte { if len <= 125 then len else if len <= 0xFFFF then 126 else 127 }

  function ExtendedLength(len: nat): Bytes {
    if len <= 125 then [] else if len <= 0xFFFF then BigEndian(len, 2) else BigEndian(len, 8)
  }

  function EncodeHead(f: Frame, mask: Option<Key>): Bytes {
    [FirstByte(f), LengthCode(|f.payload|) + Bit(mask.Some?, 0x80)] + ExtendedLength(|f.payload|)
    + if mask.Some? then mask.value else []
  }

  /** encode_websocket_frame; the key is the given or the random one. */
  function Encode(f: Frame, mask: Option<Key>): Bytes {
    EncodeHead(f, mask) + if mask.Some? then ApplyMask(f.payload, mask.value) else f.payload
  }

  datatype FrameError = ProtocolError | MessageTooBig

  /** What the bytes in front of a payload say. */
  datatype Head =
    | NeedMore
    | BadHead(error: FrameError)
    | Head(first: byte, length: nat, size: nat, mask: Option<Key>)

  function FirstByteOk(options: Options, b: byte): bool {
    var op := OpcodeOf(b % 0x10);
    && op.Some?
    && (b / 0x40 % 2 == 1 ==> options.enableCompression && IsData(op.value))
    && b / 0x20 % 2 == 0 && b / 0x10 % 2 == 0
  }

  /** The payload length and the number of bytes it takes to say it; None: not all there; an error: not minimal. */
  datatype Length = TooShort | NotMinimal | Length(value: nat, size: nat)

  function ReadLength(b: Bytes): Length
    requires |b| >= 2
  {
    var code := b[1] % 0x80;
    if code == 126 then
      if |b| < 4 then TooShort
      else if FromBigEndian(b[2..4]) < 126 then NotMinimal
      else Length(FromBigEndian(b[2..4]), 4)
    else if code == 127 then
      if |b| < 10 then TooShort
      else if FromBigEndian(b[2..10]) < 65536 || FromBigEndian(b[2..10]) >= TWO_63 then NotMinimal
      else Length(FromBigEndian(b[2..10]), 10)
    else Length(code, 2)
  }

  function ReadHead(role: Role, options: Options, b: Bytes): Head {
    if |b| < 2 then NeedMore
    else if !FirstByteOk(options, b[0]) || (b[1] >= 0x80 <==> role == Client) then BadHead(ProtocolError)
    else
      match ReadLength(b)
      case TooShort => NeedMore
      case NotMinimal => BadHead(ProtocolError)
      case Length(length, size) =>
        if role == Server && |b| < size + 4 then NeedMore
        else if length > options.maxFramePayload then BadHead(MessageTooBig)
        else if role == Server then Head(b[0], length, size + 4, Some(b[size..size + 4]))
        else Head(b[0], length, size, None)
  }

  /** The frames so far and the last error. */
  datatype ParserState = ParserState(frames: seq<Frame>, error: Option<FrameError>)

  function FrameOf(first: byte, payload: Bytes): Frame
    requires OpcodeOf(first % 0x10).Some?
  {
    Frame(first >= 0x80, first / 0x40 % 2 == 1, first / 0x20 % 2 == 1, first / 0x10 % 2 == 1,
          OpcodeOf(first % 0x10).value, payload)
  }

  function StepFrame(role: Role, options: Options, s: ParserState, b: Bytes): Outcome<ParserState> {
    var head := ReadHead(role, options, b);
    match head
    case NeedMore => Wait
    case BadHead(e) => Halt(s.(error := Some(e)), 0)
    case Head(first, length, size, mask) =>
      if |b| < size + length then Wait
      else if OpcodeOf(first % 0x10).None? then Wait
      else
        var raw := b[size..size + length];
        var f := FrameOf(first, if mask.Some? then ApplyMask(raw, mask.value) else raw);
        if IsControl(f.opcode) && (!f.fin || length > 125) then Halt(s.(error := Some(ProtocolError)), 0)
        else Advance(s.(frames := s.frames + [f]), size + length)
  }

  function FrameParser(role: Role, options: Options): Step<ParserState> {
    (s, b) => StepFrame(role, options, s, b)
  }
}
