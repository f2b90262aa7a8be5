/** The bytes of a frame on the wire, bit by bit as section 5.2 of RFC 6455 draws them, and what an endpoint refuses. */
module WebSocketWire {
  import opened Bytes
  import opened Incremental
  import opened WebSocketFrames
  import opened WebSocketCodec

  /** The numbers of the opcodes, in both directions; the control opcodes are those from 8 on. */
  lemma OpcodeNumbers(op: Opcode, v: nat)
    ensures OpcodeOf(v) == Some(op) <==>
            || (v == 0 && op == Continuation) || (v == 1 && op == Text) || (v == 2 && op == Binary)
            || (v == 8 && op == Close) || (v == 9 && op == Ping) || (v == 10 && op == Pong)
    ensures OpcodeOf(v) == Some(op) <==> v == OpcodeValue(op)
    ensures IsControl(op) <==> op in {Close, Ping, Pong}
    ensures IsData(op) <==> op in {Text, Binary}
  {
  }

  /** Bit i of a number, bit 0 being the lowest. */
  predicate IsSet(n: nat, i: nat) {
    if i == 0 then n % 2 == 1 else IsSet(n / 2, i - 1)
  }

  lemma {:induction false} BitsXor(a: nat, k: nat, bits: nat, i: nat)
    requires i < bits
    ensures IsSet(XorBits(a, k, bits), i) <==> IsSet(a, i) != IsSet(k, i)
    decreases i
  {
    LowBit((a + k) % 2, XorBits(a / 2, k / 2, bits - 1));
    if i > 0 {
      BitsXor(a / 2, k / 2, bits - 1, i - 1);
    }
  }

  /** Masking is the exclusive or of bytes: a bit is set where exactly one of the two has it set. */
  lemma XorIs(a: byte, k: byte, i: nat)
    requires i < 8
    ensures IsSet(Xor(a, k), i) <==> IsSet(a, i) != IsSet(k, i)
  {
    BitsXor(a, k, 8, i);
  }

  function Flag(on: bool, weight: nat): nat { if on then weight else 0 }

  /** Sixteen and sixty-four bits, most significant byte first. */
  function Word16(b: Bytes, at: nat): nat
    requires at + 2 <= |b|
  {
    0x100 * (b[at] as int) + b[at + 1]
  }

  function Word32(b: Bytes, at: nat): nat
    requires at + 4 <= |b|
  {
    0x10000 * Word16(b, at) + Word16(b, at + 2)
  }

  function Word64(b: Bytes, at: nat): nat
    requires at + 8 <= |b|
  {
    0x1_0000_0000 * Word32(b, at) + Word32(b, at + 4)
  }

  lemma Joins16(b: Bytes)
    requires |b| == 2
    ensures FromBigEndian(b) == Word16(b, 0)
  {
    assert b[..1][..0] == [];
    assert FromBigEndian(b[..1]) == b[0];
  }

  lemma JoinsMore(b: Bytes, n: nat)
    requires 2 <= n && n + 2 <= |b|
    ensures FromBigEndian(b[..n + 2]) == 0x10000 * FromBigEndian(b[..n]) + Word16(b, n)
  {
    assert b[..n + 2][..n + 1] == b[..n + 1] && b[..n + 1][..n] == b[..n];
  }

  lemma Joins64(b: Bytes)
    requires |b| == 8
    ensures FromBigEndian(b) == Word64(b, 0)
  {
    Joins16(b[..2]);
    JoinsMore(b, 2);
    JoinsMore(b, 4);
    JoinsMore(b, 6);
    assert b[..8] == b;
    hide FromBigEndian;
  }

  /** How many bytes stand between the second byte and the key. */
  function ExtraSize(n: nat): nat { if n <= 125 then 0 else if n <= 65535 then 2 else 8 }

  /** The two bytes in front, the rest of the length, and everything behind that: key and masked payload. */
  function Lead(f: Frame, mask: Option<Key>): Bytes { [FirstByte(f), LengthCode(|f.payload|) + Bit(mask.Some?, 0x80)] }

  function KeyBytes(mask: Option<Key>): Bytes { if mask.Some? then mask.value else [] }

  lemma EncodedParts(f: Frame, mask: Option<Key>)
    ensures Encode(f, mask) == Lead(f, mask) + ExtendedLength(|f.payload|) + (KeyBytes(mask) + Masked(f.payload, mask))
  {
    hide ExtendedLength, ApplyMask, FirstByte, LengthCode;
  }

  /**
   * The head of an encoded frame: the flags and the opcode, then the mask flag and the shortest form of the
   * length.
   */
  lemma HeadLayout(f: Frame, mask: Option<Key>)
    requires |f.payload| < 0x1_0000_0000_0000_0000
    ensures var b, n := Encode(f, mask), |f.payload|;
            var extra := ExtraSize(n);
            && |b| == 2 + extra + (if mask.Some? then 4 else 0) + n
            && b[0] == Flag(f.fin, 128) + Flag(f.rsv1, 64) + Flag(f.rsv2, 32) + Flag(f.rsv3, 16)
                       + OpcodeValue(f.opcode)
            && b[1] == Flag(mask.Some?, 128) + (if extra == 0 then n else if extra == 2 then 126 else 127)
            && (extra == 2 ==> Word16(b, 2) == n) && (extra == 8 ==> Word64(b, 2) == n)
  {
    LengthSays(|f.payload|);
    EncodedParts(f, mask);
    Leads(f, mask);
    var e, rest := ExtendedLength(|f.payload|), KeyBytes(mask) + Masked(f.payload, mask);
    MaskedAt(f.payload, mask, 0);
    hide Encode, ExtendedLength, Xor, Word64, Word16, Masked, OpcodeValue, Bit, Flag, ExtraSize, Lead;
    Moved(Lead(f, mask), e, rest);
    Front(Lead(f, mask), e, rest);
  }

  lemma Front(lead: Bytes, e: Bytes, rest: Bytes)
    requires |lead| == 2
    ensures (lead + e + rest)[0] == lead[0] && (lead + e + rest)[1] == lead[1]
  {
  }

  lemma Leads(f: Frame, mask: Option<Key>)
    ensures Lead(f, mask)[0] == Flag(f.fin, 128) + Flag(f.rsv1, 64) + Flag(f.rsv2, 32) + Flag(f.rsv3, 16)
                                + OpcodeValue(f.opcode)
    ensures var n, extra := |f.payload|, ExtraSize(|f.payload|);
            Lead(f, mask)[1] == Flag(mask.Some?, 128) + (if extra == 0 then n else if extra == 2 then 126 else 127)
  {
  }

  /** Behind the head: the key, and the payload, masked byte by byte with the bytes of the key in turn. */
  lemma PayloadLayout(f: Frame, mask: Option<Key>, i: nat)
    requires |f.payload| < 0x1_0000_0000_0000_0000 && i < |f.payload|
    ensures var b, at := Encode(f, mask), 2 + ExtraSize(|f.payload|);
            && |b| == at + (if mask.Some? then 4 else 0) + |f.payload|
            && if mask.Some? then b[at..at + 4] == mask.value && b[at + 4 + i] == Xor(f.payload[i], mask.value[i % 4])
               else b[at + i] == f.payload[i]
  {
    LengthSays(|f.payload|);
    EncodedParts(f, mask);
    MaskedAt(f.payload, mask, i);
    hide Encode, ExtendedLength, Xor, Masked, FirstByte, LengthCode, Bit, ExtraSize, Word16, Word64;
    var front, raw := Lead(f, mask) + ExtendedLength(|f.payload|), Masked(f.payload, mask);
    assert |raw| == |f.payload|;
    assert raw[i] == if mask.Some? then Xor(f.payload[i], mask.value[i % 4]) else f.payload[i];
    Placed(front, KeyBytes(mask), raw, i);
  }

  function Masked(payload: Bytes, mask: Option<Key>): Bytes {
    if mask.Some? then ApplyMask(payload, mask.value) else payload
  }

  lemma MaskedAt(payload: Bytes, mask: Option<Key>, i: nat)
    ensures |Masked(payload, mask)| == |payload|
    ensures i < |payload| ==>
              Masked(payload, mask)[i] == if mask.Some? then Xor(payload[i], mask.value[i % 4]) else payload[i]
  {
    hide Xor;
  }

  lemma Placed(front: Bytes, key: Bytes, raw: Bytes, i: nat)
    requires i < |raw|
    ensures var b := front + (key + raw);
            && |b| == |front| + |key| + |raw| && b[|front|..|front| + |key|] == key
            && b[|front| + |key| + i] == raw[i]
  {
  }

  lemma LengthSays(n: nat)
    requires n < 0x1_0000_0000_0000_0000
    ensures var e := ExtendedLength(n);
            && |e| == ExtraSize(n)
            && (|e| == 2 ==> Word16(e, 0) == n) && (|e| == 8 ==> Word64(e, 0) == n)
  {
    WidthPowers();
    var e := ExtendedLength(n);
    hide BigEndian, FromBigEndian;
    if 125 < n <= 65535 {
      BigEndianValue(n, 2);
      Joins16(e);
    } else if n > 65535 {
      BigEndianValue(n, 8);
      Joins64(e);
    }
  }

  /** The same bytes further behind. */
  lemma Moved(lead: Bytes, e: Bytes, rest: Bytes)
    requires |lead| == 2
    ensures |e| == 2 ==> Word16(lead + e + rest, 2) == Word16(e, 0)
    ensures |e| == 8 ==> Word64(lead + e + rest, 2) == Word64(e, 0)
  {
    var b := lead + e + rest;
    assert forall k | 0 <= k < |e| :: b[2 + k] == e[k];
  }

  /** The opcodes of RFC 6455; the others are reserved. */
  predicate Known(first: byte) { first % 16 in {0, 1, 2, 8, 9, 10} }

  /**
   * The first two bytes alone are refused, before anything else arrives, exactly for a reserved opcode or
   * flag, for the compression flag without the extension or on a frame that does not start a message, and
   * for a mask that the role does not expect.
   */
  lemma FirstBytesRefused(role: Role, options: Options, s: ParserState, b: Bytes)
    requires |b| == 2
    ensures StepFrame(role, options, s, b) == Halt(s.(error := Some(ProtocolError)), 0) <==>
            || !Known(b[0]) || b[0] / 32 % 2 == 1 || b[0] / 16 % 2 == 1
            || (b[0] / 64 % 2 == 1 && !(options.enableCompression && b[0] % 16 in {1, 2}))
            || ((b[1] >= 128) != (role == Server))
            || (role == Client && b[1] == 0 && b[0] % 16 >= 8 && b[0] < 128)
  {
  }

  /** A length is refused as an error of the protocol when a shorter form would do or its top bit is set. */
  predicate BadLength(b: Bytes)
    requires |b| >= 10
  {
    || (b[1] % 128 == 126 && Word16(b, 2) < 126)
    || (b[1] % 128 == 127 && (Word64(b, 2) < 65536 || Word64(b, 2) >= 0x8000_0000_0000_0000))
  }

  function SaidLength(b: Bytes): nat
    requires |b| >= 10
  {
    if b[1] % 128 == 126 then Word16(b, 2) else if b[1] % 128 == 127 then Word64(b, 2) else b[1] % 128
  }

  /** And one above the bound as too big, both as soon as the head has arrived. */
  lemma LengthRefused(role: Role, options: Options, s: ParserState, b: Bytes)
    requires |b| >= 14 && !StepFrame(role, options, s, b[..2]).Halt?
    ensures BadLength(b) ==> StepFrame(role, options, s, b) == Halt(s.(error := Some(ProtocolError)), 0)
    ensures !BadLength(b) && SaidLength(b) > options.maxFramePayload ==>
              StepFrame(role, options, s, b) == Halt(s.(error := Some(MessageTooBig)), 0)
  {
    TwoBytesFine(role, options, s, b);
    LengthIs(b);
    hide ReadLength, FirstByteOk, BadLength, SaidLength, FromBigEndian, Word16, Word64;
  }

  lemma TwoBytesFine(role: Role, options: Options, s: ParserState, b: Bytes)
    requires |b| >= 14 && !StepFrame(role, options, s, b[..2]).Halt?
    ensures FirstByteOk(options, b[0]) && !(b[1] >= 0x80 <==> role == Client)
  {
    assert b[..2][0] == b[0] && b[..2][1] == b[1];
    hide FirstByteOk;
  }

  lemma LengthIs(b: Bytes)
    requires |b| >= 14
    ensures BadLength(b) <==> ReadLength(b) == NotMinimal
    ensures !BadLength(b) ==> ReadLength(b).Length? && ReadLength(b).value == SaidLength(b) && ReadLength(b).size <= 10
  {
    Joins16(b[2..4]);
    Joins64(b[2..10]);
    hide FromBigEndian;
  }
}
