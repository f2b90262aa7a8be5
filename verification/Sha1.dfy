/** Sha1 of src/websocket/websocket_handshake.cpp against sections 4 and 6.1 of RFC 3174. */
module Sha1 {
  import opened Bytes
  import opened NetBuffer
  import Base64

  type Word = bv32

  datatype Words = Words(a: Word, b: Word, c: Word, d: Word, e: Word)

  const H0 := Words(0x67452301, 0xEFCDAB89, 0x98BADCFE, 0x10325476, 0xC3D2E1F0)

  function LeftRotate(value: Word, bits: nat): Word
    requires 0 < bits < 32
  {
    (value << bits) | (value >> (32 - bits))
  }

  function WordAt(block: Bytes, t: nat): Word
    requires 4 * t + 3 < |block|
  {
    ((block[4 * t] as bv32) << 24) | ((block[4 * t + 1] as bv32) << 16) | ((block[4 * t + 2] as bv32) << 8)
      | (block[4 * t + 3] as bv32)
  }

  /** Step b of section 6.1. */
  function Expand(w3: Word, w8: Word, w14: Word, w16: Word): Word { LeftRotate(w3 ^ w8 ^ w14 ^ w16, 1) }

  /** W(t) of section 6.1. */
  function Schedule(block: Bytes, t: nat): Word
    requires |block| == 64 && t < 80
  {
    if t < 16 then WordAt(block, t)
    else Expand(Schedule(block, t - 3), Schedule(block, t - 8), Schedule(block, t - 14), Schedule(block, t - 16))
  }

  /** f(t; B, C, D) of section 5. */
  function F(t: nat, b: Word, c: Word, d: Word): Word {
    if t < 20 then (b & c) | ((!b) & d)
    else if t < 40 then b ^ c ^ d
    else if t < 60 then (b & c) | (b & d) | (c & d)
    else b ^ c ^ d
  }

  function K(t: nat): Word {
    if t < 20 then 0x5A827999 else if t < 40 then 0x6ED9EBA1 else if t < 60 then 0x8F1BBCDC else 0xCA62C1D6
  }

  /** TEMP of step d in section 6.1. */
  function Temp(v: Words, t: nat, w: Word): Word { LeftRotate(v.a, 5) + F(t, v.b, v.c, v.d) + v.e + K(t) + w }

  function Round(v: Words, t: nat, w: Word): Words {
    Words(Temp(v, t, w), v.a, LeftRotate(v.b, 30), v.c, v.d)
  }

  /** The registers after t rounds. */
  function Rounds(block: Bytes, h: Words, t: nat): Words
    requires |block| == 64 && t <= 80
  {
    if t == 0 then h else Round(Rounds(block, h, t - 1), t - 1, Schedule(block, t - 1))
  }

  function Sum(h: Words, v: Words): Words { Words(h.a + v.a, h.b + v.b, h.c + v.c, h.d + v.d, h.e + v.e) }

  function Compress(h: Words, block: Bytes): Words
    requires |block| == 64
  {
    Sum(h, Rounds(block, h, 80))
  }

  /** Section 6.1 over a message of whole blocks. */
  function Fold(h: Words, text: Bytes): Words
    requires |text| % 64 == 0
    decreases |text|
  {
    if text == [] then h else Fold(Compress(h, text[..64]), text[64..])
  }

  function Zeros(n: nat): (z: Bytes)
    ensures |z| == n
  {
    seq(n, _ => 0)
  }

  /** The eight bytes of a 64-bit value, most significant first. */
  function BigEndian64(n: nat): (b: Bytes)
    ensures |b| == 8
  {
    [n / 0x1_00000000_000000 % 0x100, n / 0x1_00000000_0000 % 0x100, n / 0x1_00000000_00 % 0x100,
      n / 0x1_00000000 % 0x100,
     n / 0x1_000000 % 0x100, n / 0x1_0000 % 0x100, n / 0x100 % 0x100, n % 0x100]
  }

  lemma FillsBlocks(n: nat)
    ensures (n + 1 + (119 - n % 64) % 64 + 8) % 64 == 0
  {
  }

  /** Section 4: a one bit, as many zeros as needed, and the length in bits. */
  function Pad(message: Bytes): (p: Bytes)
    ensures |p| % 64 == 0
  {
    FillsBlocks(|message|);
    message + [0x80] + Zeros((119 - |message| % 64) % 64) + BigEndian64(8 * |message|)
  }

  function WordBytes(w: Word): Bytes {
    [((w >> 24) & 0xFF) as int % 0x100, ((w >> 16) & 0xFF) as int % 0x100, ((w >> 8) & 0xFF) as int % 0x100,
      (w & 0xFF) as int % 0x100]
  }

  function Digest(h: Words): Bytes {
    WordBytes(h.a) + WordBytes(h.b) + WordBytes(h.c) + WordBytes(h.d) + WordBytes(h.e)
  }

  function Sha1Of(message: Bytes): Bytes { Digest(Fold(H0, Pad(message))) }

  lemma {:induction false} FoldAppend(h: Words, a: Bytes, b: Bytes)
    requires |a| % 64 == 0 && |b| % 64 == 0
    ensures |a + b| % 64 == 0 && Fold(h, a + b) == Fold(Fold(h, a), b)
    decreases |a|
  {
    hide Compress;
    if a == [] {
      assert a + b == b;
    } else {
      assert (a + b)[..64] == a[..64] && (a + b)[64..] == a[64..] + b;
      FoldAppend(Compress(h, a[..64]), a[64..], b);
    }
  }

  /** The fields of the hasher; `block` is the part of the block that is filled. */
  datatype Hasher = Hasher(h: Words, block: Bytes, totalBytes: nat)

  const START := Hasher(H0, [], 0)

  const TWO_64: nat := 0x1_0000_0000_0000_0000

  function Min(a: nat, b: nat): nat { if a <= b then a else b }

  /** The loop of update. */
  function Filled(h: Words, block: Bytes, data: Bytes): (Words, Bytes)
    requires |block| < 64
    decreases |data|
  {
    if data == [] then (h, block)
    else
      var n := Min(|data|, 64 - |block|);
      var more := block + data[..n];
      if |more| == 64 then Filled(Compress(h, more), [], data[n..]) else Filled(h, more, data[n..])
  }

  function AfterUpdate(s: Hasher, data: Bytes): Hasher
    requires |s.block| < 64
  {
    var (h, block) := Filled(s.h, s.block, data);
    Hasher(h, block, (s.totalBytes + |data|) % TWO_64)
  }

  /** The blocks final() still compresses. */
  function Closing(block: Bytes, totalBytes: nat): (p: Bytes)
    requires |block| < 64
    ensures |p| % 64 == 0
  {
    var ended := block + [0x80];
    var zeros := if |ended| > 56 then 120 - |ended| else 56 - |ended|;
    ended + Zeros(zeros) + BigEndian64(totalBytes * 8 % TWO_64)
  }

  function AfterFinal(s: Hasher): Bytes
    requires |s.block| < 64
  {
    Digest(Fold(s.h, Closing(s.block, s.totalBytes)))
  }

  /** The hasher has absorbed exactly the message. */
  predicate Absorbed(s: Hasher, message: Bytes) {
    var n := |message| - |message| % 64;
    s.h == Fold(H0, message[..n]) && s.block == message[n..] && s.totalBytes == |message| % TWO_64
  }

  lemma WholeBlock(h: Words, block: Bytes)
    requires |block| == 64
    ensures Fold(h, block) == Compress(h, block)
  {
    hide Compress;
    assert block[..64] == block && block[64..] == [];
  }

  /** What final() compresses: one block, or two when the length does not fit behind the end mark. */
  lemma ClosingBlocks(block: Bytes, totalBytes: nat, first: Bytes, last: Bytes)
    requires |block| < 64
    requires first == if |block| + 1 > 56 then block + [0x80] + Zeros(63 - |block|) else []
    requires last == (if |block| + 1 > 56 then Zeros(56) else block + [0x80] + Zeros(55 - |block|))
             + BigEndian64(totalBytes * 8 % TWO_64)
    ensures first + last == Closing(block, totalBytes)
  {
    hide BigEndian64;
  }

  /** The closing blocks compressed one after the other give the digest of the source. */
  lemma FinalDigest(s: Hasher, first: Bytes, kept: Bytes, last: Bytes, middle: Words)
    requires |s.block| < 64 && |last| == 64
    requires var ended := s.block + [0x80];
             if |ended| > 56 then first == ended + Zeros(64 - |ended|) && kept == [] else first == [] && kept == ended
    requires last == kept + Zeros(56 - |kept|) + BigEndian64(s.totalBytes * 8 % TWO_64)
    requires middle == Fold(s.h, first)
    ensures Digest(Compress(middle, last)) == AfterFinal(s)
  {
    hide Digest, Fold, Compress, BigEndian64, Closing, Zeros;
    assert kept == [] ==> kept + Zeros(56) == Zeros(56);
    ClosingBlocks(s.block, s.totalBytes, first, last);
    WholeBlock(middle, last);
    FoldAppend(s.h, first, last);
  }

  lemma NoBlocks(h: Words)
    ensures Fold(h, []) == h
  {
  }

  /** What the loop keeps: the compressed blocks followed by the partial one are all bytes so far. */
  lemma {:induction false} FilledKeeps(h: Words, block: Bytes, data: Bytes, whole: Bytes)
    requires |block| < 64 && |whole| % 64 == 0 && h == Fold(H0, whole)
    ensures var all := whole + block + data;
            var n := |all| - |all| % 64;
            Filled(h, block, data) == (Fold(H0, all[..n]), all[n..])
    decreases |data|
  {
    hide Compress, Fold;
    var all := whole + block + data;
    if data == [] {
      assert all == whole + block && all[..|whole|] == whole && all[|whole|..] == block;
    } else {
      var n := Min(|data|, 64 - |block|);
      var more := block + data[..n];
      if |more| == 64 {
        FoldAppend(H0, whole, more);
        WholeBlock(h, more);
        assert (whole + more) + [] + data[n..] == all;
        FilledKeeps(Compress(h, more), [], data[n..], whole + more);
      } else {
        assert whole + more + data[n..] == all;
        FilledKeeps(h, more, data[n..], whole);
      }
    }
  }

  lemma UpdateAbsorbs(s: Hasher, message: Bytes, data: Bytes)
    requires Absorbed(s, message)
    ensures |s.block| < 64 && Absorbed(AfterUpdate(s, data), message + data)
  {
    hide Fold, Filled;
    var n := |message| - |message| % 64;
    var whole := message[..n];
    WholePart(message);
    FilledKeeps(s.h, s.block, data, whole);
    assert whole + s.block + data == message + data;
    CountWraps(|message|, |data|);
  }

  lemma WholePart(message: Bytes)
    ensures var n := |message| - |message| % 64; |message[..n]| % 64 == 0 && |message[n..]| < 64
  {
  }

  lemma CountWraps(a: nat, b: nat)
    ensures (a % TWO_64 + b) % TWO_64 == (a + b) % TWO_64
  {
  }

  /** Closing the partial block is padding the whole message. */
  lemma ClosingPads(message: Bytes)
    requires 8 * |message| < TWO_64
    ensures var n := |message| - |message| % 64;
            message[..n] + Closing(message[n..], |message| % TWO_64) == Pad(message)
  {
    hide BigEndian64;
    var n := |message| - |message| % 64;
    var rest := message[n..];
    assert message == message[..n] + rest;
    var zeros := if |rest| + 1 > 56 then 119 - |rest| else 55 - |rest|;
    assert zeros == (119 - |message| % 64) % 64;
    assert |message| % TWO_64 == |message|;
  }

  lemma FinalIsSha1(s: Hasher, message: Bytes)
    requires Absorbed(s, message) && 8 * |message| < TWO_64
    ensures |s.block| < 64 && AfterFinal(s) == Sha1Of(message)
  {
    hide Fold, Digest, Closing, Pad;
    var n := |message| - |message| % 64;
    ClosingPads(message);
    FoldAppend(H0, message[..n], Closing(s.block, s.totalBytes));
  }

  function AfterUpdates(s: Hasher, chunks: seq<Bytes>): Hasher
    requires |s.block| < 64
    decreases |chunks|
  {
    if chunks == [] then s
    else
      var t := AfterUpdate(s, chunks[0]);
      if |t.block| < 64 then AfterUpdates(t, chunks[1..]) else t
  }

  lemma {:induction false} UpdatesAbsorb(s: Hasher, message: Bytes, chunks: seq<Bytes>)
    requires Absorbed(s, message)
    ensures |s.block| < 64 && Absorbed(AfterUpdates(s, chunks), message + Concat(chunks))
    decreases |chunks|
  {
    hide Absorbed, AfterUpdate;
    BlockFits(s, message);
    if chunks == [] {
      assert message + [] == message;
    } else {
      UpdateAbsorbs(s, message, chunks[0]);
      BlockFits(AfterUpdate(s, chunks[0]), message + chunks[0]);
      UpdatesAbsorb(AfterUpdate(s, chunks[0]), message + chunks[0], chunks[1..]);
      assert message + (chunks[0] + Concat(chunks[1..])) == (message + chunks[0]) + Concat(chunks[1..]);
    }
  }

  lemma BlockFits(s: Hasher, message: Bytes)
    requires Absorbed(s, message)
    ensures |s.block| < 64
  {
  }

  /** Streaming over any split equals the specification on the whole message. */
  lemma StreamingIsSha1(chunks: seq<Bytes>)
    requires 8 * |Concat(chunks)| < TWO_64
    ensures var s := AfterUpdates(START, chunks); |s.block| < 64 && AfterFinal(s) == Sha1Of(Concat(chunks))
  {
    hide AfterUpdates, AfterFinal, Sha1Of, Absorbed;
    var none: Bytes := [];
    Starts();
    UpdatesAbsorb(START, none, chunks);
    assert none + Concat(chunks) == Concat(chunks);
    BlockFits(AfterUpdates(START, chunks), Concat(chunks));
    FinalIsSha1(AfterUpdates(START, chunks), Concat(chunks));
  }

  method FillSchedule(data: Bytes) returns (w: array<Word>)
    requires |data| == 64
    ensures fresh(w) && w.Length == 80 && forall j | 0 <= j < 80 :: w[j] == Schedule(data, j)
  {
    hide WordAt, Expand;
    w := new Word[80](_ => 0);
    for i := 0 to 16
      invariant forall j | 0 <= j < i :: w[j] == Schedule(data, j)
    {
      w[i] := WordAt(data, i);
    }
    for i := 16 to 80
      invariant forall j | 0 <= j < i :: w[j] == Schedule(data, j)
    {
      w[i] := Expand(w[i - 3], w[i - 8], w[i - 14], w[i - 16]);
    }
  }

  method RunRounds(h: Words, data: Bytes, w: array<Word>) returns (v: Words)
    requires |data| == 64 && w.Length == 80 && forall j | 0 <= j < 80 :: w[j] == Schedule(data, j)
    ensures v == Rounds(data, h, 80)
  {
    hide Temp, LeftRotate, Schedule;
    var a, b, c, d, e := h.a, h.b, h.c, h.d, h.e;
    for i := 0 to 80
      invariant Words(a, b, c, d, e) == Rounds(data, h, i)
    {
      var temp := Temp(Words(a, b, c, d, e), i, w[i]);
      e := d;
      d := c;
      c := LeftRotate(b, 30);
      b := a;
      a := temp;
    }
    v := Words(a, b, c, d, e);
  }

  /** process_block: the schedule in an array, then eighty rounds on five variables. */
  method ProcessBlock(h: Words, data: Bytes) returns (next: Words)
    requires |data| == 64
    ensures next == Compress(h, data)
  {
    hide Schedule, Rounds, Sum;
    var w := FillSchedule(data);
    var v := RunRounds(h, data, w);
    next := Sum(h, v);
  }

  class Sha1State {
    var h: Words
    const block: array<byte>
    var totalBytes: nat
    var blockSize: nat

    ghost predicate Valid()
      reads this
    {
      block.Length == 64 && blockSize < 64
    }

    function View(): (s: Hasher)
      requires Valid()
      reads this, block
      ensures |s.block| < 64
    {
      Hasher(h, block[..blockSize], totalBytes)
    }

    constructor ()
      ensures Valid() && fresh(block) && View() == START
    {
      h, totalBytes, blockSize := H0, 0, 0;
      block := new byte[64](_ => 0);
    }

    method Update(data: Bytes)
      requires Valid()
      modifies this, block
      ensures Valid() && View() == AfterUpdate(old(View()), data)
    {
      hide Compress;
      totalBytes := (totalBytes + |data|) % TWO_64;
      var input := data;
      ghost var goal := Filled(h, block[..blockSize], data);
      while |input| > 0
        invariant Valid() && totalBytes == (old(totalBytes) + |data|) % TWO_64
        invariant Filled(h, block[..blockSize], input) == goal
        decreases |input|
      {
        var copy := Min(|input|, block.Length - blockSize);
        ghost var filled := block[..blockSize];
        CopyBytes(block, blockSize, input[..copy]);
        assert block[..blockSize + copy] == filled + input[..copy];
        blockSize := blockSize + copy;
        input := input[copy..];
        if blockSize == block.Length {
          assert block[..] == block[..64];
          h := ProcessBlock(h, block[..]);
          blockSize := 0;
        }
      }
    }

    method Final() returns (digest: Bytes)
      requires Valid()
      modifies this, block
      ensures digest == AfterFinal(old(View()))
    {
      hide Digest, Fold, Compress, BigEndian64, Closing, Zeros;
      var totalBits := totalBytes * 8 % TWO_64;
      block[blockSize] := 0x80;
      blockSize := blockSize + 1;
      assert block[..blockSize] == old(block[..blockSize]) + [0x80];
      ghost var first := MakeRoom();
      ghost var kept := block[..blockSize];
      ghost var middle := h;
      EndBlock(BigEndian64(totalBits));
      ghost var last := block[..];
      h := ProcessBlock(h, block[..]);
      digest := Digest(h);
      FinalDigest(old(View()), first, kept, last, middle);
    }

    /** The end of final's last block: zeros, then the length. */
    method EndBlock(length: Bytes)
      requires block.Length == 64 && blockSize <= 56 && |length| == 8
      modifies this`blockSize, block
      ensures blockSize == 64 && block[..] == old(block[..blockSize]) + Zeros(56 - old(blockSize)) + length
    {
      hide Zeros;
      FillZeros(56);
      ghost var front := block[..56];
      CopyBytes(block, 56, length);
      blockSize := 64;
      assert block[..] == front + length;
    }

    /** The branch of final for a block that has no room for the length. */
    method MakeRoom() returns (ghost first: Bytes)
      requires block.Length == 64 && blockSize <= 64
      modifies this`h, this`blockSize, block
      ensures first == if old(blockSize) > 56 then old(block[..blockSize]) + Zeros(64 - old(blockSize)) else []
      ensures h == Fold(old(h), first)
      ensures if old(blockSize) > 56 then blockSize == 0
              else blockSize == old(blockSize) && block[..blockSize] == old(block[..blockSize])
    {
      hide Fold, Compress, Zeros;
      first := [];
      NoBlocks(h);
      if blockSize > 56 {
        FillZeros(64);
        first := block[..];
        h := ProcessBlock(h, block[..]);
        blockSize := 0;
        WholeBlock(old(h), first);
      }
    }

    /** The zero filling loops of final. */
    method FillZeros(to: nat)
      requires block.Length == 64 && blockSize <= to <= 64
      modifies this`blockSize, block
      ensures blockSize == to && block[..to] == old(block[..blockSize]) + Zeros(to - old(blockSize))
    {
      ghost var start, filled := blockSize, block[..blockSize];
      while blockSize < to
        invariant start <= blockSize <= to
        invariant block[..blockSize] == filled + Zeros(blockSize - start)
      {
        block[blockSize] := 0;
        blockSize := blockSize + 1;
        assert block[..blockSize] == block[..blockSize - 1] + [0];
      }
    }
  }

  const MAGIC := "258EAFA5-E914-47DA-95CA-C5AB0DC85B11"

  function MagicBytes(): Bytes { seq(|MAGIC|, i requires 0 <= i < |MAGIC| => MAGIC[i] as int % 0x100) }

  /** websocket_accept_key. */
  method WebSocketAcceptKey(key: Bytes) returns (accept: Bytes)
    ensures var guid := "258EAFA5-E914-47DA-95CA-C5AB0DC85B11";
            8 * (|key| + 36) < TWO_64 ==>
              accept == Base64.Encode(Sha1Of(key + seq(36, i requires 0 <= i < 36 => guid[i] as int % 0x100)))
    ensures |accept| == 28
  {
    hide Sha1Of, AfterUpdate, AfterFinal, Base64.Encode;
    var sha1 := new Sha1State();
    var input := key + MagicBytes();
    sha1.Update(input);
    ghost var s := sha1.View();
    var digest := sha1.Final();
    OneUpdate(input);
    DigestLength(s);
    Base64.EncodedLength(digest);
    accept := Base64.Base64Encode(digest);
  }

  lemma Starts()
    ensures Absorbed(START, [])
  {
    hide Compress;
    NoBlocks(H0);
  }

  lemma OneUpdate(input: Bytes)
    ensures var s := AfterUpdate(START, input);
            |s.block| < 64 && (8 * |input| < TWO_64 ==> AfterFinal(s) == Sha1Of(input))
  {
    hide Absorbed, AfterUpdate, AfterFinal, Sha1Of;
    var none: Bytes := [];
    Starts();
    UpdateAbsorbs(START, none, input);
    assert none + input == input;
    BlockFits(AfterUpdate(START, input), input);
    if 8 * |input| < TWO_64 {
      FinalIsSha1(AfterUpdate(START, input), input);
    }
  }

  lemma DigestLength(s: Hasher)
    requires |s.block| < 64
    ensures |AfterFinal(s)| == 20
  {
    hide Fold, Closing;
  }
}
