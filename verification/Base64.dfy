/** base64_encode of src/websocket/websocket_handshake.cpp against section 4 of RFC 4648. */
module Base64 {
  import opened Bytes

  const PAD: byte := '=' as int

  /** The table k_base64. */
  function Letter(v: nat): byte
    requires v < 64
  {
    if v < 26 then 'A' as int + v
    else if v < 52 then 'a' as int + (v - 26)
    else if v < 62 then '0' as int + (v - 52)
    else if v == 62 then '+' as int
    else '/' as int
  }

  function Triple(a: byte, b: byte, c: byte): nat {
    var high: int := a;
    var middle: int := b;
    high * 0x10000 + middle * 0x100 + c
  }

  /** Six bits of a triple, counted from the top. */
  function Sextet(triple: nat, k: nat): (v: nat)
    requires k < 4
    ensures v < 64
  {
    if k == 0 then triple / 0x40000 % 64
    else if k == 1 then triple / 0x1000 % 64
    else if k == 2 then triple / 0x40 % 64
    else triple % 64
  }

  /** One turn of the loop, on what is left of the input. */
  function Group(data: Bytes): (g: Bytes)
    requires data != []
    ensures |g| == 4
  {
    var t := Triple(data[0], if |data| > 1 then data[1] else 0, if |data| > 2 then data[2] else 0);
    [Letter(Sextet(t, 0)), Letter(Sextet(t, 1)),
     if |data| > 1 then Letter(Sextet(t, 2)) else PAD,
     if |data| > 2 then Letter(Sextet(t, 3)) else PAD]
  }

  function Encode(data: Bytes): Bytes
    decreases |data|
  {
    if data == [] then [] else Group(data) + Encode(if |data| <= 3 then [] else data[3..])
  }

  method Base64Encode(data: Bytes) returns (out: Bytes)
    ensures out == Encode(data)
  {
    out := [];
    var i := 0;
    while i < |data|
      invariant 0 <= i
      invariant Encode(data) == out + (if i < |data| then Encode(data[i..]) else [])
    {
      var a: byte := data[i];
      var b: byte := if i + 1 < |data| then data[i + 1] else 0;
      var c: byte := if i + 2 < |data| then data[i + 2] else 0;
      var t := Triple(a, b, c);
      var group := [Letter(Sextet(t, 0)), Letter(Sextet(t, 1)),
                    if i + 1 < |data| then Letter(Sextet(t, 2)) else PAD,
                    if i + 2 < |data| then Letter(Sextet(t, 3)) else PAD];
      assert group == Group(data[i..]);
      assert |data[i..]| > 3 ==> data[i..][3..] == data[i + 3..];
      assert out + (group + Encode(if |data| - i <= 3 then [] else data[i + 3..]))
        == (out + group) + Encode(if |data| - i <= 3 then [] else data[i + 3..]);
      out := out + group;
      i := i + 3;
    }
  }

  /** The value a letter stands for. */
  function Value(c: byte): Option<nat> {
    if 'A' as int <= c <= 'Z' as int then Some(c - 'A' as int)
    else if 'a' as int <= c <= 'z' as int then Some(c - 'a' as int + 26)
    else if '0' as int <= c <= '9' as int then Some(c - '0' as int + 52)
    else if c == '+' as int then Some(62)
    else if c == '/' as int then Some(63)
    else None
  }

  /** Four letters of which the last one or two may be padding. */
  function DecodeGroup(g: Bytes): Option<Bytes>
    requires |g| == 4
  {
    var p, q, r, s := Value(g[0]), Value(g[1]), Value(g[2]), Value(g[3]);
    if p.None? || q.None? then None
    else
      var first: byte := (p.value * 4 + q.value / 16) % 0x100;
      if g[2] == PAD && g[3] == PAD then Some([first])
      else if r.None? then None
      else
        var second: byte := (q.value % 16 * 16 + r.value / 4) % 0x100;
        if g[3] == PAD then Some([first, second])
        else if s.None? then None
        else Some([first, second, (r.value % 4 * 64 + s.value) % 0x100])
  }

  function Decode(text: Bytes): Option<Bytes> {
    if text == [] then Some([])
    else if |text| < 4 then None
    else
      var first := DecodeGroup(text[..4]);
      var rest := Decode(text[4..]);
      if first.None? || rest.None? then None else Some(first.value + rest.value)
  }

  lemma LetterBack(v: nat)
    requires v < 64
    ensures Value(Letter(v)) == Some(v) && Letter(v) != PAD
  {
  }

  lemma SextetsOf(p: nat, q: nat, r: nat, s: nat)
    requires p < 64 && q < 64 && r < 64 && s < 64
    ensures var t := p * 0x40000 + q * 0x1000 + r * 0x40 + s;
            Sextet(t, 0) == p && Sextet(t, 1) == q && Sextet(t, 2) == r && Sextet(t, 3) == s
  {
    var t := p * 0x40000 + q * 0x1000 + r * 0x40 + s;
    assert t / 0x40 == p * 0x1000 + q * 0x40 + r;
    assert t / 0x1000 == p * 0x40 + q;
    assert t / 0x40000 == p;
  }

  lemma Sextets(a: byte, b: byte, c: byte)
    ensures var t := Triple(a, b, c);
            && Sextet(t, 0) == a / 4 && Sextet(t, 1) == a % 4 * 16 + b / 16
            && Sextet(t, 2) == b % 16 * 4 + c / 64 && Sextet(t, 3) == c % 64
  {
    hide Sextet;
    SextetsOf(a / 4, a % 4 * 16 + b / 16, b % 16 * 4 + c / 64, c % 64);
    assert Triple(a, b, c) == (a / 4) * 0x40000 + (a % 4 * 16 + b / 16) * 0x1000 + (b % 16 * 4 + c / 64) * 0x40
      + c % 64;
  }

  lemma Rejoined(a: nat, b: nat, c: nat, p: nat, q: nat, r: nat, s: nat)
    requires a < 0x100 && b < 0x100 && c < 0x100
    requires p == a / 4 && q == a % 4 * 16 + b / 16 && r == b % 16 * 4 + c / 64 && s == c % 64
    ensures (p * 4 + q / 16) % 0x100 == a && (q % 16 * 16 + r / 4) % 0x100 == b && (r % 4 * 64 + s) % 0x100 == c
  {
    assert q / 16 == a % 4 && q % 16 == b / 16;
    assert r / 4 == b % 16 && r % 4 == c / 64;
  }

  /** Letters read back, with none, one or two of them padding. */
  lemma LettersBack(p: nat, q: nat, r: nat, s: nat)
    requires p < 64 && q < 64 && r < 64 && s < 64
    ensures DecodeGroup([Letter(p), Letter(q), Letter(r), Letter(s)]) ==
            Some([(p * 4 + q / 16) % 0x100, (q % 16 * 16 + r / 4) % 0x100, (r % 4 * 64 + s) % 0x100])
    ensures DecodeGroup([Letter(p), Letter(q), Letter(r), PAD])
            == Some([(p * 4 + q / 16) % 0x100, (q % 16 * 16 + r / 4) % 0x100])
    ensures DecodeGroup([Letter(p), Letter(q), PAD, PAD]) == Some([(p * 4 + q / 16) % 0x100])
  {
    LetterBack(p);
    LetterBack(q);
    LetterBack(r);
    LetterBack(s);
    hide Letter, Value;
  }

  lemma TripleBack(a: byte, b: byte, c: byte, p: nat, q: nat, r: nat, s: nat)
    requires p < 64 && q < 64 && r < 64 && s < 64
    requires (p * 4 + q / 16) % 0x100 == a && (q % 16 * 16 + r / 4) % 0x100 == b && (r % 4 * 64 + s) % 0x100 == c
    ensures DecodeGroup([Letter(p), Letter(q), Letter(r), Letter(s)]) == Some([a, b, c])
    ensures DecodeGroup([Letter(p), Letter(q), Letter(r), PAD]) == Some([a, b])
    ensures DecodeGroup([Letter(p), Letter(q), PAD, PAD]) == Some([a])
  {
    LettersBack(p, q, r, s);
    hide Letter, DecodeGroup;
  }

  /** The letters of three bytes, some of them perhaps padding. */
  lemma LettersOf(a: byte, b: byte, c: byte)
    ensures var t := Triple(a, b, c);
            && DecodeGroup([Letter(Sextet(t, 0)), Letter(Sextet(t, 1)), Letter(Sextet(t, 2)), Letter(Sextet(t, 3))])
               == Some([a, b, c])
            && DecodeGroup([Letter(Sextet(t, 0)), Letter(Sextet(t, 1)), Letter(Sextet(t, 2)), PAD]) == Some([a, b])
            && DecodeGroup([Letter(Sextet(t, 0)), Letter(Sextet(t, 1)), PAD, PAD]) == Some([a])
  {
    var t := Triple(a, b, c);
    Sextets(a, b, c);
    Rejoined(a, b, c, Sextet(t, 0), Sextet(t, 1), Sextet(t, 2), Sextet(t, 3));
    hide Letter, DecodeGroup, Triple, Sextet;
    TripleBack(a, b, c, Sextet(t, 0), Sextet(t, 1), Sextet(t, 2), Sextet(t, 3));
  }

  lemma GroupBack(data: Bytes)
    requires data != []
    ensures DecodeGroup(Group(data)) == Some(if |data| <= 3 then data else data[..3])
  {
    hide Letter, DecodeGroup, Triple, Sextet;
    LettersOf(data[0], if |data| > 1 then data[1] else 0, if |data| > 2 then data[2] else 0);
    if |data| == 1 {
      assert data == [data[0]];
    } else if |data| == 2 {
      assert data == [data[0], data[1]];
    } else {
      assert data[..3] == [data[0], data[1], data[2]];
      assert |data| == 3 ==> data == data[..3];
    }
  }

  /** Decoding undoes encoding, whatever the length. */
  lemma {:induction false} RoundTrip(data: Bytes)
    ensures Decode(Encode(data)) == Some(data)
    decreases |data|
  {
    hide Group, DecodeGroup;
    if data != [] {
      var rest := if |data| <= 3 then [] else data[3..];
      GroupBack(data);
      RoundTrip(rest);
      var text := Encode(data);
      assert text[..4] == Group(data) && text[4..] == Encode(rest);
      assert (if |data| <= 3 then data else data[..3]) + rest == data;
    }
  }

  lemma {:induction false} EncodedLength(data: Bytes)
    ensures |Encode(data)| == 4 * ((|data| + 2) / 3)
    decreases |data|
  {
    hide Group;
    if data != [] {
      var rest := if |data| <= 3 then [] else data[3..];
      EncodedLength(rest);
      assert Encode(data) == Group(data) + Encode(rest);
      assert (|rest| + 2) / 3 + 1 == (|data| + 2) / 3;
    }
  }

  /** The alphabet of table 1 of RFC 4648: capitals, small letters, digits, plus and slash. */
  lemma Alphabet(v: nat)
    requires v < 63
    ensures Letter(0) == 65 && Letter(26) == 97 && Letter(52) == 48 && Letter(62) == 43 && Letter(63) == 47
    ensures v !in {25, 51, 61, 62} ==> Letter(v + 1) == Letter(v) + 1
  {
  }

  /** Three bytes and the four letters that spell their bits; two or one are filled up with zero bits and padding. */
  lemma GroupIs(a: byte, b: byte, c: byte)
    ensures Group([a, b, c])
            == [Letter(a / 4), Letter(a % 4 * 16 + b / 16), Letter(b % 16 * 4 + c / 64), Letter(c % 64)]
    ensures Group([a, b]) == [Letter(a / 4), Letter(a % 4 * 16 + b / 16), Letter(b % 16 * 4), 61]
    ensures Group([a]) == [Letter(a / 4), Letter(a % 4 * 16), 61, 61]
  {
    Sextets(a, b, c);
    Sextets(a, b, 0);
    Sextets(a, 0, 0);
    hide Letter, Triple, Sextet;
  }
}
