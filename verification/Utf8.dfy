/** valid_utf8 of src/websocket/websocket_frame.cpp against sections 3 and 4 of RFC 3629. */
module Utf8 {
  import opened Bytes

  /** The loop variables: bytes still expected, the bits so far, the least value of this length. */
  datatype Scan = Scan(remaining: nat, codepoint: nat, least: nat)

  const START := Scan(0, 0, 0)

  predicate IsScalar(c: int) { 0 <= c <= 0x10FFFF && !(0xD800 <= c <= 0xDFFF) }

  /** One turn of the loop; None is the answer false. */
  function Next(s: Scan, b: byte): Option<Scan> {
    if s.remaining == 0 then
      if b <= 0x7F then Some(s)
      else if 0xC2 <= b <= 0xDF then Some(Scan(1, b % 0x20, 0x80))
      else if 0xE0 <= b <= 0xEF then Some(Scan(2, b % 0x10, 0x800))
      else if 0xF0 <= b <= 0xF4 then Some(Scan(3, b % 0x08, 0x10000))
      else None
    else if b / 0x40 != 2 then None
    else
      var c := s.codepoint * 0x40 + b % 0x40;
      if s.remaining == 1 && (c < s.least || !IsScalar(c)) then None
      else Some(Scan(s.remaining - 1, c, s.least))
  }

  predicate Accepts(s: Scan, text: Bytes)
    decreases |text|
  {
    if text == [] then s.remaining == 0
    else
      var t := Next(s, text[0]);
      t.Some? && Accepts(t.value, text[1..])
  }

  method ValidUtf8(value: Bytes) returns (valid: bool)
    ensures valid <==> Accepts(START, value)
    ensures valid <==> IsUtf8(value)
  {
    AcceptsIffUtf8(value);
    var s := START;
    for i := 0 to |value|
      invariant Accepts(START, value) <==> Accepts(s, value[i..])
    {
      var t := Next(s, value[i]);
      assert value[i..][1..] == value[i + 1..];
      if t.None? {
        return false;
      }
      s := t.value;
    }
    return s.remaining == 0;
  }

  /** The encoding of one scalar value, as the table in section 3 of RFC 3629 gives it. */
  function Encode(c: nat): Bytes
    requires IsScalar(c)
  {
    if c <= 0x7F then [c]
    else if c <= 0x7FF then [0xC0 + c / 0x40, 0x80 + c % 0x40]
    else if c <= 0xFFFF then [0xE0 + c / 0x40 / 0x40, 0x80 + c / 0x40 % 0x40, 0x80 + c % 0x40]
    else [0xF0 + c / 0x40 / 0x40 / 0x40, 0x80 + c / 0x40 / 0x40 % 0x40, 0x80 + c / 0x40 % 0x40, 0x80 + c % 0x40]
  }

  predicate Scalars(cs: seq<nat>) { forall i | 0 <= i < |cs| :: IsScalar(cs[i]) }

  function EncodeAll(cs: seq<nat>): Bytes
    requires Scalars(cs)
  {
    if cs == [] then [] else Encode(cs[0]) + EncodeAll(cs[1..])
  }

  /** The text is the encoding of some sequence of Unicode scalar values. */
  ghost predicate IsUtf8(text: Bytes) {
    exists cs: seq<nat> | Scalars(cs) :: EncodeAll(cs) == text
  }

  lemma AcceptsTwo(a: byte, b: byte, rest: Bytes, s: Scan)
    requires s.remaining == 0
    requires Next(s, a).Some? && Next(s, a).value.remaining >= 1
    ensures Accepts(s, [a, b] + rest) <==>
            var t := Next(Next(s, a).value, b); t.Some? && Accepts(t.value, rest)
  {
    assert ([a, b] + rest)[1..][1..] == rest;
  }

  lemma AcceptsThree(a: byte, b: byte, c: byte, rest: Bytes, s: Scan)
    requires s.remaining == 0 && 0xE0 <= a <= 0xF4
    ensures Accepts(s, [a, b, c] + rest) <==>
            var t := Next(Next(s, a).value, b);
            t.Some? && var u := Next(t.value, c); u.Some? && Accepts(u.value, rest)
  {
    assert [a, b, c] + rest == [a, b] + ([c] + rest);
    AcceptsTwo(a, b, [c] + rest, s);
    assert ([c] + rest)[1..] == rest;
  }

  lemma AcceptsFour(a: byte, b: byte, c: byte, d: byte, rest: Bytes, s: Scan)
    requires s.remaining == 0 && 0xF0 <= a <= 0xF4
    ensures Accepts(s, [a, b, c, d] + rest) <==>
            var t := Next(Next(s, a).value, b);
            t.Some? && var u := Next(t.value, c);
            u.Some? && var v := Next(u.value, d); v.Some? && Accepts(v.value, rest)
  {
    assert [a, b, c, d] + rest == [a, b, c] + ([d] + rest);
    AcceptsThree(a, b, c, [d] + rest, s);
    assert ([d] + rest)[1..] == rest;
  }

  /** Between characters only the number of expected bytes matters. */
  lemma {:induction false} IdleAlike(s: Scan, t: Scan, text: Bytes)
    requires s.remaining == 0 && t.remaining == 0
    ensures Accepts(s, text) <==> Accepts(t, text)
    decreases |text|
  {
    if text != [] && text[0] <= 0x7F {
      IdleAlike(s, t, text[1..]);
    }
  }

  /** A continuation byte adds its six bits. */
  lemma NextTail(s: Scan, low: nat)
    requires s.remaining > 0 && low < 0x40
    ensures Next(s, 0x80 + low) ==
            var c := s.codepoint * 0x40 + low;
            if s.remaining == 1 && (c < s.least || !IsScalar(c)) then None else Some(Scan(s.remaining - 1, c, s.least))
  {
  }

  lemma EncodedTwo(c: nat, rest: Bytes)
    requires 0x80 <= c <= 0x7FF
    ensures Accepts(START, Encode(c) + rest) <==> Accepts(START, rest)
  {
    hide Accepts;
    var q, r := c / 0x40, c % 0x40;
    var lead: byte := 0xC0 + q;
    assert Next(START, lead) == Some(Scan(1, q, 0x80)) by { assert lead % 0x20 == q; }
    NextTail(Scan(1, q, 0x80), r);
    AcceptsTwo(lead, 0x80 + r, rest, START);
    IdleAlike(START, Scan(0, c, 0x80), rest);
  }

  /** The bits of a scalar value in groups of six. */
  lemma SixBits(c: nat)
    ensures c / 0x40 * 0x40 + c % 0x40 == c && c % 0x40 < 0x40
  {
  }

  lemma LeadOfThree(p: nat)
    requires p < 0x10
    ensures Next(START, 0xE0 + p) == Some(Scan(2, p, 0x800))
  {
  }

  lemma LeadOfFour(o: nat)
    requires o <= 4
    ensures Next(START, 0xF0 + o) == Some(Scan(3, o, 0x10000))
  {
  }

  lemma EncodedThree(c: nat, rest: Bytes)
    requires 0x800 <= c <= 0xFFFF && IsScalar(c)
    ensures Accepts(START, Encode(c) + rest) <==> Accepts(START, rest)
  {
    hide Accepts;
    var p, q, r := c / 0x40 / 0x40, c / 0x40 % 0x40, c % 0x40;
    SixBits(c);
    SixBits(c / 0x40);
    LeadOfThree(p);
    assert Encode(c) == [0xE0 + p, 0x80 + q, 0x80 + r];
    AcceptsThree(0xE0 + p, 0x80 + q, 0x80 + r, rest, START);
    NextTail(Scan(2, p, 0x800), q);
    NextTail(Scan(1, p * 0x40 + q, 0x800), r);
    hide Next, Encode;
    IdleAlike(START, Scan(0, c, 0x800), rest);
  }

  lemma EncodedFour(c: nat, rest: Bytes)
    requires 0x10000 <= c <= 0x10FFFF
    ensures Accepts(START, Encode(c) + rest) <==> Accepts(START, rest)
  {
    hide Accepts;
    var o, p, q, r := c / 0x40 / 0x40 / 0x40, c / 0x40 / 0x40 % 0x40, c / 0x40 % 0x40, c % 0x40;
    SixBits(c);
    SixBits(c / 0x40);
    SixBits(c / 0x40 / 0x40);
    LeadOfFour(o);
    assert Encode(c) == [0xF0 + o, 0x80 + p, 0x80 + q, 0x80 + r];
    AcceptsFour(0xF0 + o, 0x80 + p, 0x80 + q, 0x80 + r, rest, START);
    NextTail(Scan(3, o, 0x10000), p);
    NextTail(Scan(2, o * 0x40 + p, 0x10000), q);
    NextTail(Scan(1, (o * 0x40 + p) * 0x40 + q, 0x10000), r);
    hide Next, Encode;
    IdleAlike(START, Scan(0, c, 0x10000), rest);
  }

  /** An encoded scalar value in front is accepted and leaves the scan between characters. */
  lemma EncodedAccepted(c: nat, rest: Bytes)
    requires IsScalar(c)
    ensures Accepts(START, Encode(c) + rest) <==> Accepts(START, rest)
  {
    if c <= 0x7F {
      assert ([c] + rest)[1..] == rest;
    } else if c <= 0x7FF {
      EncodedTwo(c, rest);
    } else if c <= 0xFFFF {
      EncodedThree(c, rest);
    } else {
      EncodedFour(c, rest);
    }
  }

  lemma {:induction false} EncodedAllAccepted(cs: seq<nat>)
    requires Scalars(cs)
    ensures Accepts(START, EncodeAll(cs))
    decreases |cs|
  {
    if cs != [] {
      EncodedAllAccepted(cs[1..]);
      EncodedAccepted(cs[0], EncodeAll(cs[1..]));
    }
  }

  /** The first character of an accepted text. */
  lemma FirstScalar(text: Bytes) returns (c: nat)
    requires text != [] && Accepts(START, text)
    ensures IsScalar(c) && Encode(c) <= text && Encode(c) != []
  {
    var a := text[0];
    if a <= 0x7F {
      c := a;
    } else if a <= 0xDF {
      c := FirstOfTwo(text);
    } else if a <= 0xEF {
      c := FirstOfThree(text);
    } else {
      c := FirstOfFour(text);
    }
  }

  /** A character that is not finished needs more bytes. */
  lemma {:induction false} AcceptedLength(s: Scan, text: Bytes)
    requires Accepts(s, text)
    ensures |text| >= s.remaining
    decreases |text|
  {
    if text != [] && s.remaining > 0 {
      AcceptedLength(Next(s, text[0]).value, text[1..]);
    }
  }

  lemma RecodeTwo(a: int, b: int) returns (c: nat)
    requires 0xC2 <= a <= 0xDF && 0x80 <= b <= 0xBF
    ensures IsScalar(c) && Encode(c) == [a, b]
  {
    c := (a - 0xC0) * 0x40 + (b - 0x80);
  }

  lemma RecodeThree(a: int, b: int, d: int) returns (c: nat)
    requires 0xE0 <= a <= 0xEF && 0x80 <= b <= 0xBF && 0x80 <= d <= 0xBF
    ensures c == ((a - 0xE0) * 0x40 + (b - 0x80)) * 0x40 + (d - 0x80)
    ensures 0x800 <= c && IsScalar(c) ==> Encode(c) == [a, b, d]
  {
    var q := (a - 0xE0) * 0x40 + (b - 0x80);
    c := q * 0x40 + (d - 0x80);
    assert c / 0x40 == q && q / 0x40 == a - 0xE0;
  }

  lemma RecodeFour(a: int, b: int, d: int, e: int) returns (c: nat)
    requires 0xF0 <= a <= 0xF4 && 0x80 <= b <= 0xBF && 0x80 <= d <= 0xBF && 0x80 <= e <= 0xBF
    ensures c == (((a - 0xF0) * 0x40 + (b - 0x80)) * 0x40 + (d - 0x80)) * 0x40 + (e - 0x80)
    ensures 0x10000 <= c && IsScalar(c) ==> Encode(c) == [a, b, d, e]
  {
    var p := (a - 0xF0) * 0x40 + (b - 0x80);
    var q := p * 0x40 + (d - 0x80);
    c := q * 0x40 + (e - 0x80);
    assert c / 0x40 == q && q / 0x40 == p && p / 0x40 == a - 0xF0;
  }

  lemma NextTailBack(s: Scan, b: byte)
    requires s.remaining > 0 && Next(s, b).Some?
    ensures 0x80 <= b <= 0xBF
    ensures Next(s, b).value == Scan(s.remaining - 1, s.codepoint * 0x40 + (b - 0x80), s.least)
    ensures s.remaining == 1 ==> s.least <= Next(s, b).value.codepoint && IsScalar(Next(s, b).value.codepoint)
  {
  }

  lemma NextLead(b: byte)
    requires Next(START, b).Some? && b > 0x7F
    ensures 0xC2 <= b <= 0xF4
    ensures Next(START, b).value ==
            if b <= 0xDF then Scan(1, b - 0xC0, 0x80)
            else if b <= 0xEF then Scan(2, b - 0xE0, 0x800)
            else Scan(3, b - 0xF0, 0x10000)
  {
  }

  lemma FirstOfTwo(text: Bytes) returns (c: nat)
    requires text != [] && 0x80 <= text[0] <= 0xDF && Accepts(START, text)
    ensures IsScalar(c) && Encode(c) <= text && Encode(c) != []
  {
    NextLead(text[0]);
    AcceptedLength(Next(START, text[0]).value, text[1..]);
    hide Accepts, Next, Encode;
    var a, b := text[0], text[1];
    assert text == [a, b] + text[2..];
    AcceptsTwo(a, b, text[2..], START);
    NextTailBack(Next(START, a).value, b);
    c := RecodeTwo(a, b);
  }

  lemma FirstOfThree(text: Bytes) returns (c: nat)
    requires text != [] && 0xE0 <= text[0] <= 0xEF && Accepts(START, text)
    ensures IsScalar(c) && Encode(c) <= text && Encode(c) != []
  {
    NextLead(text[0]);
    AcceptedLength(Next(START, text[0]).value, text[1..]);
    hide Accepts, Next, Encode;
    var a, b, d := text[0], text[1], text[2];
    assert text == [a, b, d] + text[3..];
    AcceptsThree(a, b, d, text[3..], START);
    NextTailBack(Next(START, a).value, b);
    NextTailBack(Next(Next(START, a).value, b).value, d);
    c := RecodeThree(a, b, d);
  }

  lemma FirstOfFour(text: Bytes) returns (c: nat)
    requires text != [] && 0xF0 <= text[0] && Accepts(START, text)
    ensures IsScalar(c) && Encode(c) <= text && Encode(c) != []
  {
    NextLead(text[0]);
    AcceptedLength(Next(START, text[0]).value, text[1..]);
    hide Accepts, Next, Encode;
    var a, b, d, e := text[0], text[1], text[2], text[3];
    assert text == [a, b, d, e] + text[4..];
    AcceptsFour(a, b, d, e, text[4..], START);
    NextTailBack(Next(START, a).value, b);
    NextTailBack(Next(Next(START, a).value, b).value, d);
    NextTailBack(Next(Next(Next(START, a).value, b).value, d).value, e);
    c := RecodeFour(a, b, d, e);
  }

  lemma {:induction false} AcceptedDecodes(text: Bytes) returns (cs: seq<nat>)
    requires Accepts(START, text)
    ensures Scalars(cs) && EncodeAll(cs) == text
    decreases |text|
  {
    if text == [] {
      cs := [];
    } else {
      var c := FirstScalar(text);
      var rest := text[|Encode(c)|..];
      assert text == Encode(c) + rest;
      EncodedAccepted(c, rest);
      var more := AcceptedDecodes(rest);
      cs := [c] + more;
      assert cs[1..] == more;
    }
  }

  /** Accepted exactly when it encodes scalar values: no overlong forms, surrogates or larger values. */
  lemma AcceptsIffUtf8(text: Bytes)
    ensures Accepts(START, text) <==> IsUtf8(text)
  {
    if Accepts(START, text) {
      var cs := AcceptedDecodes(text);
    }
    if IsUtf8(text) {
      var cs: seq<nat> :| Scalars(cs) && EncodeAll(cs) == text;
      EncodedAllAccepted(cs);
    }
  }

  lemma ScalarsTail(a: seq<nat>)
    requires Scalars(a) && a != []
    ensures IsScalar(a[0]) && Scalars(a[1..])
  {
  }

  lemma {:induction false} EncodeAllAppend(a: seq<nat>, b: seq<nat>)
    requires Scalars(a) && Scalars(b)
    ensures Scalars(a + b) && EncodeAll(a + b) == EncodeAll(a) + EncodeAll(b)
    decreases |a|
  {
    hide Encode, IsScalar;
    if a == [] {
      assert a + b == b;
    } else {
      ScalarsTail(a);
      ScalarsTail(a + b);
      assert (a + b)[1..] == a[1..] + b && (a + b)[0] == a[0];
      hide Scalars;
      EncodeAllAppend(a[1..], b);
      Reassociate(Encode(a[0]), EncodeAll(a[1..]), EncodeAll(b));
    }
  }

  /** Acceptance is closed under concatenation. */
  lemma AcceptsConcat(a: Bytes, b: Bytes)
    requires Accepts(START, a) && Accepts(START, b)
    ensures Accepts(START, a + b)
  {
    var cs := AcceptedDecodes(a);
    var ds := AcceptedDecodes(b);
    EncodeAllAppend(cs, ds);
    EncodedAllAccepted(cs + ds);
  }

  /** The scan after some bytes; None once it has answered false. */
  function ScanAll(s: Scan, text: Bytes): Option<Scan>
    decreases |text|
  {
    if text == [] then Some(s)
    else
      var t := Next(s, text[0]);
      if t.None? then None else ScanAll(t.value, text[1..])
  }

  /** Reading on from where the scan stands. */
  lemma {:induction false} AcceptsOn(s: Scan, text: Bytes, more: Bytes)
    ensures Accepts(s, text + more) <==> ScanAll(s, text).Some? && Accepts(ScanAll(s, text).value, more)
    decreases |text|
  {
    if text == [] {
      assert text + more == more;
    } else {
      assert (text + more)[0] == text[0] && (text + more)[1..] == text[1..] + more;
      var t := Next(s, text[0]);
      hide Next;
      if t.Some? {
        AcceptsOn(t.value, text[1..], more);
      }
    }
  }

  lemma {:induction false} ScanBounded(s: Scan, text: Bytes)
    requires s.remaining <= 3
    ensures ScanAll(s, text).Some? ==> ScanAll(s, text).value.remaining <= 3
    decreases |text|
  {
    if text != [] && Next(s, text[0]).Some? {
      ScanBounded(Next(s, text[0]).value, text[1..]);
    }
  }

  function Power(n: nat): nat {
    match n
    case 0 => 1
    case 1 => 0x40
    case 2 => 0x1000
    case _ => 0x40000
  }

  function Low(s: Scan): int { s.codepoint * Power(s.remaining) }

  function High(s: Scan): int { s.codepoint * Power(s.remaining) + Power(s.remaining) - 1 }

  /** A value the expected bytes can still spell, and that is allowed then. */
  predicate Reaches(s: Scan, c: int) { Low(s) <= c <= High(s) && s.least <= c && IsScalar(c) }

  /** Some bytes can still end the character: the values left are not all too small, too large or surrogates. */
  predicate Viable(s: Scan) {
    s.remaining == 0 ||
    (var low := if Low(s) < s.least then s.least else Low(s);
     var high := if High(s) > 0x10FFFF then 0x10FFFF else High(s);
     low <= high && (low < 0xD800 || high > 0xDFFF))
  }

  lemma ViableIff(s: Scan)
    requires s.remaining > 0
    ensures Viable(s) <==> exists c :: Reaches(s, c)
  {
    hide Power;
    var low := if Low(s) < s.least then s.least else Low(s);
    var high := if High(s) > 0x10FFFF then 0x10FFFF else High(s);
    hide Low, High;
    if Viable(s) {
      if 0xD800 <= low <= 0xDFFF {
        assert Reaches(s, high);
      } else {
        assert Reaches(s, low);
      }
    }
  }

  /** One continuation byte narrows the values left to a sixty-fourth. */
  lemma Narrows(s: Scan, low: nat)
    requires 0 < s.remaining <= 3 && low < 0x40
    ensures var t := Scan(s.remaining - 1, s.codepoint * 0x40 + low, s.least);
            && Low(t) == Low(s) + low * Power(t.remaining)
            && High(t) == Low(s) + low * Power(t.remaining) + Power(t.remaining) - 1
            && Low(s) <= Low(t) && High(t) <= High(s)
  {
  }

  lemma {:induction false} AcceptsBack(s: Scan, more: Bytes)
    requires s.remaining <= 3 && Accepts(s, more)
    ensures |more| >= s.remaining && Viable(s)
    decreases s.remaining
  {
    if s.remaining > 0 {
      var low := more[0] % 0x40;
      var t := Next(s, more[0]).value;
      assert more[0] == 0x80 + low;
      NextTail(s, low);
      Narrows(s, low);
      hide Next, Power;
      if s.remaining == 1 {
        LastValue(t);
        assert Reaches(s, t.codepoint);
      } else {
        AcceptsBack(t, more[1..]);
        ViableIff(t);
        var c :| Reaches(t, c);
        assert Reaches(s, c);
      }
      ViableIff(s);
    }
  }

  lemma LastValue(t: Scan)
    requires t.remaining == 0
    ensures Low(t) == High(t) == t.codepoint
  {
  }

  /** The continuation bytes that spell a value. */
  lemma {:induction false} Spelled(s: Scan, c: int) returns (more: Bytes)
    requires 0 < s.remaining <= 3 && Reaches(s, c)
    ensures |more| == s.remaining && Accepts(s, more)
    decreases s.remaining
  {
    var low := Digit(s, c);
    var t := Scan(s.remaining - 1, s.codepoint * 0x40 + low, s.least);
    Narrows(s, low);
    NextTail(s, low);
    var rest: Bytes := [];
    if s.remaining > 1 {
      hide Next, Power, Low, High;
      rest := Spelled(t, c);
    } else {
      LastValue(t);
      assert c == t.codepoint;
    }
    more := [0x80 + low] + rest;
    assert more[1..] == rest;
  }

  lemma Digit(s: Scan, c: int) returns (low: nat)
    requires 0 < s.remaining <= 3 && Low(s) <= c <= High(s)
    ensures low < 0x40
    ensures var unit := Power(s.remaining - 1); Low(s) + low * unit <= c <= Low(s) + low * unit + unit - 1
  {
    low := (c - Low(s)) / Power(s.remaining - 1);
  }

  /** A text can be completed by at most `room` more bytes. */
  predicate CanEnd(text: Bytes, room: int) {
    var s := ScanAll(START, text);
    s.Some? && Viable(s.value) && s.value.remaining <= room
  }

  /** The scan tells whether some further bytes make the text UTF-8. */
  lemma CanEndIff(text: Bytes, room: nat)
    ensures CanEnd(text, room) <==> exists more: Bytes :: |more| <= room && IsUtf8(text + more)
  {
    var s := ScanAll(START, text);
    ScanBounded(START, text);
    hide ScanAll, Viable, IsUtf8, Accepts, Next;
    if CanEnd(text, room) {
      var more := Ending(s.value);
      AcceptsOn(START, text, more);
      AcceptsIffUtf8(text + more);
      assert |more| <= room && IsUtf8(text + more);
    }
    if more: Bytes :| |more| <= room && IsUtf8(text + more) {
      AcceptsOn(START, text, more);
      AcceptsIffUtf8(text + more);
      AcceptsBack(s.value, more);
    }
  }

  /** The fewest bytes that end the character in progress. */
  lemma Ending(s: Scan) returns (more: Bytes)
    requires s.remaining <= 3 && Viable(s)
    ensures |more| == s.remaining && Accepts(s, more)
  {
    if s.remaining == 0 {
      more := [];
    } else {
      ViableIff(s);
      hide Viable, Accepts, Next, Low, High;
      var c :| Reaches(s, c);
      more := Spelled(s, c);
    }
  }
}
