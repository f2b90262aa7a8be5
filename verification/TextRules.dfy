/**
 * What the small text functions of src/http/http_parser.cpp and src/http/http_headers.cpp mean, said in the
 * terms of RFC 9110 and RFC 9112 instead of how they run.
 */
module TextRules {
  import opened Bytes
  import opened HttpText
  import opened HttpDecoder
  import opened HttpGrammar
  import BodyDecoder

  predicate AllOws(s: Bytes) { forall i | 0 <= i < |s| :: s[i] == 32 || s[i] == 9 }

  /** No space or tab at either end. */
  predicate Bare(s: Bytes) { s != [] ==> s[0] !in {32, 9} && s[|s| - 1] !in {32, 9} }

  lemma {:induction false} LeftTrim(s: Bytes) returns (before: Bytes)
    ensures AllOws(before) && s == before + TrimLeft(s)
    ensures TrimLeft(s) != [] ==> TrimLeft(s)[0] !in {32, 9}
    decreases |s|
  {
    before := [];
    if s != [] && IsOws(s[0]) {
      var more := LeftTrim(s[1..]);
      before := [s[0]] + more;
      assert s == [s[0]] + s[1..];
    }
  }

  lemma {:induction false} RightTrim(s: Bytes) returns (behind: Bytes)
    ensures AllOws(behind) && s == TrimRight(s) + behind
    ensures TrimRight(s) != [] ==> TrimRight(s)[|TrimRight(s)| - 1] !in {32, 9}
    decreases |s|
  {
    behind := [];
    if s != [] && IsOws(s[|s| - 1]) {
      var more := RightTrim(s[..|s| - 1]);
      behind := more + [s[|s| - 1]];
      assert s == s[..|s| - 1] + [s[|s| - 1]];
    }
  }

  lemma {:induction false} LeftTrimmed(before: Bytes, t: Bytes)
    requires AllOws(before) && (t != [] ==> t[0] !in {32, 9})
    ensures TrimLeft(before + t) == t
    decreases |before|
  {
    if before == [] {
      assert before + t == t;
    } else {
      assert (before + t)[1..] == before[1..] + t && (before + t)[0] == before[0];
      LeftTrimmed(before[1..], t);
    }
  }

  lemma {:induction false} RightTrimmed(t: Bytes, behind: Bytes)
    requires AllOws(behind) && (t != [] ==> t[|t| - 1] !in {32, 9})
    ensures TrimRight(t + behind) == t
    decreases |behind|
  {
    if behind == [] {
      assert t + behind == t;
    } else {
      var n := |behind| - 1;
      var all := t + behind;
      assert all[..|all| - 1] == t + behind[..n] && all[|all| - 1] == behind[n];
      RightTrimmed(t, behind[..n]);
    }
  }

  /** Trimming takes the spaces and tabs off both ends and nothing else. */
  lemma TrimOwsIs(s: Bytes, t: Bytes)
    ensures TrimOws(s) == t <==>
            && Bare(t)
            && exists before: Bytes, behind: Bytes :: AllOws(before) && AllOws(behind) && s == before + t + behind
  {
    if TrimOws(s) == t {
      var before := LeftTrim(s);
      var behind := RightTrim(TrimLeft(s));
      assert s == before + t + behind;
      if t != [] {
        assert t[0] == TrimLeft(s)[0];
      }
    }
    forall before: Bytes, behind: Bytes | Bare(t) && AllOws(before) && AllOws(behind) && s == before + t + behind
      ensures TrimOws(s) == t
    {
      TrimmedBetween(before, t, behind);
    }
  }

  lemma TrimmedBetween(before: Bytes, t: Bytes, behind: Bytes)
    requires Bare(t) && AllOws(before) && AllOws(behind)
    ensures TrimOws(before + t + behind) == t
  {
    if t == [] {
      var all := before + behind;
      assert before + t + behind == all + [];
      LeftTrimmed(all, []);
    } else {
      assert before + t + behind == before + (t + behind);
      LeftTrimmed(before, t + behind);
      RightTrimmed(t, behind);
    }
  }

  /** Hexadecimal digits in both cases, with their values. */
  lemma HexDigitIs(c: byte, v: nat)
    ensures DigitValue(c) == Some(v) <==>
            v < 16 && (c == "0123456789abcdef"[v] as int || c == "0123456789ABCDEF"[v] as int)
  {
  }

  /** A number is read when it is one of 64 bits: some digits of the base, with white space around them. */
  lemma U64Is(base: nat, text: Bytes, n: nat)
    ensures ParseU64(base, text) == Some(n) <==>
            TrimOws(text) != [] && Numeral(base, TrimOws(text)) == Some(n) && n < 0x1_0000_0000_0000_0000
  {
    hide TrimOws, Numeral;
  }

  /** Decimal digits are the ten of ASCII. */
  lemma DigitIs(c: byte)
    ensures IsDigit(c) <==> exists v: nat | v < 10 :: c == "0123456789"[v] as int
  {
    if IsDigit(c) {
      var v := c - 48;
      assert c == "0123456789"[v] as int;
    }
  }

  /** Quote, parentheses, comma, slash, colons, comparisons, question mark, at, brackets, backslash and braces. */
  const DELIMITERS: set<int> := {34, 40, 41, 44, 47, 58, 59, 60, 61, 62, 63, 64, 91, 92, 93, 123, 125}

  /** A token character is any visible ASCII character that is not a delimiter (section 5.6.2 of RFC 9110). */
  lemma TokenCharIs(c: byte)
    ensures IsTokenChar(c) <==> 0x21 <= c <= 0x7E && c !in DELIMITERS
  {
    Marks();
    hide Ascii;
    assert c in MARKS <==> c in {33, 35, 36, 37, 38, 39, 42, 43, 45, 46, 94, 95, 96, 124, 126};
  }

  const MARKS: Bytes := [33, 35, 36, 37, 38, 39, 42, 43, 45, 46, 94, 95, 96, 124, 126]

  lemma Marks()
    ensures Ascii("!#$%&'*+-.^_`|~") == MARKS
  {
  }

  /** Letters differ in one bit between the cases; nothing else has a case. */
  lemma LowerIs(c: byte)
    ensures ToLower(c) == if 65 <= c <= 90 then c + 32 else c
    ensures 97 <= c <= 122 ==> ToLower(c - 32) == c
  {
  }

  /** Names are the same when they are the same letter by letter, in either case. */
  lemma SameNameIs(a: Bytes, b: Bytes)
    ensures SameName(a, b) <==>
            |a| == |b| && forall i | 0 <= i < |a| ::
                            || a[i] == b[i]
                            || (65 <= a[i] <= 90 && b[i] == a[i] + 32) || (65 <= b[i] <= 90 && a[i] == b[i] + 32)
  {
    if SameName(a, b) {
      assert |Lower(a)| == |a| && |Lower(b)| == |b|;
      forall i | 0 <= i < |a| ensures ToLower(a[i]) == ToLower(b[i]) {
        assert Lower(a)[i] == Lower(b)[i];
      }
    } else if |a| == |b| {
      assert exists i | 0 <= i < |a| :: Lower(a)[i] != Lower(b)[i];
    }
  }

  function Units(c: byte): nat
    requires IsDigit(c)
  {
    c - 48
  }

  /** A status is three digits, or, as the library reads it, a minus sign and two. */
  lemma StatusIs(token: Bytes, status: int)
    ensures ParseStatus(token) == Some(status) <==>
            |token| == 3 && IsDigit(token[1]) && IsDigit(token[2]) &&
            var low := 10 * Units(token[1]) + Units(token[2]);
            if token[0] == 45 then status == -low
            else IsDigit(token[0]) && status == 100 * Units(token[0]) + low
  {
    if |token| == 3 {
      Numeral3(token);
      Numeral2(token[1..]);
    }
  }

  lemma Numeral1(s: Bytes)
    requires |s| == 1
    ensures Numeral(10, s) == if IsDigit(s[0]) then Some(Units(s[0])) else None
  {
    assert s[..0] == [];
  }

  lemma Numeral2(s: Bytes)
    requires |s| == 2
    ensures Numeral(10, s) == if IsDigit(s[0]) && IsDigit(s[1]) then Some(10 * Units(s[0]) + Units(s[1])) else None
  {
    Numeral1(s[..1]);
  }

  lemma Numeral3(s: Bytes)
    requires |s| == 3
    ensures Numeral(10, s) == if IsDigit(s[0]) && IsDigit(s[1]) && IsDigit(s[2])
                              then Some(100 * Units(s[0]) + 10 * Units(s[1]) + Units(s[2])) else None
  {
    Numeral2(s[..2]);
  }

  /** Pieces with one byte between them. */
  function Joined(pieces: seq<Bytes>, c: byte): Bytes
    requires pieces != []
  {
    if |pieces| == 1 then pieces[0] else pieces[0] + [c] + Joined(pieces[1..], c)
  }

  predicate NoneHas(pieces: seq<Bytes>, c: byte) { forall p | p in pieces :: c !in p }

  function AllTrimmed(pieces: seq<Bytes>): seq<Bytes> {
    if pieces == [] then [] else [TrimOws(pieces[0])] + AllTrimmed(pieces[1..])
  }

  lemma FoundBehind(name: Bytes, c: byte, rest: Bytes)
    requires c !in name
    ensures IndexOf(name + [c] + rest, c) == Some(|name|)
    ensures (name + [c] + rest)[..|name|] == name && (name + [c] + rest)[|name| + 1..] == rest
  {
    var text := name + [c] + rest;
    forall j | 0 <= j < |name| ensures text[j] != c {
      assert text[j] == name[j];
    }
    FindByte(text, c, |name|);
  }

  lemma NotFound(s: Bytes, c: byte)
    requires c !in s
    ensures IndexOf(s, c).None?
  {
    FoundByte(s, c);
  }

  /** A list value is cut at its commas and the pieces are trimmed; only an empty piece at the end is not there. */
  lemma {:induction false} ListIs(pieces: seq<Bytes>)
    requires pieces != [] && NoneHas(pieces, 44)
    ensures var last := pieces[|pieces| - 1];
            SplitCommas(Joined(pieces, 44)) == AllTrimmed(if last == [] then pieces[..|pieces| - 1] else pieces)
    decreases |pieces|
  {
    hide TrimOws, IndexOf;
    assert pieces[0] in pieces;
    if |pieces| == 1 {
      NotFound(pieces[0], 44);
      assert pieces[..0] == [] && pieces[1..] == [];
    } else {
      var more := pieces[1..];
      assert forall p | p in more :: p in pieces;
      ListIs(more);
      FoundBehind(pieces[0], 44, Joined(more, 44));
      var n := |pieces| - 1;
      assert pieces[..n][0] == pieces[0] && pieces[..n][1..] == more[..n - 1];
      assert more[|more| - 1] == pieces[n];
    }
  }

  /** A quoted string between its quotes: single characters, or a backslash with any character behind it. */
  predicate QuotedItem(item: Bytes) {
    (|item| == 1 && item[0] != 34 && item[0] != 92) || (|item| == 2 && item[0] == 92)
  }

  lemma {:induction false} QuotedReads(items: seq<Bytes>)
    requires forall item | item in items :: QuotedItem(item)
    ensures QuotedContent(Concat(items), false)
  {
    if items != [] {
      assert QuotedItem(items[0]);
      assert forall item | item in items[1..] :: item in items;
      QuotedReads(items[1..]);
      var rest := Concat(items[1..]);
      var all := items[0] + rest;
      assert Concat(items) == all;
      if |items[0]| == 1 {
        assert all[1..] == rest;
      } else {
        assert all[1..][1..] == rest && all[0] == 92;
      }
    }
  }

  lemma {:induction false} QuotedBack(s: Bytes) returns (items: seq<Bytes>)
    requires QuotedContent(s, false)
    ensures Concat(items) == s && forall item | item in items :: QuotedItem(item)
    decreases |s|
  {
    items := [];
    if s != [] {
      var n := if s[0] == 92 then 2 else 1;
      assert s[0] == 92 ==> s[1..] != [] && s[1..][1..] == s[2..];
      var more := QuotedBack(s[n..]);
      items := [s[..n]] + more;
      assert items[1..] == more && items[0] == s[..n];
      assert s == s[..n] + s[n..];
    }
  }

  lemma QuotedStringIs(s: Bytes)
    ensures IsQuotedString(s) <==>
            exists items: seq<Bytes> ::
              (forall item | item in items :: QuotedItem(item)) && s == [34] + Concat(items) + [34]
  {
    if IsQuotedString(s) {
      var items := QuotedBack(s[1..|s| - 1]);
      assert s == [34] + Concat(items) + [34];
    }
    forall items: seq<Bytes>
      | (forall item | item in items :: QuotedItem(item)) && s == [34] + Concat(items) + [34]
      ensures IsQuotedString(s)
    {
      QuotedReads(items);
      assert s[1..|s| - 1] == Concat(items);
    }
  }

  /** One extension: a token, or a token, an equals sign and a token or quoted string, with white space around it. */
  ghost predicate Extension(e: Bytes) {
    || IsToken(TrimOws(e))
    || exists name: Bytes, value: Bytes ::
         && 61 !in name && TrimOws(e) == name + [61] + value && IsToken(TrimOws(name))
         && (IsToken(TrimOws(value)) || IsQuotedString(TrimOws(value)))
  }

  lemma ExtensionIs(e: Bytes)
    ensures ValidChunkExtension(TrimOws(e)) <==> Extension(e)
  {
    var t := TrimOws(e);
    TrimAgain(e);
    hide TrimOws, IsQuotedString;
    FoundByte(t, 61);
    if IndexOf(t, 61).Some? {
      var n := IndexOf(t, 61).value;
      var name, value := t[..n], t[n + 1..];
      assert t == name + [61] + value;
      assert !IsToken(t) by { assert !IsTokenChar(61) && 61 in t; }
      forall a: Bytes, b: Bytes | 61 !in a && t == a + [61] + b ensures a == name && b == value {
        FoundBehind(a, 61, b);
      }
    } else {
      forall a: Bytes, b: Bytes ensures t != a + [61] + b {
        Holds(a, 61, b);
      }
    }
  }

  lemma Holds(a: Bytes, c: byte, b: Bytes)
    ensures c in a + [c] + b
  {
    assert (a + [c] + b)[|a|] == c;
  }

  lemma TrimAgain(s: Bytes)
    ensures TrimOws(TrimOws(s)) == TrimOws(s)
  {
    TrimOwsIs(s, TrimOws(s));
    var t := TrimOws(s);
    TrimmedBetween([], t, []);
    assert [] + t + [] == t;
  }

  /** A size line: the size, and extensions each behind a semicolon. */
  function SizeLine(size: Bytes, extensions: seq<Bytes>): Bytes {
    if extensions == [] then size else size + [59] + Joined(extensions, 59)
  }

  lemma {:induction false} ExtensionsAre(extensions: seq<Bytes>)
    requires extensions != [] && NoneHas(extensions, 59)
    ensures ValidChunkExtensions([59] + Joined(extensions, 59)) <==> forall e | e in extensions :: Extension(e)
    decreases |extensions|
  {
    hide TrimOws, IndexOf, Extension, ValidChunkExtension;
    var text := [59] + Joined(extensions, 59);
    assert extensions[0] in extensions;
    ExtensionIs(extensions[0]);
    assert text[1..] == Joined(extensions, 59);
    if |extensions| == 1 {
      NotFound(extensions[0], 59);
      assert forall e | e in extensions :: e == extensions[0];
    } else {
      var more := extensions[1..];
      assert forall e | e in more :: e in extensions;
      assert forall e | e in extensions :: e == extensions[0] || e in more;
      ExtensionsAre(more);
      FoundBehind(extensions[0], 59, Joined(more, 59));
      var rest := Joined(extensions, 59);
      assert rest == extensions[0] + [59] + Joined(more, 59);
      assert rest[|extensions[0]|..] == [59] + Joined(more, 59);
    }
  }

  /** A chunk-size line is read exactly when its size is a hexadecimal number and all its extensions are well formed. */
  lemma SizeLineIs(size: Bytes, extensions: seq<Bytes>)
    requires 59 !in size && NoneHas(extensions, 59)
    ensures ParseChunkLine(SizeLine(size, extensions))
            == if forall e | e in extensions :: Extension(e) then ParseU64(16, size) else None
  {
    hide IndexOf, ParseU64, ValidChunkExtensions, Extension;
    if extensions == [] {
      NotFound(size, 59);
    } else {
      ExtensionsAre(extensions);
      FoundBehind(size, 59, Joined(extensions, 59));
      var line := size + [59] + Joined(extensions, 59);
      assert line[|size|..] == [59] + Joined(extensions, 59);
    }
  }

  /** What the streaming decoder asks of a trailer line: a name that does not start with white space, and a colon. */
  lemma TrailerLineIs(line: Bytes)
    ensures BodyDecoder.ValidTrailerLine(line) <==>
            exists name: Bytes, value: Bytes ::
              name != [] && 58 !in name && name[0] !in {32, 9} && line == name + [58] + value
  {
    hide IndexOf;
    FoundByte(line, 58);
    if IndexOf(line, 58).Some? {
      var n := IndexOf(line, 58).value;
      assert line == line[..n] + [58] + line[n + 1..];
    }
    forall name: Bytes, value: Bytes
      | name != [] && 58 !in name && name[0] !in {32, 9} && line == name + [58] + value
      ensures BodyDecoder.ValidTrailerLine(line)
    {
      FoundBehind(name, 58, value);
    }
  }

  /** The characters that frame lines and fields. */
  lemma Characters()
    ensures CRLF == [13, 10] && CR == 13 && LF == 10 && SP == 32 && TAB == 9
  {
  }

  /** A trailer is a header line whose name is none of the three that frame a message. */
  lemma TrailerIs(line: Bytes, f: Field)
    ensures ParseTrailerLine(line) == Some(f) <==>
            && ParseHeaderLine(line) == Some(f)
            && !SameName(f.name, Ascii("Content-Length")) && !SameName(f.name, Ascii("Transfer-Encoding"))
            && !SameName(f.name, Ascii("Host"))
  {
    hide TrimOws, IndexOf, IsToken;
    LowerNames();
    if ParseHeaderLine(line).Some? {
      var name := ParseHeaderLine(line).value.name;
      HeaderLineIff(line, name, ParseHeaderLine(line).value.value);
      ColonFirst(line, name);
    }
    hide Lower, Ascii, ParseHeaderLine;
  }

  lemma LowerNames()
    ensures Lower(Ascii("Content-Length")) == Ascii("content-length")
    ensures Lower(Ascii("Transfer-Encoding")) == Ascii("transfer-encoding")
    ensures Lower(Ascii("Host")) == Ascii("host")
  {
    LowerLength();
    LowerEncoding();
    LowerHost();
    hide Lower, Ascii;
  }

  lemma LowerLength()
    ensures Lower(Ascii("Content-Length")) == Ascii("content-length")
  {
  }

  lemma LowerEncoding()
    ensures Lower(Ascii("Transfer-Encoding")) == Ascii("transfer-encoding")
  {
  }

  lemma LowerHost()
    ensures Lower(Ascii("Host")) == Ascii("host")
  {
  }

  /** A coding is a lower-cased word without its parameters; what is left empty is not one. */
  lemma CodingIs(word: Bytes, parameters: Bytes)
    requires 59 !in word
    ensures StripParameters(word) == word
    ensures StripParameters(word + [59] + parameters) == TrimRight(word)
  {
    hide IndexOf, TrimRight;
    NotFound(word, 59);
    FoundBehind(word, 59, parameters);
  }
}
