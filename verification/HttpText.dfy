/** The small text rules of src/http/http_parser.cpp and src/http/http_headers.cpp. */
module HttpText {
  import opened Bytes

  const TWO_64: nat := 0x1_0000_0000_0000_0000

  /** The bytes of an ASCII literal. */
  function Ascii(s: string): Bytes {
    seq(|s|, i requires 0 <= i < |s| => s[i] as int % 0x100)
  }

  predicate IsOws(c: byte) { c == SP || c == TAB }

  function TrimLeft(s: Bytes): Bytes {
    if s != [] && IsOws(s[0]) then TrimLeft(s[1..]) else s
  }

  function TrimRight(s: Bytes): Bytes {
    if s != [] && IsOws(s[|s| - 1]) then TrimRight(s[..|s| - 1]) else s
  }

  function TrimOws(s: Bytes): Bytes { TrimRight(TrimLeft(s)) }

  predicate IsDigit(c: byte) { '0' as int <= c <= '9' as int }

  predicate IsTokenChar(c: byte) {
    || IsDigit(c) || 'a' as int <= c <= 'z' as int || 'A' as int <= c <= 'Z' as int
    || c in Ascii("!#$%&'*+-.^_`|~")
  }

  predicate IsToken(s: Bytes) {
    s != [] && forall c | c in s :: IsTokenChar(c)
  }

  function ToLower(c: byte): byte { if 'A' as int <= c <= 'Z' as int then c + 32 else c }

  function Lower(s: Bytes): Bytes { seq(|s|, i requires 0 <= i < |s| => ToLower(s[i])) }

  predicate SameName(a: Bytes, b: Bytes) { Lower(a) == Lower(b) }

  function IndexOf(s: Bytes, c: byte): (r: Option<nat>)
    ensures r.Some? ==> r.value < |s|
  {
    Find(s, [c])
  }

  function SplitCommas(value: Bytes): seq<Bytes>
    decreases |value|
  {
    if value == [] then []
    else
      var comma := IndexOf(value, ',' as int);
      if comma.None? then [TrimOws(value)]
      else [TrimOws(value[..comma.value])] + SplitCommas(value[comma.value + 1..])
  }

  function DigitValue(c: byte): Option<nat> {
    if IsDigit(c) then Some(c - '0' as int)
    else if 'a' as int <= c <= 'f' as int then Some(c - 'a' as int + 10)
    else if 'A' as int <= c <= 'F' as int then Some(c - 'A' as int + 10)
    else None
  }

  /** The value of a digit string, None when a character is no digit of the base. */
  function Numeral(base: nat, s: Bytes): Option<nat> {
    if s == [] then Some(0)
    else
      var high := Numeral(base, s[..|s| - 1]);
      var low := DigitValue(s[|s| - 1]);
      if high.None? || low.None? || low.value >= base then None else Some(high.value * base + low.value)
  }

  /** std::from_chars on the whole trimmed text, for std::uint64_t. */
  function ParseU64(base: nat, text: Bytes): Option<nat> {
    var s := TrimOws(text);
    var v := Numeral(base, s);
    if s == [] || v.None? || v.value >= TWO_64 then None else v
  }

  /** A backslash escapes the next character; an open escape or a bare quote is refused. */
  predicate QuotedContent(s: Bytes, escaped: bool)
    decreases |s|
  {
    if s == [] then !escaped
    else if escaped then QuotedContent(s[1..], false)
    else if s[0] == '\\' as int then QuotedContent(s[1..], true)
    else s[0] != '"' as int && QuotedContent(s[1..], false)
  }

  predicate IsQuotedString(s: Bytes) {
    |s| >= 2 && s[0] == '"' as int && s[|s| - 1] == '"' as int && QuotedContent(s[1..|s| - 1], false)
  }

  predicate ValidChunkExtension(extension: Bytes) {
    var equals := IndexOf(extension, '=' as int);
    && extension != []
    && IsToken(TrimOws(if equals.None? then extension else extension[..equals.value]))
    && (equals.Some? ==>
          var v := TrimOws(extension[equals.value + 1..]);
          IsToken(v) || IsQuotedString(v))
  }

  predicate ValidChunkExtensions(value: Bytes)
    decreases |value|
  {
    if value == [] then true
    else if value[0] != ';' as int then false
    else
      var rest := value[1..];
      var next := IndexOf(rest, ';' as int);
      if next.None? then ValidChunkExtension(TrimOws(rest))
      else ValidChunkExtension(TrimOws(rest[..next.value])) && ValidChunkExtensions(rest[next.value..])
  }

  datatype Field = Field(name: Bytes, value: Bytes)

  /** HttpHeaders::values: the values of a field in order, names compared without case. */
  function Values(headers: seq<Field>, name: Bytes): seq<Bytes> {
    if headers == [] then []
    else (if SameName(headers[0].name, name) then [headers[0].value] else []) + Values(headers[1..], name)
  }

  predicate Contains(headers: seq<Field>, name: Bytes) { Values(headers, name) != [] }

  /** The comma-separated elements of every value of a field. */
  function Elements(values: seq<Bytes>): seq<Bytes> {
    if values == [] then [] else SplitCommas(values[0]) + Elements(values[1..])
  }

  predicate ForbiddenTrailer(name: Bytes) {
    Lower(name) in {Ascii("content-length"), Ascii("transfer-encoding"), Ascii("host")}
  }

  /** parse_header_line; None is bad_header. */
  function ParseHeaderLine(line: Bytes): Option<Field> {
    var colon := IndexOf(line, ':' as int);
    if (line != [] && IsOws(line[0])) || colon.None? || colon.value == 0 then None
    else if exists c | c in line[..colon.value] :: !IsTokenChar(c) then None
    else Some(Field(TrimOws(line[..colon.value]), TrimOws(line[colon.value + 1..])))
  }

  datatype Version = Http10 | Http11

  function ParseVersion(s: Bytes): Option<Version> {
    if s == Ascii("HTTP/1.1") then Some(Http11) else if s == Ascii("HTTP/1.0") then Some(Http10) else None
  }

  datatype StartLine =
    | Unread
    | Request(method_: Bytes, target: Bytes, version: Version)
    | Response(version: Version, status: int, reason: Bytes)

  function ParseRequestLine(line: Bytes): Option<StartLine> {
    var first := IndexOf(line, SP);
    if first.None? then None
    else
      var second := FindFrom(line, [SP], first.value + 1);
      if second.None? || FindFrom(line, [SP], second.value + 1).Some? then None
      else
        var version := ParseVersion(line[second.value + 1..]);
        if !IsToken(line[..first.value]) || version.None? then None
        else Some(Request(line[..first.value], line[first.value + 1..second.value], version.value))
  }

  /** std::from_chars for int on a token of three characters: a minus sign is admitted. */
  function ParseStatus(token: Bytes): Option<int> {
    if |token| != 3 then None
    else if token[0] == '-' as int then
      var v: Option<int> := Numeral(10, token[1..]);
      if v.None? then None else Some(-v.value)
    else Numeral(10, token)
  }

  function ParseResponseLine(line: Bytes): Option<StartLine> {
    var first := IndexOf(line, SP);
    if first.None? then None
    else
      var version := ParseVersion(line[..first.value]);
      var second := FindFrom(line, [SP], first.value + 1);
      var end := if second.Some? then second.value else |line|;
      var status := ParseStatus(line[first.value + 1..end]);
      if version.None? || status.None? then None
      else Some(Response(version.value, status.value, if second.Some? then line[end + 1..] else []))
  }
}
