/** Which message heads src/http/http_parser.cpp accepts, said without a parser, and whole messages read back. */
module HttpGrammar {
  import opened Bytes
  import opened Incremental
  import opened HttpText
  import opened HttpDecoder

  function VersionText(v: Version): Bytes { if v == Http11 then Ascii("HTTP/1.1") else Ascii("HTTP/1.0") }

  lemma FindByte(s: Bytes, c: byte, i: nat)
    requires i < |s| && s[i] == c && forall j | 0 <= j < i :: s[j] != c
    ensures IndexOf(s, c) == Some(i)
  {
    forall j: nat ensures OccursAt(s, [c], j) <==> j < |s| && s[j] == c {
      if j < |s| {
        assert s[j..j + 1] == [s[j]];
      }
    }
    FindIs(s, [c], i);
  }

  lemma FoundByte(s: Bytes, c: byte)
    ensures IndexOf(s, c).Some? ==> s[IndexOf(s, c).value] == c && c !in s[..IndexOf(s, c).value]
    ensures IndexOf(s, c).None? ==> c !in s
  {
    var one := [c];
    FindFirst(s, one);
    forall j: nat ensures OccursAt(s, one, j) <==> j < |s| && s[j] == c {
      if j < |s| {
        assert s[j..j + 1] == [s[j]];
      }
    }
  }

  lemma FoundByteFrom(s: Bytes, c: byte, start: nat)
    requires start <= |s|
    ensures FindFrom(s, [c], start)
            == if IndexOf(s[start..], c).Some? then Some(start + IndexOf(s[start..], c).value) else None
  {
    hide Find, FindFrom;
    FindFromIsFind(s, [c], start);
  }

  /** The request line is method, target and version with single spaces between them, and nothing else. */
  lemma RequestLineIff(line: Bytes, verb: Bytes, target: Bytes, version: Version)
    ensures ParseRequestLine(line) == Some(StartLine.Request(verb, target, version)) <==>
            IsToken(verb) && SP !in target && line == verb + [SP] + target + [SP] + VersionText(version)
  {
    if ParseRequestLine(line) == Some(StartLine.Request(verb, target, version)) {
      RequestLineBack(line, verb, target, version);
    }
    if IsToken(verb) && SP !in target && line == verb + [SP] + target + [SP] + VersionText(version) {
      RequestLineReads(verb, target, version);
    }
  }

  lemma VersionBack(s: Bytes, v: Version)
    ensures ParseVersion(s) == Some(v) <==> s == VersionText(v)
  {
    assert Ascii("HTTP/1.1")[7] != Ascii("HTTP/1.0")[7];
  }

  lemma NoSpaces(verb: Bytes, v: Version)
    ensures IsToken(verb) ==> SP !in verb
    ensures SP !in VersionText(v)
  {
    assert !IsTokenChar(SP);
  }

  lemma RequestLineReads(verb: Bytes, target: Bytes, version: Version)
    requires IsToken(verb) && SP !in target
    ensures ParseRequestLine(verb + [SP] + target + [SP] + VersionText(version))
            == Some(StartLine.Request(verb, target, version))
  {
    var text := VersionText(version);
    var line := verb + [SP] + target + [SP] + text;
    var first := |verb|;
    var second := |verb| + 1 + |target|;
    NoSpaces(verb, version);
    VersionBack(text, version);
    hide IsToken, VersionText, ParseVersion, FindFrom;
    FindByte(line, SP, first);
    var rest := line[first + 1..];
    assert rest == target + [SP] + text;
    FindByte(rest, SP, |target|);
    FoundByteFrom(line, SP, first + 1);
    FoundByteFrom(line, SP, second + 1);
    assert line[second + 1..] == text;
    FoundByte(text, SP);
    assert line[..first] == verb && line[first + 1..second] == target;
  }

  /** Where the two spaces of an accepted request line stand. */
  lemma RequestSpaces(line: Bytes, verb: Bytes, target: Bytes, version: Version) returns (first: nat, second: nat)
    requires ParseRequestLine(line) == Some(StartLine.Request(verb, target, version))
    ensures first < second < |line| && line[first] == SP && line[second] == SP
    ensures IsToken(verb) && verb == line[..first] && target == line[first + 1..second] && SP !in target
    ensures ParseVersion(line[second + 1..]) == Some(version)
  {
    hide IsToken, FindFrom, VersionText, ParseVersion;
    FoundByte(line, SP);
    first := IndexOf(line, SP).value;
    FoundByteFrom(line, SP, first + 1);
    FoundByte(line[first + 1..], SP);
    second := FindFrom(line, [SP], first + 1).value;
    hide IndexOf;
    Between(line, first + 1, second);
    assert line[first + 1..][second - first - 1] == line[second];
  }

  lemma RequestLineBack(line: Bytes, verb: Bytes, target: Bytes, version: Version)
    requires ParseRequestLine(line) == Some(StartLine.Request(verb, target, version))
    ensures IsToken(verb) && SP !in target && line == verb + [SP] + target + [SP] + VersionText(version)
  {
    var first, second := RequestSpaces(line, verb, target, version);
    VersionBack(line[second + 1..], version);
    Around(line, first);
    Between(line, first + 1, second);
    hide *;
    Reassociate(line[..first] + [SP], target + [SP], line[second + 1..]);
    Reassociate(line[..first] + [SP], target, [SP]);
  }

  /** Version, a status of three characters, and whatever follows a second space as the reason. */
  predicate StatusLine(line: Bytes, version: Version, token: Bytes, reason: Bytes) {
    && |token| == 3 && SP !in token
    && ((reason == [] && line == VersionText(version) + [SP] + token)
        || line == VersionText(version) + [SP] + token + [SP] + reason)
  }

  lemma StatusLineReads(line: Bytes, version: Version, token: Bytes, reason: Bytes)
    requires StatusLine(line, version, token, reason) && ParseStatus(token).Some?
    ensures ParseResponseLine(line) == Some(StartLine.Response(version, ParseStatus(token).value, reason))
  {
    hide ParseStatus, VersionText, ParseResponseLine;
    if reason == [] && line == VersionText(version) + [SP] + token {
      ShortStatusLine(version, token);
    } else {
      LongStatusLine(version, token, reason);
    }
  }

  lemma ShortStatusLine(version: Version, token: Bytes)
    requires |token| == 3 && SP !in token && ParseStatus(token).Some?
    ensures ParseResponseLine(VersionText(version) + [SP] + token)
            == Some(StartLine.Response(version, ParseStatus(token).value, []))
  {
    var text := VersionText(version);
    var line := text + [SP] + token;
    NoSpaces([], version);
    VersionBack(text, version);
    hide VersionText, ParseVersion, FindFrom, ParseStatus;
    FindByte(line, SP, |text|);
    assert line[|text| + 1..] == token && line[..|text|] == text;
    FoundByteFrom(line, SP, |text| + 1);
    FoundByte(token, SP);
    hide IndexOf;
    assert line[|text| + 1..|line|] == token;
  }

  lemma LongStatusLine(version: Version, token: Bytes, reason: Bytes)
    requires |token| == 3 && SP !in token && ParseStatus(token).Some?
    ensures ParseResponseLine(VersionText(version) + [SP] + token + [SP] + reason)
            == Some(StartLine.Response(version, ParseStatus(token).value, reason))
  {
    var text := VersionText(version);
    var line := text + [SP] + token + [SP] + reason;
    NoSpaces([], version);
    VersionBack(text, version);
    hide VersionText, ParseVersion, FindFrom, ParseStatus;
    FindByte(line, SP, |text|);
    var rest := line[|text| + 1..];
    assert rest == token + [SP] + reason && line[..|text|] == text;
    FoundByteFrom(line, SP, |text| + 1);
    assert forall i | 0 <= i < 3 :: rest[i] == token[i] && token[i] in token;
    FindByte(rest, SP, 3);
    hide IndexOf;
    assert line[|text| + 1..|text| + 4] == token && line[|text| + 5..] == reason;
  }

  lemma StatusLength(token: Bytes)
    ensures ParseStatus(token).Some? ==> |token| == 3
  {
    hide Numeral;
  }

  /** Where the token of an accepted status line stands, and the space behind it if there is one. */
  lemma StatusSpaces(line: Bytes, version: Version, status: int, reason: Bytes) returns (first: nat, end: nat)
    requires ParseResponseLine(line) == Some(StartLine.Response(version, status, reason))
    ensures first + 1 <= end <= |line| && end == first + 4 && line[first] == SP
    ensures ParseVersion(line[..first]) == Some(version) && ParseStatus(line[first + 1..end]) == Some(status)
    ensures SP !in line[first + 1..end]
    ensures if end < |line| then line[end] == SP && reason == line[end + 1..] else reason == []
  {
    hide FindFrom, VersionText, ParseVersion, ParseStatus;
    FoundByte(line, SP);
    first := IndexOf(line, SP).value;
    FoundByteFrom(line, SP, first + 1);
    var rest := line[first + 1..];
    FoundByte(rest, SP);
    var second := FindFrom(line, [SP], first + 1);
    end := if second.Some? then second.value else |line|;
    StatusLength(line[first + 1..end]);
    hide IndexOf;
    if end < |line| {
      Between(line, first + 1, end);
      assert rest[end - first - 1] == line[end];
    }
  }

  lemma StatusLineBack(line: Bytes, version: Version, status: int, reason: Bytes) returns (token: Bytes)
    requires ParseResponseLine(line) == Some(StartLine.Response(version, status, reason))
    ensures StatusLine(line, version, token, reason) && ParseStatus(token) == Some(status)
  {
    var first, end := StatusSpaces(line, version, status, reason);
    token := line[first + 1..end];
    VersionBack(line[..first], version);
    hide ParseResponseLine, ParseStatus, VersionText;
    Around(line, first);
    if end < |line| {
      Between(line, first + 1, end);
      Reassociate(line[..first] + [SP], token + [SP], reason);
      Reassociate(line[..first] + [SP], token, [SP]);
    }
  }

  /** Exactly the status lines with a numeric status are accepted. */
  lemma StatusLineIff(line: Bytes, version: Version, status: int, reason: Bytes)
    ensures ParseResponseLine(line) == Some(StartLine.Response(version, status, reason)) <==>
            exists token :: StatusLine(line, version, token, reason) && ParseStatus(token) == Some(status)
  {
    if ParseResponseLine(line) == Some(StartLine.Response(version, status, reason)) {
      var token := StatusLineBack(line, version, status, reason);
    }
    forall token | StatusLine(line, version, token, reason) && ParseStatus(token) == Some(status)
      ensures ParseResponseLine(line) == Some(StartLine.Response(version, status, reason)) {
      StatusLineReads(line, version, token, reason);
    }
    hide StatusLine, ParseStatus, ParseResponseLine;
  }

  lemma TokenIsTrim(name: Bytes)
    requires IsToken(name)
    ensures TrimOws(name) == name
  {
    assert name[0] in name && name[|name| - 1] in name;
    assert !IsTokenChar(SP) && !IsTokenChar(TAB);
    hide IsTokenChar;
  }

  lemma HeaderLineBack(line: Bytes, name: Bytes, value: Bytes)
    requires ParseHeaderLine(line) == Some(Field(name, value))
    ensures IsToken(name) && StartsWith(line, name + [':' as int]) && TrimOws(line[|name| + 1..]) == value
  {
    var colon: byte := ':' as int;
    FoundByte(line, colon);
    hide TrimOws, IsTokenChar, IndexOf;
    var i := IndexOf(line, colon).value;
    var field := line[..i];
    assert IsToken(field);
    TokenIsTrim(field);
    assert line[..i + 1] == field + [colon];
  }

  lemma ColonFirst(line: Bytes, name: Bytes)
    requires IsToken(name) && StartsWith(line, name + [':' as int])
    ensures IndexOf(line, ':' as int) == Some(|name|) && line[..|name|] == name && line[0] == name[0]
  {
    var colon: byte := ':' as int;
    var n := |name|;
    assert !IsTokenChar(colon);
    hide IsTokenChar, IndexOf;
    var front := name + [colon];
    assert line[..n + 1] == front;
    forall j | 0 <= j < n ensures line[j] == name[j] != colon {
      assert line[j] == front[j] && name[j] in name;
    }
    assert line[n] == front[n];
    FindByte(line, colon, n);
    assert line[..n] == name;
  }

  lemma HeaderLineReads(line: Bytes, name: Bytes, value: Bytes)
    requires IsToken(name) && StartsWith(line, name + [':' as int]) && TrimOws(line[|name| + 1..]) == value
    ensures ParseHeaderLine(line) == Some(Field(name, value))
  {
    ColonFirst(line, name);
    TokenIsTrim(name);
    assert !IsTokenChar(SP) && !IsTokenChar(TAB);
    assert IsTokenChar(name[0]);
    hide TrimOws, IsTokenChar, IndexOf, StartsWith;
  }

  /** A header line is a token, a colon, and the value with optional white space around it. */
  lemma HeaderLineIff(line: Bytes, name: Bytes, value: Bytes)
    ensures ParseHeaderLine(line) == Some(Field(name, value)) <==>
            IsToken(name) && StartsWith(line, name + [':' as int]) && TrimOws(line[|name| + 1..]) == value
  {
    hide ParseHeaderLine, IsToken, TrimOws;
    if ParseHeaderLine(line) == Some(Field(name, value)) {
      HeaderLineBack(line, name, value);
    } else if IsToken(name) && StartsWith(line, name + [':' as int]) && TrimOws(line[|name| + 1..]) == value {
      HeaderLineReads(line, name, value);
    }
  }

  /** A line that ends at its own line end. */
  predicate WholeLine(line: Bytes) { Find(line + CRLF, CRLF) == Some(|line|) }

  predicate HeaderLine(line: Bytes) { line != [] && WholeLine(line) && ParseHeaderLine(line).Some? }

  predicate HeaderLines(lines: seq<Bytes>) { forall l | l in lines :: HeaderLine(l) }

  function FieldsOf(lines: seq<Bytes>): seq<Field>
    requires HeaderLines(lines)
  {
    if lines == [] then []
    else
      assert HeaderLine(lines[0]);
      [ParseHeaderLine(lines[0]).value] + FieldsOf(lines[1..])
  }

  /** The lines of a header section and the empty line behind them. */
  function Section(lines: seq<Bytes>): Bytes {
    if lines == [] then CRLF else lines[0] + CRLF + Section(lines[1..])
  }

  lemma LineFound(line: Bytes, rest: Bytes)
    requires WholeLine(line)
    ensures Find(line + CRLF + rest, CRLF) == Some(|line|)
  {
    FindStable(line + CRLF, rest, CRLF);
  }

  lemma LineCut(text: Bytes)
    requires Find(text, CRLF).Some?
    ensures var n := Find(text, CRLF).value;
            n + 2 <= |text| && WholeLine(text[..n]) && text == text[..n] + CRLF + text[n + 2..]
  {
    FindFirst(text, CRLF);
    var n := Find(text, CRLF).value;
    var line := text[..n];
    assert text[n..n + 2] == CRLF;
    assert text == line + CRLF + text[n + 2..];
    forall j: nat | j <= n ensures OccursAt(line + CRLF, CRLF, j) <==> OccursAt(text, CRLF, j) {
      OccursInPrefix(line + CRLF, text[n + 2..], CRLF, j);
    }
    FindIs(line + CRLF, CRLF, n);
  }

  /** The state when all header lines have been read, just before the empty line is acted on. */
  function WithFields(s: State, lines: seq<Bytes>): State
    requires s.Active? && HeaderLines(lines)
  {
    s.(headerBytes := s.headerBytes + |Section(lines)|,
      message := s.message.(headers := s.message.headers + FieldsOf(lines)))
  }

  /** Where a run goes from the end of a header section. */
  function Onward(cfg: Config, u: State, rest: Bytes): Cursor<State> {
    if u.Failed? || u.phase == Complete || cfg.headOnly then Cursor(u, rest) else Run(Decoder(cfg), Cursor(u, rest))
  }

  lemma EmptyLineFound(rest: Bytes)
    ensures Find(CRLF + rest, CRLF) == Some(0) && (CRLF + rest)[2..] == rest
  {
    assert OccursAt(CRLF + rest, CRLF, 0);
    FindIs(CRLF + rest, CRLF, 0);
  }

  lemma EmptyLineOutcome(cfg: Config, s: State, rest: Bytes)
    requires s.Active? && s.phase == Headers && s.headerBytes + 2 <= cfg.options.maxHeaders
    ensures var u := FinishHeaders(cfg, s.(headerBytes := s.headerBytes + 2));
            StepHttp(cfg, s, CRLF + rest)
            == if u.Failed? || u.phase == Complete || cfg.headOnly then Halt(u, 2) else Advance(u, 2)
  {
    hide FinishHeaders, Find, ParseHeaderLine;
    EmptyLineFound(rest);
  }

  lemma EmptyLineStep(cfg: Config, s: State, rest: Bytes)
    requires s.Active? && s.phase == Headers && s.headerBytes + 2 <= cfg.options.maxHeaders
    ensures Run(Decoder(cfg), Cursor(s, CRLF + rest))
            == Onward(cfg, FinishHeaders(cfg, s.(headerBytes := s.headerBytes + 2)), rest)
  {
    hide FinishHeaders, Find, StepHttp;
    EmptyLineOutcome(cfg, s, rest);
    EmptyLineFound(rest);
  }

  lemma HeaderStep(cfg: Config, s: State, line: Bytes, rest: Bytes)
    requires s.Active? && s.phase == Headers && HeaderLine(line) && s.headerBytes + |line| + 2 <= cfg.options.maxHeaders
    ensures StepHttp(cfg, s, line + CRLF + rest) ==
            Advance(s.(headerBytes := s.headerBytes + |line| + 2,
                       message := s.message.(headers := s.message.headers + [ParseHeaderLine(line).value])), |line| + 2)
  {
    hide Find, ParseHeaderLine, FinishHeaders;
    LineFound(line, rest);
    assert (line + CRLF + rest)[..|line|] == line;
  }

  /** A header section within its bound is read field by field, up to the framing decision. */
  lemma {:induction false} SectionReads(cfg: Config, s: State, lines: seq<Bytes>, rest: Bytes)
    requires s.Active? && s.phase == Headers && HeaderLines(lines)
    requires s.headerBytes + |Section(lines)| <= cfg.options.maxHeaders
    ensures Run(Decoder(cfg), Cursor(s, Section(lines) + rest))
            == Onward(cfg, FinishHeaders(cfg, WithFields(s, lines)), rest)
    decreases |lines|
  {
    hide StepHttp, FinishHeaders, Onward, ParseHeaderLine, Find;
    if lines == [] {
      EmptyLineStep(cfg, s, rest);
      assert s.message.headers + [] == s.message.headers;
    } else {
      var line, more := lines[0], Section(lines[1..]) + rest;
      assert HeaderLine(line);
      assert Section(lines) + rest == line + CRLF + more;
      var t := s.(headerBytes := s.headerBytes + |line| + 2,
                  message := s.message.(headers := s.message.headers + [ParseHeaderLine(line).value]));
      HeaderStep(cfg, s, line, more);
      assert (line + CRLF + more)[|line| + 2..] == more;
      SectionReads(cfg, t, lines[1..], rest);
      Reassociate(s.message.headers, [ParseHeaderLine(line).value], FieldsOf(lines[1..]));
      assert WithFields(t, lines[1..]) == WithFields(s, lines);
    }
  }

  lemma HeadersStepBack(cfg: Config, s: State, text: Bytes)
    requires s.Active? && s.phase == Headers
    ensures var o := StepHttp(cfg, s, text);
            && (o.Wait? || (o.Halt? && o.next.Failed?) || Find(text, CRLF).Some?)
            && (o.Advance? ==> o.next.Active?)
            && (Find(text, CRLF).Some? && !o.Wait? && o.next.Active? ==>
                  var n := Find(text, CRLF).value;
                  && s.headerBytes + n + 2 <= cfg.options.maxHeaders && o.used == n + 2
                  && (n == 0 ==> o.next == FinishHeaders(cfg, s.(headerBytes := s.headerBytes + 2)))
                  && (n > 0 ==> ParseHeaderLine(text[..n]).Some? && o.Advance?
                                && o.next == s.(headerBytes := s.headerBytes + n + 2,
                                                message := s.message.(headers := s.message.headers
                                                  + [ParseHeaderLine(text[..n]).value]))))
  {
    hide Find, ParseHeaderLine, FinishHeaders;
  }

  /** One line in front of a section. */
  lemma SectionCons(s: State, t: State, line: Bytes, more: seq<Bytes>)
    requires s.Active? && HeaderLine(line) && HeaderLines(more)
    requires t == s.(headerBytes := s.headerBytes + |line| + 2,
                     message := s.message.(headers := s.message.headers + [ParseHeaderLine(line).value]))
    ensures var lines := [line] + more;
            && HeaderLines(lines) && Section(lines) == line + CRLF + Section(more)
            && WithFields(t, more) == WithFields(s, lines)
  {
    hide ParseHeaderLine, WholeLine;
    var lines := [line] + more;
    assert lines[1..] == more;
    Reassociate(s.message.headers, [ParseHeaderLine(line).value], FieldsOf(more));
  }

  /** Conversely, a section that was passed consists of such lines. */
  lemma {:induction false} SectionBack(cfg: Config, s: State, text: Bytes) returns (lines: seq<Bytes>)
    requires s.Active? && s.phase == Headers && cfg.headOnly
    requires var end := Run(Decoder(cfg), Cursor(s, text));
             end.state.Active? && end.state.phase !in {StartLine, Headers}
    ensures HeaderLines(lines) && s.headerBytes + |Section(lines)| <= cfg.options.maxHeaders
    ensures var end := Run(Decoder(cfg), Cursor(s, text));
            text == Section(lines) + end.unread && end.state == FinishHeaders(cfg, WithFields(s, lines))
    decreases |text|
  {
    var line, rest, t := LineBack(cfg, s, text);
    if line == [] {
      lines := NoLines(cfg, s, text, rest);
    } else {
      hide *;
      var more := SectionBack(cfg, t, rest);
      lines := [line] + more;
      LineJoins(cfg, s, t, text, line, rest, more, Run(Decoder(cfg), Cursor(t, rest)));
    }
  }

  /** The first line of a section that was passed, and where the run goes from there. */
  lemma LineBack(cfg: Config, s: State, text: Bytes) returns (line: Bytes, rest: Bytes, t: State)
    requires s.Active? && s.phase == Headers && cfg.headOnly
    requires var end := Run(Decoder(cfg), Cursor(s, text));
             end.state.Active? && end.state.phase !in {StartLine, Headers}
    ensures text == line + CRLF + rest && s.headerBytes + |line| + 2 <= cfg.options.maxHeaders
    ensures line != [] ==>
              && HeaderLine(line) && t.Active? && t.phase == Headers
              && t == s.(headerBytes := s.headerBytes + |line| + 2,
                         message := s.message.(headers := s.message.headers + [ParseHeaderLine(line).value]))
              && Run(Decoder(cfg), Cursor(s, text)) == Run(Decoder(cfg), Cursor(t, rest))
  {
    hide StepHttp, FinishHeaders, ParseHeaderLine, Find;
    HeadersStepBack(cfg, s, text);
    var o := StepHttp(cfg, s, text);
    assert !o.Wait? && o.next.Active?;
    LineCut(text);
    var n := Find(text, CRLF).value;
    line, rest, t := text[..n], text[n + 2..], o.next;
  }

  lemma NoLines(cfg: Config, s: State, text: Bytes, rest: Bytes) returns (lines: seq<Bytes>)
    requires s.Active? && s.phase == Headers && cfg.headOnly && text == [] + CRLF + rest
    requires s.headerBytes + 2 <= cfg.options.maxHeaders
    requires Run(Decoder(cfg), Cursor(s, text)).state.Active?
    ensures lines == [] && HeaderLines(lines) && s.headerBytes + |Section(lines)| <= cfg.options.maxHeaders
    ensures var end := Run(Decoder(cfg), Cursor(s, text));
            text == Section(lines) + end.unread && end.state == FinishHeaders(cfg, WithFields(s, lines))
  {
    lines := [];
    hide Run, FinishHeaders, StepHttp;
    assert text == CRLF + rest;
    EmptyLineStep(cfg, s, rest);
    assert s.message.headers + [] == s.message.headers;
  }

  lemma SectionLength(line: Bytes, more: seq<Bytes>)
    ensures |line + CRLF + Section(more)| == |line| + 2 + |Section(more)|
  {
  }

  /** One line in front of a section read back. */
  lemma LineJoins(cfg: Config, s: State, t: State, text: Bytes, line: Bytes, rest: Bytes, more: seq<Bytes>,
      end: Cursor<State>)
    requires s.Active? && HeaderLine(line) && HeaderLines(more) && text == line + CRLF + rest
    requires t == s.(headerBytes := s.headerBytes + |line| + 2,
                     message := s.message.(headers := s.message.headers + [ParseHeaderLine(line).value]))
    requires t.headerBytes + |Section(more)| <= cfg.options.maxHeaders
    requires rest == Section(more) + end.unread && end.state == FinishHeaders(cfg, WithFields(t, more))
    ensures var lines := [line] + more;
            && HeaderLines(lines) && s.headerBytes + |Section(lines)| <= cfg.options.maxHeaders
            && text == Section(lines) + end.unread && end.state == FinishHeaders(cfg, WithFields(s, lines))
  {
    SectionCons(s, t, line, more);
    SectionLength(line, more);
    hide *;
    Reassociate(line + CRLF, Section(more), end.unread);
  }

  /** A message head: a start line within its bound, header lines within theirs, and a framing that is not refused. */
  predicate Head(cfg: Config, start: Bytes, lines: seq<Bytes>, u: State) {
    && |start| <= cfg.options.maxStartLine && WholeLine(start) && ParseStartLine(cfg.mode, start).Some?
    && HeaderLines(lines) && |Section(lines)| <= cfg.options.maxHeaders
    && u == FinishHeaders(cfg, WithFields(AfterStart(cfg, start), lines))
    && u.Active?
  }

  function AfterStart(cfg: Config, start: Bytes): State
    requires ParseStartLine(cfg.mode, start).Some?
  {
    INITIAL.(phase := Headers, message := NO_MESSAGE.(start := ParseStartLine(cfg.mode, start).value))
  }

  lemma StartStep(cfg: Config, start: Bytes, rest: Bytes)
    requires |start| <= cfg.options.maxStartLine && WholeLine(start) && ParseStartLine(cfg.mode, start).Some?
    ensures Run(Decoder(cfg), Cursor(INITIAL, start + CRLF + rest))
            == Run(Decoder(cfg), Cursor(AfterStart(cfg, start), rest))
  {
    hide Find, ParseStartLine;
    LineFound(start, rest);
    assert (start + CRLF + rest)[..|start|] == start && (start + CRLF + rest)[|start| + 2..] == rest;
  }

  lemma StartBack(cfg: Config, text: Bytes)
    requires cfg.headOnly
    requires Run(Decoder(cfg), Cursor(INITIAL, text)).state.Active?
             && Run(Decoder(cfg), Cursor(INITIAL, text)).state.phase != StartLine
    ensures Find(text, CRLF).Some? && Find(text, CRLF).value <= cfg.options.maxStartLine
    ensures ParseStartLine(cfg.mode, text[..Find(text, CRLF).value]).Some?
  {
    hide Find, ParseStartLine;
  }

  lemma HeadReads(cfg: Config, start: Bytes, lines: seq<Bytes>, u: State, rest: Bytes)
    requires cfg.headOnly && Head(cfg, start, lines, u)
    ensures Run(Decoder(cfg), Cursor(INITIAL, start + CRLF + (Section(lines) + rest))) == Cursor(u, rest)
  {
    hide WholeLine, ParseStartLine, FinishHeaders, Run, Section;
    StartStep(cfg, start, Section(lines) + rest);
    SectionReads(cfg, AfterStart(cfg, start), lines, rest);
  }

  lemma HeadBack(cfg: Config, text: Bytes) returns (start: Bytes, lines: seq<Bytes>)
    requires cfg.headOnly
    requires var end := Run(Decoder(cfg), Cursor(INITIAL, text));
             end.state.Active? && end.state.phase !in {StartLine, Headers}
    ensures var end := Run(Decoder(cfg), Cursor(INITIAL, text));
            Head(cfg, start, lines, end.state) && text == start + CRLF + (Section(lines) + end.unread)
  {
    StartBack(cfg, text);
    hide ParseStartLine, FinishHeaders, Run, Section, StepHttp, Find;
    LineCut(text);
    var n := Find(text, CRLF).value;
    start := text[..n];
    StartStep(cfg, start, text[n + 2..]);
    lines := SectionBack(cfg, AfterStart(cfg, start), text[n + 2..]);
  }

  /**
   * The head parser accepts a text, in state `u` and with `rest` unread, exactly when the text is
   * a head in the sense above followed by `rest`.
   */
  lemma HeadIff(cfg: Config, text: Bytes, u: State, rest: Bytes)
    requires cfg.headOnly && u.Active? && u.phase !in {StartLine, Headers}
    ensures Run(Decoder(cfg), Cursor(INITIAL, text)) == Cursor(u, rest) <==>
            exists start, lines :: Head(cfg, start, lines, u) && text == start + CRLF + (Section(lines) + rest)
  {
    hide Head, Run, Section;
    if Run(Decoder(cfg), Cursor(INITIAL, text)) == Cursor(u, rest) {
      var start, lines := HeadBack(cfg, text);
    }
    forall start, lines | Head(cfg, start, lines, u) && text == start + CRLF + (Section(lines) + rest)
      ensures Run(Decoder(cfg), Cursor(INITIAL, text)) == Cursor(u, rest) {
      HeadReads(cfg, start, lines, u, rest);
    }
  }
}
