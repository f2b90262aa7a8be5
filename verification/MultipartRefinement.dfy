/**
 * The streaming multipart parser against the one-shot parser, over every way of cutting the
 * upload into append calls.
 */
module MultipartRefinement {
  import opened Bytes
  import opened MultipartSpec
  import opened StreamingMultipart

  /** The bound both parsers state. */
  function Loose(options: Options): Limits { HeaderLimit(options.maxHeaderBytes) }

  /** What the streaming parser can promise under every cut. */
  function Tight(options: Options): Limits { Limits(options.maxHeaderBytes - 3, Some(options.maxFieldBytes), None) }

  /** What the one-shot parser would still find from state `s` if `future` came next. */
  function Remaining(form: Form, lim: Limits, s: State, future: Bytes): Parse {
    var rest := s.buffer + future;
    match s.phase
    case FirstBoundary => FromStart(form, lim, rest)
    case Headers => AtHeaders(form, lim, rest)
    case Body => InBody(form, lim, s.part, s.fieldBytes, rest)
    case BoundarySuffix => AfterBoundary(form, lim, rest)
    case Done => Good([])
    case Error => Bad(MalformedBody)
  }

  /** The parts told to the callbacks, data pieces joined. */
  function Observed(notes: seq<Note>): seq<Part> {
    if notes == [] then []
    else Told(Observed(notes[..|notes| - 1]), notes[|notes| - 1])
  }

  function Told(earlier: seq<Part>, n: Note): seq<Part> {
    match n
    case PartStarted(head) => earlier + [Part(head, [])]
    case DataArrived(data) => Extended(earlier, data)
    case Completed => earlier
  }

  function Extended(parts: seq<Part>, data: Bytes): seq<Part> {
    if parts == [] then []
    else
      var last := parts[|parts| - 1];
      parts[..|parts| - 1] + [Part(last.head, last.body + data)]
  }

  /** A part as the callbacks can show it: the body of a plain field is not delivered. */
  function SeenPart(p: Part): Part { if p.head.fields.filename != [] then p else Part(p.head, []) }

  function Seen(parts: seq<Part>): seq<Part> {
    if parts == [] then [] else [SeenPart(parts[0])] + Seen(parts[1..])
  }

  /** Told so far, followed by what remains; in a body the first remaining part continues the last one. */
  function Joined(inBody: bool, told: seq<Part>, remaining: seq<Part>): seq<Part> {
    if inBody && remaining != [] then Extended(told, SeenPart(remaining[0]).body) + Seen(remaining[1..])
    else told + Seen(remaining)
  }

  function Total(form: Form, options: Options, s: State, future: Bytes): Option<seq<Part>> {
    match Remaining(form, Loose(options), s, future)
    case Bad(_) => None
    case Good(parts) => Some(Joined(s.phase == Body, Observed(s.notes), parts))
  }

  function Completions(notes: seq<Note>): nat {
    if notes == [] then 0
    else Completions(notes[..|notes| - 1]) + if notes[|notes| - 1].Completed? then 1 else 0
  }

  predicate WellFormed(s: State) {
    && (s.phase == Body ==> Observed(s.notes) != [] && Observed(s.notes)[|Observed(s.notes)| - 1].head == s.part)
    && (s.completed ==> s.phase == Done)
    && Completions(s.notes) == if s.completed then 1 else 0
  }

  /** What a turn of the loop owes, whatever comes next. */
  predicate Kept(form: Form, options: Options, s: State, t: State, future: Bytes) {
    && WellFormed(t)
    && (t.phase != Error ==> Total(form, options, t, future) == Total(form, options, s, future))
    && (Remaining(form, Tight(options), s, future).Good? ==>
          t.phase != Error && Remaining(form, Tight(options), t, future).Good?)
  }

  lemma ObservedSnoc(notes: seq<Note>, n: Note)
    ensures Observed(notes + [n]) == Told(Observed(notes), n)
    ensures Completions(notes + [n]) == Completions(notes) + if n.Completed? then 1 else 0
  {
    assert (notes + [n])[..|notes + [n]| - 1] == notes;
  }

  lemma ExtendedTwice(parts: seq<Part>, a: Bytes, b: Bytes)
    ensures Extended(Extended(parts, a), b) == Extended(parts, a + b)
    ensures Extended(parts, []) == parts
  {
    if parts != [] {
      var last := parts[|parts| - 1];
      assert last.body + [] == last.body;
      assert (last.body + a) + b == last.body + (a + b);
    }
  }

  /** Emitting shows the data of a file and nothing of a field. */
  lemma EmitShows(options: Options, s: State, data: Bytes)
    ensures var t := s.Emit(options, data);
            && Observed(t.notes) == Extended(Observed(s.notes), if s.part.IsFile() then data else [])
            && Completions(t.notes) == Completions(s.notes)
            && t.part == s.part && t.completed == s.completed && t.buffer == s.buffer
            && (t.phase == s.phase || t.phase == Error)
            && (!s.part.IsFile() ==> t.fieldBytes == s.fieldBytes + |data|)
            && (t.phase == s.phase != Error
               <== s.phase != Error && Tight(options).AllowsField(s.part, s.fieldBytes + |data|))
  {
    ObservedSnoc(s.notes, DataArrived(data));
    ExtendedTwice(Observed(s.notes), [], []);
  }

  /** Moving `k` bytes that start no delimiter out of the text of a body. */
  lemma BodyShift(form: Form, lim: Limits, head: PartHead, seen: nat, seen': nat, text: Bytes, k: nat)
    requires k <= |text| && (head.IsFile() || lim.field.None? || seen' == seen + k)
    requires forall j: nat | j < k :: !OccursAt(text, form.Delimiter(), j)
    ensures var whole, part := InBody(form, lim, head, seen, text), InBody(form, lim, head, seen', text[k..]);
            && (whole.Good? <==> part.Good?)
            && (whole.Good? ==>
                  && whole.parts != [] && part.parts != []
                  && whole.parts[0].head == part.parts[0].head == head
                  && whole.parts[0].body == text[..k] + part.parts[0].body
                  && whole.parts[1..] == part.parts[1..])
  {
    hide AtHeaders, AfterBoundary, Find, OccursAt;
    FindShift(text, form.Delimiter(), k);
    var at := Find(text, form.Delimiter());
    if at.Some? {
      var n := |form.Delimiter()|;
      assert text[k..][at.value - k + n..] == text[at.value + n..];
      assert text[..at.value] == text[..k] + text[k..][..at.value - k];
    }
  }

  /** One delimiter ahead: what a body leaves behind. */
  lemma BodyEnds(form: Form, lim: Limits, head: PartHead, seen: nat, buffer: Bytes, future: Bytes)
    requires Find(buffer, form.Delimiter()).Some? && lim.parts.None?
    ensures var at := Find(buffer, form.Delimiter()).value;
            InBody(form, lim, head, seen, buffer + future) ==
            if !lim.AllowsField(head, seen + at) then Bad(LimitsExceeded)
            else AfterBoundary(form, lim, buffer[at + |form.Delimiter()|..] + future).After([Part(head, buffer[..at])])
  {
    hide AtHeaders, AfterBoundary, Find;
    FindStable(buffer, future, form.Delimiter());
    var at := Find(buffer, form.Delimiter()).value;
    assert (buffer + future)[..at] == buffer[..at];
    assert (buffer + future)[at + |form.Delimiter()|..] == buffer[at + |form.Delimiter()|..] + future;
  }

  lemma HeadersEnd(form: Form, lim: Limits, buffer: Bytes, future: Bytes)
    requires Find(buffer, BLANK_LINE).Some?
    ensures var end := Find(buffer, BLANK_LINE).value;
            AtHeaders(form, lim, buffer + future) ==
            if end > lim.header then Bad(LimitsExceeded)
            else
              var head := form.ReadHead(buffer[..end]);
              if head.None? then Bad(MalformedHeaders)
              else InBody(form, lim, head.value, 0, buffer[end + 4..] + future)
  {
    hide InBody, AfterBoundary, Find;
    FindStable(buffer, future, BLANK_LINE);
    var end := Find(buffer, BLANK_LINE).value;
    assert (buffer + future)[..end] == buffer[..end];
    assert (buffer + future)[end + 4..] == buffer[end + 4..] + future;
  }

  lemma SuffixKept(form: Form, options: Options, s: State, future: Bytes)
    requires WellFormed(s) && s.phase == BoundarySuffix
    ensures Kept(form, options, s, TurnBoundarySuffix(s).state, future)
  {
    hide AtHeaders, InBody, AfterBoundary, Observed, Completions;
    ObservedSnoc(s.notes, Completed);
    if |s.buffer| >= 2 {
      SuffixAhead(form, Loose(options), s.buffer, future);
      SuffixAhead(form, Tight(options), s.buffer, future);
    }
  }

  lemma SuffixAhead(form: Form, lim: Limits, buffer: Bytes, future: Bytes)
    requires |buffer| >= 2
    ensures AfterBoundary(form, lim, buffer + future) ==
            if StartsWith(buffer, DASHES) then Good([])
            else if !StartsWith(buffer, CRLF) then Bad(MalformedBody)
            else AtHeaders(form, lim, buffer[2..] + future)
  {
    assert (buffer + future)[..2] == buffer[..2];
    assert (buffer + future)[2..] == buffer[2..] + future;
  }

  lemma FirstBoundaryKept(form: Form, options: Options, s: State, future: Bytes)
    requires WellFormed(s) && s.phase == FirstBoundary
    ensures Kept(form, options, s, TurnFirstBoundary(form, s).state, future)
  {
    var m := form.Marker();
    if |s.buffer| >= |m| + 2 {
      assert (s.buffer + future)[..|m|] == s.buffer[..|m|];
      assert (s.buffer + future)[|m|..] == s.buffer[|m|..] + future;
      if StartsWith(s.buffer, m) {
        var t := s.Drop(|m|).(phase := BoundarySuffix);
        SuffixKept(form, options, t, future);
        var u := TurnBoundarySuffix(s.Drop(|m|)).state;
        assert u == TurnBoundarySuffix(t).state;
      }
    }
  }

  lemma HeadersKept(form: Form, options: Options, s: State, future: Bytes)
    requires WellFormed(s) && s.phase == Headers
    ensures Kept(form, options, s, TurnHeaders(form, options, s).state, future)
  {
    hide AtHeaders, InBody, AfterBoundary, Find, Observed, Seen, Completions;
    var t := TurnHeaders(form, options, s).state;
    var end := Find(s.buffer, BLANK_LINE);
    if end.None? {
      HeadersLate(form, Tight(options), s.buffer, future);
    } else if t.phase == Body {
      ObservedSnoc(s.notes, PartStarted(t.part));
      HeadersJoin(form, options, s, t, end.value, future);
      HeadersTight(form, options, s, t, end.value, future);
    } else {
      HeadersEnd(form, Tight(options), s.buffer, future);
    }
  }

  lemma HeadersLate(form: Form, lim: Limits, buffer: Bytes, future: Bytes)
    requires Find(buffer, BLANK_LINE).None?
    ensures AtHeaders(form, lim, buffer + future).Good? ==> |buffer| <= lim.header + 3
  {
    FindLate(buffer, future, BLANK_LINE);
  }

  lemma HeadersTight(form: Form, options: Options, s: State, t: State, end: nat, future: Bytes)
    requires s.phase == Headers && Find(s.buffer, BLANK_LINE) == Some(end)
    requires form.ReadHead(s.buffer[..end]) == Some(t.part)
    requires t.phase == Body && t.fieldBytes == 0 && t.buffer == s.buffer[end + 4..]
    ensures Remaining(form, Tight(options), s, future).Good? ==> Remaining(form, Tight(options), t, future).Good?
  {
    HeadersEnd(form, Tight(options), s.buffer, future);
  }

  /** What remains behind a header block begins with the part it heads. */
  lemma HeadersRemain(form: Form, lim: Limits, s: State, t: State, future: Bytes)
    requires s.phase == Headers && t.phase == Body && t.fieldBytes == 0
    requires AtHeaders(form, lim, s.buffer + future) == InBody(form, lim, t.part, 0, t.buffer + future)
    ensures Remaining(form, lim, t, future) == Remaining(form, lim, s, future)
    ensures var p := Remaining(form, lim, t, future); p.Good? ==> p.parts != [] && p.parts[0].head == t.part
  {
    hide AtHeaders, AfterBoundary, Find;
  }

  lemma HeadersJoin(form: Form, options: Options, s: State, t: State, end: nat, future: Bytes)
    requires s.phase == Headers && Find(s.buffer, BLANK_LINE) == Some(end) && end <= options.maxHeaderBytes
    requires form.ReadHead(s.buffer[..end]) == Some(t.part)
    requires t.phase == Body && t.fieldBytes == 0 && t.buffer == s.buffer[end + 4..]
    requires Observed(t.notes) == Observed(s.notes) + [Part(t.part, [])]
    ensures Total(form, options, t, future) == Total(form, options, s, future)
  {
    HeadersEnd(form, Loose(options), s.buffer, future);
    HeadersRemain(form, Loose(options), s, t, future);
    hide AtHeaders, InBody, Find, Observed, Joined, Remaining;
    HeadJoins(Observed(s.notes), t.part, Remaining(form, Loose(options), t, future));
  }

  /** A part just started and still empty joins to the part itself. */
  lemma HeadJoins(told: seq<Part>, head: PartHead, p: Parse)
    requires p.Good? ==> p.parts != [] && p.parts[0].head == head
    ensures p.Good? ==> Joined(true, told + [Part(head, [])], p.parts) == Joined(false, told, p.parts)
  {
    if p.Good? {
      assert (told + [Part(head, [])])[..|told|] == told;
      assert [] + SeenPart(p.parts[0]).body == SeenPart(p.parts[0]).body;
    }
  }

  lemma BodyKept(form: Form, options: Options, s: State, future: Bytes)
    requires WellFormed(s) && s.phase == Body
    ensures Kept(form, options, s, TurnBody(form, options, s).state, future)
  {
    if Find(s.buffer, form.Delimiter()).Some? {
      DelimiterKept(form, options, s, future);
    } else if |s.buffer| >= |form.Delimiter()| {
      HeldBackKept(form, options, s, future);
    }
  }

  lemma HeldBackKept(form: Form, options: Options, s: State, future: Bytes)
    requires WellFormed(s) && s.phase == Body
    requires Find(s.buffer, form.Delimiter()).None? && |s.buffer| >= |form.Delimiter()|
    ensures Kept(form, options, s, TurnBody(form, options, s).state, future)
  {
    EmitShows(options, s, s.buffer[..|s.buffer| - (|form.Delimiter()| - 1)]);
    if Remaining(form, Tight(options), s, future).Good? {
      HeldBackTight(form, options, s, future);
    }
    if TurnBody(form, options, s).state.phase != Error {
      HeldBackTotal(form, options, s, future);
    }
  }

  lemma DelimiterKept(form: Form, options: Options, s: State, future: Bytes)
    requires WellFormed(s) && s.phase == Body && Find(s.buffer, form.Delimiter()).Some?
    ensures Kept(form, options, s, TurnBody(form, options, s).state, future)
  {
    EmitShows(options, s, s.buffer[..Find(s.buffer, form.Delimiter()).value]);
    DelimiterTotal(form, options, s, future);
    DelimiterTight(form, options, s, future);
  }

  lemma DelimiterTotal(form: Form, options: Options, s: State, future: Bytes)
    requires s.phase == Body && Find(s.buffer, form.Delimiter()).Some?
    ensures Total(form, options, TurnBody(form, options, s).state, future) == Total(form, options, s, future)
  {
    var at := Find(s.buffer, form.Delimiter()).value;
    EmitShows(options, s, s.buffer[..at]);
    DelimiterJoins(form, options, s, TurnBody(form, options, s).state, at, future);
  }

  lemma DelimiterJoins(form: Form, options: Options, s: State, t: State, at: nat, future: Bytes)
    requires s.phase == Body && Find(s.buffer, form.Delimiter()) == Some(at)
    requires t.phase == BoundarySuffix && t.buffer == s.buffer[at + |form.Delimiter()|..]
    requires Observed(t.notes) == Extended(Observed(s.notes), if s.part.IsFile() then s.buffer[..at] else [])
    ensures Total(form, options, t, future) == Total(form, options, s, future)
  {
    hide AtHeaders, AfterBoundary, InBody, Find, Observed;
    BodyEnds(form, Loose(options), s.part, s.fieldBytes, s.buffer, future);
    var after := AfterBoundary(form, Loose(options), t.buffer + future);
    if after.Good? {
      PartJoins(Observed(s.notes), Part(s.part, s.buffer[..at]), after.parts);
    }
  }

  lemma DelimiterTight(form: Form, options: Options, s: State, future: Bytes)
    requires s.phase == Body && Find(s.buffer, form.Delimiter()).Some?
    ensures Remaining(form, Tight(options), s, future).Good? ==>
              Remaining(form, Tight(options), TurnBody(form, options, s).state, future).Good?
  {
    hide AtHeaders, AfterBoundary, Find;
    BodyEnds(form, Tight(options), s.part, s.fieldBytes, s.buffer, future);
  }

  /** The rest of a body, once told, joins to the same parts. */
  lemma PartJoins(told: seq<Part>, rest: Part, parts: seq<Part>)
    ensures Joined(true, told, [rest] + parts) ==
            Joined(false, Extended(told, if rest.head.IsFile() then rest.body else []), parts)
  {
    assert ([rest] + parts)[1..] == parts;
  }

  /** No delimiter yet: all but the last bytes go out, and none of them could have started one. */
  lemma HeldBackText(form: Form, lim: Limits, s: State, future: Bytes, seen': nat)
    requires s.phase == Body && Find(s.buffer, form.Delimiter()).None? && |s.buffer| >= |form.Delimiter()|
    requires s.part.IsFile() || lim.field.None? || seen' == s.fieldBytes + (|s.buffer| - (|form.Delimiter()| - 1))
    ensures var k := |s.buffer| - (|form.Delimiter()| - 1);
            var whole := InBody(form, lim, s.part, s.fieldBytes, s.buffer + future);
            var part := InBody(form, lim, s.part, seen', s.buffer[k..] + future);
            && (whole.Good? <==> part.Good?)
            && (whole.Good? ==>
                  && whole.parts != [] && part.parts != []
                  && whole.parts[0].head == part.parts[0].head == s.part
                  && whole.parts[0].body == s.buffer[..k] + part.parts[0].body
                  && whole.parts[1..] == part.parts[1..])
  {
    hide InBody, AfterBoundary, AtHeaders, Find;
    var text := s.buffer + future;
    var k := |s.buffer| - (|form.Delimiter()| - 1);
    FindFirst(s.buffer, form.Delimiter());
    forall j: nat | j < k ensures !OccursAt(text, form.Delimiter(), j) {
      OccursInPrefix(s.buffer, future, form.Delimiter(), j);
    }
    assert text[k..] == s.buffer[k..] + future;
    assert text[..k] == s.buffer[..k];
    BodyShift(form, lim, s.part, s.fieldBytes, seen', text, k);
  }

  lemma HeldBackTotal(form: Form, options: Options, s: State, future: Bytes)
    requires WellFormed(s) && s.phase == Body && TurnBody(form, options, s).state.phase != Error
    requires Find(s.buffer, form.Delimiter()).None? && |s.buffer| >= |form.Delimiter()|
    ensures Total(form, options, TurnBody(form, options, s).state, future) == Total(form, options, s, future)
  {
    hide Find, AtHeaders, AfterBoundary;
    var k := |s.buffer| - (|form.Delimiter()| - 1);
    var t := TurnBody(form, options, s).state;
    EmitShows(options, s, s.buffer[..k]);
    HeldBackText(form, Loose(options), s, future, t.fieldBytes);
    var part := Remaining(form, Loose(options), t, future);
    if part.Good? {
      var out := if s.part.IsFile() then s.buffer[..k] else [];
      ExtendedTwice(Observed(s.notes), out, SeenPart(part.parts[0]).body);
      assert SeenPart(Part(s.part, s.buffer[..k] + part.parts[0].body)).body == out + SeenPart(part.parts[0]).body;
    }
  }

  lemma HeldBackTight(form: Form, options: Options, s: State, future: Bytes)
    requires s.phase == Body
    requires Find(s.buffer, form.Delimiter()).None? && |s.buffer| >= |form.Delimiter()|
    requires Remaining(form, Tight(options), s, future).Good?
    ensures TurnBody(form, options, s).state.phase != Error
    ensures Remaining(form, Tight(options), TurnBody(form, options, s).state, future).Good?
  {
    hide AtHeaders, AfterBoundary, Find;
    var k := |s.buffer| - (|form.Delimiter()| - 1);
    EmitShows(options, s, s.buffer[..k]);
    HeldBackText(form, Tight(options), s, future, s.fieldBytes + k);
    if s.part.IsFile() {
      HeldBackText(form, Tight(options), s, future, s.fieldBytes);
    }
  }

  lemma TurnKept(form: Form, options: Options, s: State, future: Bytes)
    requires WellFormed(s)
    ensures Kept(form, options, s, TurnOnce(form, options, s).state, future)
  {
    match s.phase
    case FirstBoundary => FirstBoundaryKept(form, options, s, future);
    case Headers => HeadersKept(form, options, s, future);
    case Body => BodyKept(form, options, s, future);
    case BoundarySuffix => SuffixKept(form, options, s, future);
    case Done => ObservedSnoc(s.notes, Completed);
    case Error =>
  }

  lemma {:induction false} ProcessKept(form: Form, options: Options, s: State, future: Bytes)
    requires WellFormed(s)
    ensures Kept(form, options, s, Process(form, options, s), future)
    decreases |s.buffer|
  {
    TurnConsumes(form, options, s);
    TurnKept(form, options, s, future);
    var t := TurnOnce(form, options, s);
    if t.again {
      ProcessKept(form, options, t.state, future);
    }
  }

  /** When the loop stops short of the end there is nothing more to find without further input. */
  lemma {:induction false} ProcessStops(form: Form, options: Options, lim: Limits, s: State)
    ensures var u := Process(form, options, s);
            u.phase != Done ==> Remaining(form, lim, u, []).Bad?
    decreases |s.buffer|
  {
    TurnConsumes(form, options, s);
    var t := TurnOnce(form, options, s);
    if t.again {
      ProcessStops(form, options, lim, t.state);
    } else {
      TurnStops(form, options, lim, s);
    }
  }

  lemma TurnStops(form: Form, options: Options, lim: Limits, s: State)
    requires !TurnOnce(form, options, s).again
    ensures var u := TurnOnce(form, options, s).state; u.phase != Done ==> Remaining(form, lim, u, []).Bad?
  {
    var u := TurnOnce(form, options, s).state;
    assert u.buffer + [] == u.buffer;
    match s.phase
    case FirstBoundary => TurnSuffixStops(form, lim,
      s.Drop(if |form.Marker()| <= |s.buffer| then |form.Marker()| else 0));
    case Headers =>
    case Body => assert u.phase == Body ==> Find(u.buffer, form.Delimiter()).None? by { BodyStops(form, options, s); }
    case BoundarySuffix => TurnSuffixStops(form, lim, s);
    case Done =>
    case Error =>
  }

  lemma BodyStops(form: Form, options: Options, s: State)
    requires s.phase == Body && !TurnBody(form, options, s).again
    ensures Find(TurnBody(form, options, s).state.buffer, form.Delimiter()).None?
  {
  }

  lemma TurnSuffixStops(form: Form, lim: Limits, s: State)
    ensures var t := TurnBoundarySuffix(s);
            !t.again ==> t.state.phase == Error || (t.state == s && AfterBoundary(form, lim, s.buffer).Bad?)
  {
  }

  lemma {:induction false} AppendAllKept(form: Form, options: Options, s: State, pieces: seq<Bytes>, future: Bytes)
    requires WellFormed(s)
    ensures var t := AppendAll(form, options, s, pieces);
            && WellFormed(t)
            && (t.phase != Error ==>
                  Total(form, options, t, future) == Total(form, options, s, Concat(pieces) + future))
            && (Remaining(form, Tight(options), s, Concat(pieces) + future).Good? ==>
                  t.phase != Error && Remaining(form, Tight(options), t, future).Good?)
    decreases |pieces|
  {
    if pieces == [] {
      assert [] + future == future;
    } else {
      var more := Concat(pieces[1..]) + future;
      assert Concat(pieces) + future == pieces[0] + more;
      var t := Appended(form, options, s, pieces[0]);
      if s.phase != Done && s.phase != Error {
        var fed := s.(buffer := s.buffer + pieces[0]);
        assert s.buffer + (pieces[0] + more) == fed.buffer + more;
        ProcessKept(form, options, fed, more);
      }
      AppendAllKept(form, options, t, pieces[1..], future);
      if t.phase == Error {
        ErrorStays(form, options, t, pieces[1..]);
      }
    }
  }

  lemma {:induction false} ErrorStays(form: Form, options: Options, s: State, pieces: seq<Bytes>)
    requires s.phase == Error
    ensures AppendAll(form, options, s, pieces) == s
    decreases |pieces|
  {
    if pieces != [] {
      ErrorStays(form, options, s, pieces[1..]);
    }
  }

  /**
   * Whatever the cut: when finish() answers true, the one-shot parser accepts the whole text and
   * the callbacks have shown its parts, in order, file bodies complete, and completion once.
   */
  lemma UploadRefinesOneShot(form: Form, options: Options, pieces: seq<Bytes>)
    requires form.boundary != []
    ensures var t := Upload(form, options, pieces);
            var parsed := FromStart(form, Loose(options), Concat(pieces));
            && (t.phase == Done ==>
                  parsed.Good? && Observed(t.notes) == Seen(parsed.parts) && Completions(t.notes) == 1)
            && (FromStart(form, Tight(options), Concat(pieces)).Good? ==> t.phase == Done)
  {
    var s := Initial(form);
    var text := Concat(pieces);
    assert text + [] == text && s.buffer + text == text;
    AppendAllKept(form, options, s, pieces, []);
    var fed := AppendAll(form, options, s, pieces);
    ProcessKept(form, options, fed, []);
    ProcessStops(form, options, Tight(options), fed);
    var u := Process(form, options, fed);
    DoneIsComplete(form, options, fed);
    if u.phase == Done {
      assert fed.phase != Error;
      assert Observed(u.notes) + Seen([]) == Observed(u.notes);
      var parsed := FromStart(form, Loose(options), text);
      if parsed.Good? {
        assert [] + Seen(parsed.parts) == Seen(parsed.parts);
      }
    }
  }

  lemma {:induction false} DoneIsComplete(form: Form, options: Options, s: State)
    ensures Process(form, options, s).phase == Done ==> Process(form, options, s).completed
    ensures s.phase == Error ==> Process(form, options, s) == s
    decreases |s.buffer|
  {
    TurnConsumes(form, options, s);
    if TurnOnce(form, options, s).again {
      DoneIsComplete(form, options, TurnOnce(form, options, s).state);
    }
  }

  /** An empty boundary is refused from the start. */
  lemma EmptyBoundaryFails(form: Form, options: Options, pieces: seq<Bytes>)
    requires form.boundary == []
    ensures Upload(form, options, pieces).phase == Error
  {
    ErrorStays(form, options, Initial(form), pieces);
  }

  /** Parts on which every cut succeeds. */
  predicate Fits(options: Options, parts: seq<Part>) {
    forall i | 0 <= i < |parts| :: FitsPart(options, parts[i])
  }

  predicate FitsPart(options: Options, p: Part) {
    && |p.head.block| + 3 <= options.maxHeaderBytes
    && (p.head.fields.filename == [] ==> |p.body| <= options.maxFieldBytes)
  }

  lemma {:induction false} TightIffFits(form: Form, options: Options, rest: Bytes)
    requires AfterBoundary(form, Loose(options), rest).Good?
    ensures var tight := AfterBoundary(form, Tight(options), rest);
            tight.Good? <==> Fits(options, AfterBoundary(form, Loose(options), rest).parts)
    decreases |rest|
  {
    if !StartsWith(rest, DASHES) {
      var headers := rest[2..];
      assert AtHeaders(form, Loose(options), headers).Good?;
      var end := Find(headers, BLANK_LINE).value;
      var body := headers[end + 4..];
      var head := form.ReadHead(headers[..end]).value;
      assert InBody(form, Loose(options), head, 0, body).Good?;
      var at := Find(body, form.Delimiter()).value;
      var after := body[at + |form.Delimiter()|..];
      TightIffFits(form, options, after);
      FitsCons(options, Part(head, body[..at]), AfterBoundary(form, Loose(options), after).parts);
      assert AfterBoundary(form, Tight(options), rest) == AtHeaders(form, Tight(options), headers);
      assert end <= Tight(options).header ==>
        AtHeaders(form, Tight(options), headers) == InBody(form, Tight(options), head, 0, body);
    }
  }

  lemma FitsCons(options: Options, p: Part, parts: seq<Part>)
    ensures Fits(options, [p] + parts) <==> FitsPart(options, p) && Fits(options, parts)
  {
    if Fits(options, [p] + parts) {
      assert FitsPart(options, ([p] + parts)[0]);
      forall i | 0 <= i < |parts| ensures FitsPart(options, parts[i]) {
        assert ([p] + parts)[i + 1] == parts[i];
      }
    }
  }

  /** Where to cut a text whose parts do not fit: inside the first oversized header block or field. */
  function CutAfterBoundary(form: Form, options: Options, rest: Bytes): nat
    decreases |rest|, 0
  {
    if |rest| < 2 then |rest| else 2 + CutHeaders(form, options, rest[2..])
  }

  function CutHeaders(form: Form, options: Options, rest: Bytes): nat
    decreases |rest|, 1
  {
    var end := Find(rest, BLANK_LINE);
    if end.None? then |rest|
    else if end.value + 3 > options.maxHeaderBytes || form.ReadHead(rest[..end.value]).None? then end.value + 3
    else end.value + 4 + CutBody(form, options, form.ReadHead(rest[..end.value]).value, rest[end.value + 4..])
  }

  function CutBody(form: Form, options: Options, head: PartHead, rest: Bytes): nat
    decreases |rest|, 2
  {
    var at := Find(rest, form.Delimiter());
    if at.None? then |rest|
    else if !head.IsFile() && at.value > options.maxFieldBytes then at.value + |form.Delimiter()| - 1
    else at.value + |form.Delimiter()| + CutAfterBoundary(form, options, rest[at.value + |form.Delimiter()|..])
  }

  /** A needle whose first occurrence is at `i` is not in the text up to its last byte. */
  lemma NotYetFound(text: Bytes, needle: Bytes, n: nat)
    requires Find(text, needle).Some? && n < Find(text, needle).value + |needle| && n <= |text|
    ensures Find(text[..n], needle).None?
  {
    assert text == text[..n] + text[n..];
    if Find(text[..n], needle).Some? {
      FindStable(text[..n], text[n..], needle);
    }
  }

  lemma FoundBy(text: Bytes, needle: Bytes, n: nat)
    requires Find(text, needle).Some? && Find(text, needle).value + |needle| <= n <= |text|
    ensures Find(text[..n], needle) == Find(text, needle)
  {
    assert text == text[..n] + text[n..];
    if Find(text[..n], needle).None? {
      FindLate(text[..n], text[n..], needle);
    } else {
      FindStable(text[..n], text[n..], needle);
    }
  }

  function UpTo(text: Bytes, n: nat): Bytes { if n <= |text| then text[..n] else text }

  lemma {:induction false} CutFailsAfterBoundary(form: Form, options: Options, s: State, rest: Bytes)
    requires AfterBoundary(form, Loose(options), rest).Good?
    requires !Fits(options, AfterBoundary(form, Loose(options), rest).parts)
    requires s.phase == BoundarySuffix && s.buffer == UpTo(rest, CutAfterBoundary(form, options, rest))
    ensures 2 <= CutAfterBoundary(form, options, rest) <= |rest|
    ensures Process(form, options, s).phase == Error
    decreases |rest|, 0
  {
    var t := s.Drop(2).(phase := Headers);
    assert s.buffer[..2] == rest[..2];
    assert t.buffer == UpTo(rest[2..], CutHeaders(form, options, rest[2..]));
    CutFailsHeaders(form, options, t, rest[2..]);
    assert TurnOnce(form, options, s) == Turn(t, true);
  }

  lemma {:induction false} CutFailsHeaders(form: Form, options: Options, s: State, rest: Bytes)
    requires AtHeaders(form, Loose(options), rest).Good?
    requires !Fits(options, AtHeaders(form, Loose(options), rest).parts)
    requires s.phase == Headers && s.buffer == UpTo(rest, CutHeaders(form, options, rest))
    ensures CutHeaders(form, options, rest) <= |rest|
    ensures Process(form, options, s).phase == Error
    decreases |rest|, 1
  {
    var end := Find(rest, BLANK_LINE).value;
    if end + 3 > options.maxHeaderBytes {
      NotYetFound(rest, BLANK_LINE, end + 3);
    } else {
      var head := form.ReadHead(rest[..end]).value;
      var t := CutHeadersTurns(form, options, s, rest, CutBody(form, options, head, rest[end + 4..]));
      CutFailsBody(form, options, t, rest[end + 4..]);
    }
  }

  lemma CutHeadersTurns(form: Form, options: Options, s: State, rest: Bytes, n: nat) returns (t: State)
    requires Find(rest, BLANK_LINE).Some? && Find(rest, BLANK_LINE).value + 3 <= options.maxHeaderBytes
    requires form.ReadHead(rest[..Find(rest, BLANK_LINE).value]).Some?
    requires s.phase == Headers && s.buffer == UpTo(rest, Find(rest, BLANK_LINE).value + 4 + n)
    ensures var end := Find(rest, BLANK_LINE).value;
            && Process(form, options, s) == Process(form, options, t)
            && t.part == form.ReadHead(rest[..end]).value && t.phase == Body && t.fieldBytes == 0
            && t.buffer == UpTo(rest[end + 4..], n)
  {
    var end := Find(rest, BLANK_LINE).value;
    var head := form.ReadHead(rest[..end]).value;
    UpToDrops(rest, end + 4, n);
    FoundBy(rest, BLANK_LINE, |s.buffer|);
    assert s.buffer[..end] == rest[..end];
    t := s.(part := head, fieldBytes := 0, notes := s.notes + [PartStarted(head)], phase := Body).Drop(end + 4);
    assert TurnOnce(form, options, s) == Turn(t, true);
  }

  lemma {:induction false} CutFailsBody(form: Form, options: Options, s: State, rest: Bytes)
    requires InBody(form, Loose(options), s.part, 0, rest).Good?
    requires !Fits(options, InBody(form, Loose(options), s.part, 0, rest).parts)
    requires |s.part.block| + 3 <= options.maxHeaderBytes
    requires s.phase == Body && s.fieldBytes == 0 && s.buffer == UpTo(rest, CutBody(form, options, s.part, rest))
    ensures CutBody(form, options, s.part, rest) <= |rest|
    ensures Process(form, options, s).phase == Error
    decreases |rest|, 2
  {
    var delimiter := form.Delimiter();
    var at := Find(rest, delimiter).value;
    if !s.part.IsFile() && at > options.maxFieldBytes {
      FieldOverflows(form, options, s, rest);
    } else {
      BodyFits(form, options, s.part, rest);
      var t := TurnBody(form, options, s).state;
      CutBodyTurns(form, options, s, rest, CutAfterBoundary(form, options, rest[at + |delimiter|..]));
      CutFailsAfterBoundary(form, options, t, rest[at + |delimiter|..]);
    }
  }

  lemma FieldOverflows(form: Form, options: Options, s: State, rest: Bytes)
    requires s.phase == Body && s.fieldBytes == 0 && !s.part.IsFile()
    requires Find(rest, form.Delimiter()).Some? && Find(rest, form.Delimiter()).value > options.maxFieldBytes
    requires s.buffer == rest[..Find(rest, form.Delimiter()).value + |form.Delimiter()| - 1]
    ensures Process(form, options, s).phase == Error
  {
    NotYetFound(rest, form.Delimiter(), |s.buffer|);
  }

  lemma BodyFits(form: Form, options: Options, head: PartHead, rest: Bytes)
    requires InBody(form, Loose(options), head, 0, rest).Good? && |head.block| + 3 <= options.maxHeaderBytes
    ensures var at := Find(rest, form.Delimiter());
            && at.Some?
            && var after := AfterBoundary(form, Loose(options), rest[at.value + |form.Delimiter()|..]);
            && after.Good?
            && (head.IsFile() || at.value <= options.maxFieldBytes ==>
                  (Fits(options, InBody(form, Loose(options), head, 0, rest).parts) <==> Fits(options, after.parts)))
  {
    var at := Find(rest, form.Delimiter()).value;
    FitsCons(options, Part(head, rest[..at]),
      AfterBoundary(form, Loose(options), rest[at + |form.Delimiter()|..]).parts);
  }

  lemma CutBodyTurns(form: Form, options: Options, s: State, rest: Bytes, n: nat)
    requires Find(rest, form.Delimiter()).Some?
    requires s.phase == Body && s.buffer == UpTo(rest, Find(rest, form.Delimiter()).value + |form.Delimiter()| + n)
    ensures var t := TurnBody(form, options, s).state;
            var after := rest[Find(rest, form.Delimiter()).value + |form.Delimiter()|..];
            && Process(form, options, s) == Process(form, options, t)
            && t.phase == BoundarySuffix && t.buffer == UpTo(after, n)
  {
    hide Process, TurnBody, Find, UpTo;
    UpToDrops(rest, Find(rest, form.Delimiter()).value + |form.Delimiter()|, n);
    FoundBy(rest, form.Delimiter(), |s.buffer|);
    BodyTurns(form, options, s);
  }

  lemma UpToDrops(text: Bytes, skip: nat, n: nat)
    requires skip <= |text|
    ensures skip <= |UpTo(text, skip + n)| && UpTo(text, skip + n)[skip..] == UpTo(text[skip..], n)
    ensures |UpTo(text, skip + n)| <= |text| && UpTo(text, skip + n) == text[..|UpTo(text, skip + n)|]
  {
  }

  lemma BodyTurns(form: Form, options: Options, s: State)
    requires s.phase == Body && Find(s.buffer, form.Delimiter()).Some?
    ensures var t := TurnBody(form, options, s).state;
            && Process(form, options, s) == Process(form, options, t)
            && t.phase == BoundarySuffix
            && t.buffer == s.buffer[Find(s.buffer, form.Delimiter()).value + |form.Delimiter()|..]
  {
  }

  /** Cut there, the upload fails although the one-shot parser accepts the text. */
  lemma CutFails(form: Form, options: Options, body: Bytes) returns (pieces: seq<Bytes>)
    requires form.boundary != []
    requires var parsed := FromStart(form, Loose(options), body); parsed.Good? && !Fits(options, parsed.parts)
    ensures Concat(pieces) == body && Upload(form, options, pieces).phase == Error
  {
    var m := form.Marker();
    var rest := body[|m|..];
    var probe := Initial(form).(phase := BoundarySuffix, buffer := UpTo(rest, CutAfterBoundary(form, options, rest)));
    CutFailsAfterBoundary(form, options, probe, rest);
    var cut := |m| + CutAfterBoundary(form, options, rest);
    pieces := [body[..cut], body[cut..]];
    TwoPieces(body, cut);
    LeadingMarker(form, options, body, cut);
    var fed := Appended(form, options, Initial(form), pieces[0]);
    assert fed == Process(form, options, probe);
    ErrorStays(form, options, fed, pieces[1..]);
    DoneIsComplete(form, options, fed);
  }

  lemma LeadingMarker(form: Form, options: Options, body: Bytes, cut: nat)
    requires form.boundary != [] && StartsWith(body, form.Marker()) && |form.Marker()| + 2 <= cut <= |body|
    ensures Appended(form, options, Initial(form), body[..cut]) ==
            Process(form, options, Initial(form).(phase := BoundarySuffix,
              buffer := body[|form.Marker()|..][..cut - |form.Marker()|]))
  {
    var m := form.Marker();
    var fed := Initial(form).(buffer := [] + body[..cut]);
    assert fed.buffer == body[..cut];
    assert fed.buffer[..|m|] == body[..|m|];
    assert fed.buffer[|m|..] == body[|m|..][..cut - |m|];
    SuffixPhase(fed.Drop(|m|));
  }

  /** The turn behind a boundary marker overwrites the phase or reports the same refusal. */
  lemma SuffixPhase(s: State)
    requires |s.buffer| >= 2
    ensures TurnBoundarySuffix(s) == TurnBoundarySuffix(s.(phase := BoundarySuffix))
  {
  }

  /**
   * The exact condition: for a text the one-shot parser accepts, every cut succeeds if and only if
   * every header block leaves three bytes of the header bound free and every plain field fits.
   * A text it does not accept fails under every cut.
   */
  lemma EveryCutAgreesIff(form: Form, options: Options, body: Bytes)
    requires form.boundary != []
    ensures var parsed := FromStart(form, Loose(options), body);
            && (parsed.Good? ==>
                  ((forall pieces | Concat(pieces) == body :: Upload(form, options, pieces).phase == Done) <==>
                   Fits(options, parsed.parts)))
            && (parsed.Bad? ==> forall pieces | Concat(pieces) == body :: Upload(form, options, pieces).phase != Done)
  {
    forall pieces | Concat(pieces) == body
      ensures var parsed := FromStart(form, Loose(options), body);
              && (parsed.Bad? ==> Upload(form, options, pieces).phase != Done)
              && (parsed.Good? && Fits(options, parsed.parts) ==> Upload(form, options, pieces).phase == Done)
    {
      UploadRefinesOneShot(form, options, pieces);
      if FromStart(form, Loose(options), body).Good? {
        TightIffFits(form, options, body[|form.Marker()|..]);
      }
    }
    var parsed := FromStart(form, Loose(options), body);
    if parsed.Good? && !Fits(options, parsed.parts) {
      var pieces := CutFails(form, options, body);
      assert Concat(pieces) == body;
    }
  }

  /**
   * In one piece the field bound is never enforced: the refusal is overwritten when the delimiter
   * is already in the buffer, so finish() answers true exactly when the one-shot parser accepts.
   */
  lemma OnePieceAgrees(form: Form, options: Options, body: Bytes)
    requires form.boundary != []
    ensures Upload(form, options, [body]).phase == Done <==> FromStart(form, Loose(options), body).Good?
  {
    UploadRefinesOneShot(form, options, [body]);
    assert Concat([body]) == body + Concat([]) == body;
    if FromStart(form, Loose(options), body).Good? {
      var fed := Initial(form).(buffer := [] + body);
      assert fed.buffer == body && fed.buffer + [] == body;
      var t := Process(form, options, fed);
      WholeTextSucceeds(form, options, fed);
      assert Appended(form, options, Initial(form), body) == t;
      assert [body][1..] == [];
      assert AppendAll(form, options, Initial(form), [body]) == t;
      assert Process(form, options, t).phase == Done;
    }
  }

  lemma {:induction false} WholeTextSucceeds(form: Form, options: Options, s: State)
    requires WellFormed(s) && Remaining(form, Loose(options), s, []).Good?
    ensures Process(form, options, s).phase == Done
    decreases |s.buffer|
  {
    TurnConsumes(form, options, s);
    TurnKept(form, options, s, []);
    assert s.buffer + [] == s.buffer;
    if s.phase != Done {
      WholeTextSucceeds(form, options, TurnOnce(form, options, s).state);
    }
  }
}
