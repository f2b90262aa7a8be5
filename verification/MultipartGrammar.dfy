/** What the one-shot multipart parser accepts, said without a parser, and its limits. */
module MultipartGrammar {
  import opened Bytes
  import opened MultipartSpec
  import opened MultipartParser
  import opened MultipartRefinement
  import Streaming = StreamingMultipart

  /** The text of a form behind its first boundary marker, as section 5.1.1 of RFC 2046 lays it out. */
  function Render(form: Form, parts: seq<Part>): Bytes {
    if parts == [] then DASHES
    else
      CRLF + (parts[0].head.block + BLANK_LINE) + (parts[0].body + form.Delimiter()) + Render(form, parts[1..])
  }

  /** The block ends at its first blank line, the body at its first delimiter. */
  predicate RenderablePart(form: Form, header: nat, p: Part) {
    && form.ReadHead(p.head.block) == Some(p.head)
    && |p.head.block| <= header
    && Find(p.head.block + BLANK_LINE, BLANK_LINE) == Some(|p.head.block|)
    && Find(p.body + form.Delimiter(), form.Delimiter()) == Some(|p.body|)
  }

  predicate Renderable(form: Form, header: nat, parts: seq<Part>) {
    forall i | 0 <= i < |parts| :: RenderablePart(form, header, parts[i])
  }

  lemma RenderableCons(form: Form, header: nat, p: Part, parts: seq<Part>)
    ensures Renderable(form, header, [p] + parts) <==>
            RenderablePart(form, header, p) && Renderable(form, header, parts)
  {
    if Renderable(form, header, [p] + parts) {
      assert RenderablePart(form, header, ([p] + parts)[0]);
      forall i | 0 <= i < |parts| ensures RenderablePart(form, header, parts[i]) {
        assert ([p] + parts)[i + 1] == parts[i];
      }
    }
  }

  /** Rendered parts parse back to themselves, whatever follows the close delimiter. */
  lemma {:induction false} RenderedParses(form: Form, header: nat, parts: seq<Part>, epilogue: Bytes)
    requires Renderable(form, header, parts)
    ensures AfterBoundary(form, HeaderLimit(header), Render(form, parts) + epilogue) == Good(parts)
    decreases |parts|
  {
    hide AtHeaders, InBody, Find, RenderablePart;
    var text := Render(form, parts) + epilogue;
    if parts == [] {
      assert text[..2] == DASHES;
    } else {
      var p := parts[0];
      assert RenderablePart(form, header, p);
      var more := Render(form, parts[1..]) + epilogue;
      RenderedParses(form, header, parts[1..], epilogue);
      RenderedBody(form, header, p, more);
      RenderedHeaders(form, header, p, (p.body + form.Delimiter()) + more);
      RenderedText(form, parts, epilogue);
      assert [p] + parts[1..] == parts;
    }
  }

  lemma RenderedText(form: Form, parts: seq<Part>, epilogue: Bytes)
    requires parts != []
    ensures var text := Render(form, parts) + epilogue;
            var p := parts[0];
            && |text| >= 2 && text[..2] == CRLF
            && text[2..] == (p.head.block + BLANK_LINE)
               + ((p.body + form.Delimiter()) + (Render(form, parts[1..]) + epilogue))
  {
    var p := parts[0];
    Regroup(p.head.block + BLANK_LINE, p.body + form.Delimiter(), Render(form, parts[1..]), epilogue);
  }

  lemma Regroup(a: Bytes, b: Bytes, c: Bytes, d: Bytes)
    ensures var text := CRLF + a + b + c + d;
            |text| >= 2 && text[..2] == CRLF && text[2..] == a + (b + (c + d))
  {
    assert CRLF + a + b + c + d == CRLF + (a + (b + (c + d)));
  }

  lemma RenderedBody(form: Form, header: nat, p: Part, more: Bytes)
    requires RenderablePart(form, header, p)
    ensures InBody(form, HeaderLimit(header), p.head, 0, (p.body + form.Delimiter()) + more) ==
            AfterBoundary(form, HeaderLimit(header), more).After([p])
  {
    var body := p.body + form.Delimiter();
    BodyEnds(form, HeaderLimit(header), p.head, 0, body, more);
    assert body[..|p.body|] == p.body;
    assert body[|p.body| + |form.Delimiter()|..] + more == more;
  }

  lemma RenderedHeaders(form: Form, header: nat, p: Part, more: Bytes)
    requires RenderablePart(form, header, p)
    ensures AtHeaders(form, HeaderLimit(header), (p.head.block + BLANK_LINE) + more) ==
            InBody(form, HeaderLimit(header), p.head, 0, more)
  {
    var headers := p.head.block + BLANK_LINE;
    HeadersEnd(form, HeaderLimit(header), headers, more);
    assert headers[..|p.head.block|] == p.head.block;
    assert headers[|p.head.block| + 4..] + more == more;
  }

  /** Whatever parses is the rendering of its parts followed by an epilogue. */
  lemma {:induction false} ParsedIsRendered(form: Form, header: nat, rest: Bytes) returns (epilogue: Bytes)
    requires AfterBoundary(form, HeaderLimit(header), rest).Good?
    ensures var parts := AfterBoundary(form, HeaderLimit(header), rest).parts;
            Renderable(form, header, parts) && rest == Render(form, parts) + epilogue
    decreases |rest|
  {
    if StartsWith(rest, DASHES) {
      epilogue := rest[2..];
    } else {
      var headers := rest[2..];
      assert AtHeaders(form, HeaderLimit(header), headers).Good?;
      var end := Find(headers, BLANK_LINE).value;
      var head := form.ReadHead(headers[..end]).value;
      var body := headers[end + 4..];
      assert InBody(form, HeaderLimit(header), head, 0, body).Good?;
      var at := Find(body, form.Delimiter()).value;
      var after := body[at + |form.Delimiter()|..];
      var p := Part(head, body[..at]);
      epilogue := ParsedIsRendered(form, header, after);
      SplitAtFound(headers, BLANK_LINE);
      SplitAtFound(body, form.Delimiter());
      RenderableCons(form, header, p, AfterBoundary(form, HeaderLimit(header), after).parts);
      RenderCons(form, p, AfterBoundary(form, HeaderLimit(header), after).parts, epilogue, rest);
    }
  }

  lemma SplitAtFound(text: Bytes, needle: Bytes)
    requires Find(text, needle).Some?
    ensures var i := Find(text, needle).value;
            && text == (text[..i] + needle) + text[i + |needle|..]
            && Find(text[..i] + needle, needle) == Some(i)
  {
    var i := Find(text, needle).value;
    FindFirst(text, needle);
    assert text[i..i + |needle|] == needle;
    assert text[..i] + needle == text[..i + |needle|];
    FoundBy(text, needle, i + |needle|);
  }

  lemma RenderCons(form: Form, p: Part, parts: seq<Part>, epilogue: Bytes, rest: Bytes)
    requires |rest| >= 2 && rest[..2] == CRLF
    requires rest[2..] == (p.head.block + BLANK_LINE) + ((p.body + form.Delimiter()) + (Render(form, parts) + epilogue))
    ensures rest == Render(form, [p] + parts) + epilogue
  {
    assert ([p] + parts)[1..] == parts;
    assert rest == CRLF + rest[2..];
  }

  /** The accepted language: a form parses to `parts` exactly when it is their rendering plus an epilogue. */
  lemma ParsesIffRendered(form: Form, header: nat, body: Bytes, parts: seq<Part>)
    ensures FromStart(form, HeaderLimit(header), body) == Good(parts) <==>
            Renderable(form, header, parts) &&
            StartsWith(body, form.Marker() + Render(form, parts))
  {
    if FromStart(form, HeaderLimit(header), body) == Good(parts) {
      FormIsRendered(form, header, body, parts);
    }
    if Renderable(form, header, parts) && StartsWith(body, form.Marker() + Render(form, parts)) {
      RenderedForm(form, header, body, parts);
    }
  }

  lemma FormIsRendered(form: Form, header: nat, body: Bytes, parts: seq<Part>)
    requires FromStart(form, HeaderLimit(header), body) == Good(parts)
    ensures Renderable(form, header, parts) && StartsWith(body, form.Marker() + Render(form, parts))
  {
    hide Render, AfterBoundary, Renderable;
    var m := form.Marker();
    var epilogue := ParsedIsRendered(form, header, body[|m|..]);
    assert body == (m + Render(form, parts)) + epilogue;
  }

  lemma RenderedForm(form: Form, header: nat, body: Bytes, parts: seq<Part>)
    requires Renderable(form, header, parts) && StartsWith(body, form.Marker() + Render(form, parts))
    ensures FromStart(form, HeaderLimit(header), body) == Good(parts)
  {
    hide Render, AfterBoundary, Renderable;
    var m := form.Marker();
    var epilogue := body[|m + Render(form, parts)|..];
    assert body == m + (Render(form, parts) + epilogue);
    RenderedParses(form, header, parts, epilogue);
  }

  /** The part count only decides between the parse and its refusal. */
  lemma {:induction false} PartLimit(form: Form, header: nat, most: nat, rest: Bytes)
    ensures CutOff(AfterBoundary(form, HeaderLimit(header), rest),
            AfterBoundary(form, Limits(header, None, Some(most)), rest), most)
    decreases |rest|
  {
    hide AtHeaders, InBody, Find;
    if !StartsWith(rest, DASHES) && StartsWith(rest, CRLF) {
      var headers := rest[2..];
      var end := Find(headers, BLANK_LINE);
      if end.Some? && end.value <= header && form.ReadHead(headers[..end.value]).Some? {
        var head := form.ReadHead(headers[..end.value]).value;
        var body := headers[end.value + 4..];
        var at := Find(body, form.Delimiter());
        if at.Some? && most > 0 {
          PartLimit(form, header, most - 1, body[at.value + |form.Delimiter()|..]);
        }
        PartLimitInBody(form, header, most, head, body);
      }
      PartLimitHeaders(form, header, most, headers);
    }
  }

  /** `bound` is `free` cut off behind `most` parts. */
  predicate CutOff(free: Parse, bound: Parse, most: nat) {
    && (free.Good? && |free.parts| <= most ==> bound == free)
    && (free.Good? && |free.parts| > most ==> bound == Bad(LimitsExceeded))
    && (free.Bad? ==> bound.Bad?)
  }

  lemma PartLimitHeaders(form: Form, header: nat, most: nat, rest: Bytes)
    requires var end := Find(rest, BLANK_LINE);
             end.Some? && end.value <= header && form.ReadHead(rest[..end.value]).Some? ==>
               CutOff(InBody(form, HeaderLimit(header), form.ReadHead(rest[..end.value]).value, 0,
                 rest[end.value + 4..]),
                      InBody(form, Limits(header, None, Some(most)), form.ReadHead(rest[..end.value]).value, 0,
                        rest[end.value + 4..]), most)
    ensures CutOff(AtHeaders(form, HeaderLimit(header), rest), AtHeaders(form, Limits(header, None, Some(most)), rest),
            most)
  {
    hide InBody, AfterBoundary, Find;
  }

  lemma PartLimitInBody(form: Form, header: nat, most: nat, head: PartHead, rest: Bytes)
    requires var at := Find(rest, form.Delimiter());
             at.Some? && most > 0 ==>
               CutOff(AfterBoundary(form, HeaderLimit(header), rest[at.value + |form.Delimiter()|..]),
                      AfterBoundary(form, Limits(header, None, Some(most - 1)), rest[at.value + |form.Delimiter()|..]),
                        most - 1)
    ensures CutOff(InBody(form, HeaderLimit(header), head, 0, rest),
            InBody(form, Limits(header, None, Some(most)), head, 0, rest), most)
  {
    hide AtHeaders, AfterBoundary, Find;
  }

  /**
   * The two parsers as shipped, with equal header bounds and within the one-shot size and part
   * bounds: every cut that finishes shows the one-shot parts, and every cut finishes if they fit.
   */
  lemma StreamingAgreesWithOneShot(
      readFields: Bytes -> Option<Fields>, boundary: Bytes, once: Options, options: Streaming.Options,
        pieces: seq<Bytes>)
    requires boundary != [] && options.maxHeaderBytes == once.maxHeaderBytes
    requires |Concat(pieces)| <= once.maxBodyBytes
    ensures var result := OneShot(Found(boundary), readFields, Concat(pieces), once);
            var t := Streaming.Upload(Form(boundary, readFields), options, pieces);
            && (result.Good? && t.phase == Streaming.Done ==>
                  Observed(t.notes) == Seen(result.parts) && Completions(t.notes) == 1)
            && (result.Good? && Fits(options, result.parts) ==> t.phase == Streaming.Done)
            && (result.Bad? && t.phase == Streaming.Done ==>
                  result.error == LimitsExceeded && |Observed(t.notes)| > once.maxParts)
  {
    var form := Form(boundary, readFields);
    var text := Concat(pieces);
    UploadRefinesOneShot(form, options, pieces);
    if StartsWith(text, form.Marker()) {
      var rest := text[|form.Marker()|..];
      PartLimit(form, once.maxHeaderBytes, once.maxParts, rest);
      if AfterBoundary(form, Loose(options), rest).Good? {
        TightIffFits(form, options, rest);
        SeenLength(AfterBoundary(form, Loose(options), rest).parts);
      }
    }
  }

  lemma {:induction false} SeenLength(parts: seq<Part>)
    ensures |Seen(parts)| == |parts|
  {
    if parts != [] {
      SeenLength(parts[1..]);
    }
  }
}
