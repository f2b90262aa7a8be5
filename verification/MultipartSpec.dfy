/**
 * multipart/form-data (section 5.1.1 of RFC 2046, section 4.1 of RFC 7578): the one-shot parser
 * of src/http/multipart_parser.cpp as a function of the remaining text.
 */
module MultipartSpec {
  import opened Bytes

  datatype Fields = Fields(name: Bytes, filename: Bytes, contentType: Bytes)

  /** The head of a part: the header block as received and what the parser reads from it. */
  datatype PartHead = PartHead(block: Bytes, fields: Fields) {
    predicate IsFile() { fields.filename != [] }
  }

  datatype Part = Part(head: PartHead, body: Bytes)

  /**
   * `readFields` stands for parse_part_headers and the Content-Disposition rules, which both
   * parsers share word for word; None is their common refusal. Every result holds for any such
   * function.
   */
  datatype Form = Form(boundary: Bytes, readFields: Bytes -> Option<Fields>) {
    function Marker(): Bytes { [45, 45] + boundary }
    function Delimiter(): Bytes { CRLF + Marker() }

    function ReadHead(block: Bytes): Option<PartHead> {
      match readFields(block)
      case None => None
      case Some(f) => Some(PartHead(block, f))
    }
  }

  const DASHES: Bytes := [45, 45]
  const BLANK_LINE: Bytes := [CR, LF, CR, LF]

  /** `field` bounds the bodies of parts that are not files, `parts` their number; None: no bound. */
  datatype Limits = Limits(header: int, field: Option<nat>, parts: Option<nat>) {
    predicate AllowsField(head: PartHead, size: nat) {
      field.Some? && !head.IsFile() ==> size <= field.value
    }

    function OneLess(): Limits
      requires parts != Some(0)
    {
      if parts.Some? then this.(parts := Some(parts.value - 1)) else this
    }
  }

  datatype ParseError = InvalidContentType | MissingBoundary | MalformedBody | MalformedHeaders | LimitsExceeded

  datatype Parse = Bad(error: ParseError) | Good(parts: seq<Part>) {
    /** The same parse with `earlier` parts in front. */
    function After(earlier: seq<Part>): Parse {
      if Bad? then this else Good(earlier + parts)
    }
  }

  /** Directly behind a boundary marker: two dashes end the form, a line end starts a part. */
  function AfterBoundary(form: Form, lim: Limits, rest: Bytes): Parse
    decreases |rest|, 0
  {
    if StartsWith(rest, DASHES) then Good([])
    else if !StartsWith(rest, CRLF) then Bad(MalformedBody)
    else AtHeaders(form, lim, rest[2..])
  }

  function AtHeaders(form: Form, lim: Limits, rest: Bytes): Parse
    decreases |rest|, 1
  {
    var end := Find(rest, BLANK_LINE);
    if end.None? then Bad(MalformedHeaders)
    else if end.value > lim.header then Bad(LimitsExceeded)
    else
      var head := form.ReadHead(rest[..end.value]);
      if head.None? then Bad(MalformedHeaders)
      else InBody(form, lim, head.value, 0, rest[end.value + 4..])
  }

  /** Inside the body of a part of which `seen` bytes have been counted already. */
  function InBody(form: Form, lim: Limits, head: PartHead, seen: nat, rest: Bytes): Parse
    decreases |rest|, 2
  {
    var at := Find(rest, form.Delimiter());
    if at.None? then Bad(MalformedBody)
    else if lim.parts == Some(0) || !lim.AllowsField(head, seen + at.value) then Bad(LimitsExceeded)
    else
      AfterBoundary(form, lim.OneLess(), rest[at.value + |form.Delimiter()|..]).After([Part(head, rest[..at.value])])
  }

  function FromStart(form: Form, lim: Limits, body: Bytes): Parse {
    if StartsWith(body, form.Marker()) then AfterBoundary(form, lim, body[|form.Marker()|..])
    else Bad(MalformedBody)
  }

  /** Only the header bound, as parse_multipart_form_data has it apart from its part count. */
  function HeaderLimit(header: int): Limits { Limits(header, None, None) }
}

/** parse_multipart_form_data: the loop over positions. */
module MultipartParser {
  import opened Bytes
  import opened MultipartSpec

  datatype BoundaryLookup = Found(boundary: Bytes) | NoBoundary | OtherContentType

  datatype Options = Options(maxParts: nat, maxHeaderBytes: nat, maxBodyBytes: nat)

  /** What the source promises of its result for a Content-Type that was looked up to `lookup`. */
  function OneShot(lookup: BoundaryLookup, readFields: Bytes -> Option<Fields>, body: Bytes, options: Options): Parse {
    if |body| > options.maxBodyBytes then Bad(LimitsExceeded)
    else match lookup
      case NoBoundary => Bad(MissingBoundary)
      case OtherContentType => Bad(InvalidContentType)
      case Found(boundary) =>
        FromStart(Form(boundary, readFields), Limits(options.maxHeaderBytes, None, Some(options.maxParts)), body)
  }

  method ParseMultipartFormData(lookup: BoundaryLookup, readFields: Bytes -> Option<Fields>, body: Bytes,
      options: Options)
    returns (result: Parse)
    ensures result == OneShot(lookup, readFields, body, options)
  {
    hide AtHeaders, AfterBoundary, Find;
    if |body| > options.maxBodyBytes {
      return Bad(LimitsExceeded);
    }
    match lookup {
      case NoBoundary => return Bad(MissingBoundary);
      case OtherContentType => return Bad(InvalidContentType);
      case Found(_) =>
    }
    var form := Form(lookup.boundary, readFields);
    var marker := form.Marker();
    if !StartsWith(body, marker) {
      return Bad(MalformedBody);
    }
    var parts: seq<Part> := [];
    var position := |marker|;
    ghost var lim := Limits(options.maxHeaderBytes, None, Some(options.maxParts));
    ghost var whole := AfterBoundary(form, lim, body[position..]);
    AfterNothing(whole);
    while true
      invariant position <= |body|
      invariant lim.header == options.maxHeaderBytes && lim.field.None? && lim.parts.Some?
      invariant |parts| + lim.parts.value == options.maxParts
      invariant whole == AfterBoundary(form, lim, body[position..]).After(parts)
      decreases |body| - position
    {
      BoundaryAt(form, lim, body, position);
      if position + 2 <= |body| && body[position..position + 2] == DASHES {
        assert parts + [] == parts;
        return Good(parts);
      }
      if position + 2 > |body| || body[position..position + 2] != CRLF {
        return Bad(MalformedBody);
      }
      var read := ReadPart(form, lim, body, position + 2, options.maxHeaderBytes);
      if read.Refused? {
        return Bad(read.error);
      }
      ghost var before := parts;
      parts := parts + [read.part];
      if |parts| > options.maxParts {
        return Bad(LimitsExceeded);
      }
      position := read.next;
      lim := lim.OneLess();
      AfterTwice(AfterBoundary(form, lim, body[position..]), before, [read.part]);
    }
  }

  datatype PartRead = Refused(error: ParseError) | Read(part: Part, next: nat)

  /** One turn of the loop: the part whose header block starts at `position`. */
  method ReadPart(form: Form, ghost lim: Limits, body: Bytes, position: nat, maxHeaderBytes: nat)
    returns (r: PartRead)
    requires position <= |body| && lim.header == maxHeaderBytes && lim.field.None?
    ensures r.Refused? ==> AtHeaders(form, lim, body[position..]) == Bad(r.error)
    ensures r.Read? ==> position < r.next <= |body|
    ensures r.Read? && lim.parts == Some(0) ==> AtHeaders(form, lim, body[position..]) == Bad(LimitsExceeded)
    ensures r.Read? && lim.parts != Some(0) ==>
              AtHeaders(form, lim, body[position..]) ==
              AfterBoundary(form, lim.OneLess(), body[r.next..]).After([r.part])
  {
    hide AtHeaders, InBody, AfterBoundary, Find, FindFrom;
    HeadersAt(form, lim, body, position);
    var headerEnd := FindFrom(body, BLANK_LINE, position);
    if headerEnd.None? {
      return Refused(MalformedHeaders);
    }
    if headerEnd.value - position > maxHeaderBytes {
      return Refused(LimitsExceeded);
    }
    var head := form.ReadHead(body[position..headerEnd.value]);
    if head.None? {
      return Refused(MalformedHeaders);
    }
    var contentBegin := headerEnd.value + 4;
    BodyAt(form, lim, head.value, body, contentBegin);
    var delimiterPosition := FindFrom(body, form.Delimiter(), contentBegin);
    if delimiterPosition.None? {
      return Refused(MalformedBody);
    }
    r := Read(Part(head.value, body[contentBegin..delimiterPosition.value]),
              delimiterPosition.value + |form.Delimiter()|);
  }

  lemma AfterNothing(p: Parse)
    ensures p.After([]) == p
  {
    if p.Good? {
      assert [] + p.parts == p.parts;
    }
  }

  lemma AfterTwice(p: Parse, a: seq<Part>, b: seq<Part>)
    ensures p.After(b).After(a) == p.After(a + b)
  {
    if p.Good? {
      assert a + (b + p.parts) == (a + b) + p.parts;
    }
  }

  /** The suffix functions, read off at a position of the whole body. */
  lemma BoundaryAt(form: Form, lim: Limits, body: Bytes, position: nat)
    requires position <= |body|
    ensures AfterBoundary(form, lim, body[position..]) ==
            if OccursAt(body, DASHES, position) then Good([])
            else if !OccursAt(body, CRLF, position) then Bad(MalformedBody)
            else AtHeaders(form, lim, body[position + 2..])
  {
    var rest := body[position..];
    if |rest| >= 2 {
      assert rest[..2] == body[position..position + 2];
      assert rest[2..] == body[position + 2..];
    }
  }

  lemma HeadersAt(form: Form, lim: Limits, body: Bytes, position: nat)
    requires position <= |body|
    ensures AtHeaders(form, lim, body[position..]) ==
            var end := FindFrom(body, BLANK_LINE, position);
            if end.None? then Bad(MalformedHeaders)
            else if end.value - position > lim.header then Bad(LimitsExceeded)
            else
              var head := form.ReadHead(body[position..end.value]);
              if head.None? then Bad(MalformedHeaders) else InBody(form, lim, head.value, 0, body[end.value + 4..])
  {
    hide AfterBoundary, InBody, Find, FindFrom;
    FindFromIsFind(body, BLANK_LINE, position);
    var end := FindFrom(body, BLANK_LINE, position);
    if end.Some? {
      assert body[position..][..end.value - position] == body[position..end.value];
      assert body[position..][end.value - position + 4..] == body[end.value + 4..];
    }
  }

  lemma BodyAt(form: Form, lim: Limits, head: PartHead, body: Bytes, begin: nat)
    requires begin <= |body| && lim.field.None?
    ensures InBody(form, lim, head, 0, body[begin..]) ==
            var at := FindFrom(body, form.Delimiter(), begin);
            if at.None? then Bad(MalformedBody)
            else if lim.parts == Some(0) then Bad(LimitsExceeded)
            else AfterBoundary(form, lim.OneLess(),
              body[at.value + |form.Delimiter()|..]).After([Part(head, body[begin..at.value])])
  {
    hide AfterBoundary, AtHeaders, Find, FindFrom;
    FindFromIsFind(body, form.Delimiter(), begin);
    var at := FindFrom(body, form.Delimiter(), begin);
    if at.Some? {
      assert body[begin..][..at.value - begin] == body[begin..at.value];
      assert body[begin..][at.value - begin + |form.Delimiter()|..] == body[at.value + |form.Delimiter()|..];
    }
  }
}
