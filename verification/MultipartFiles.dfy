/** What the callbacks of the streaming multipart parser see, part by part, and why an upload fails. */
module MultipartFiles {
  import opened Bytes
  import opened MultipartSpec
  import MultipartParser
  import opened StreamingMultipart
  import opened MultipartRefinement

  /** The data callbacks behind each part callback, in order. */
  function PiecesOf(notes: seq<Note>): seq<seq<Bytes>> {
    if notes == [] then []
    else
      var earlier := PiecesOf(notes[..|notes| - 1]);
      match notes[|notes| - 1]
      case PartStarted(_) => earlier + [[]]
      case DataArrived(data) =>
        if earlier == [] then [] else earlier[..|earlier| - 1] + [earlier[|earlier| - 1] + [data]]
      case Completed => earlier
  }

  predicate NoEmptyData(notes: seq<Note>) { forall n | n in notes :: n.DataArrived? ==> n.data != [] }

  /** Joined, they are the bodies observed. */
  lemma {:induction false} PiecesJoin(notes: seq<Note>)
    ensures |PiecesOf(notes)| == |Observed(notes)|
    ensures forall i | 0 <= i < |PiecesOf(notes)| :: Concat(PiecesOf(notes)[i]) == Observed(notes)[i].body
    decreases |notes|
  {
    if notes != [] {
      var earlier := PiecesOf(notes[..|notes| - 1]);
      PiecesJoin(notes[..|notes| - 1]);
      match notes[|notes| - 1]
      case DataArrived(data) => if earlier != [] { ConcatSnoc(earlier[|earlier| - 1], data); }
      case _ =>
    }
  }

  lemma {:induction false} PiecesNotEmpty(notes: seq<Note>)
    requires NoEmptyData(notes)
    ensures forall i, p | 0 <= i < |PiecesOf(notes)| && p in PiecesOf(notes)[i] :: p != []
    decreases |notes|
  {
    if notes != [] {
      assert notes[|notes| - 1] in notes;
      assert forall n | n in notes[..|notes| - 1] :: n in notes;
      PiecesNotEmpty(notes[..|notes| - 1]);
    }
  }

  lemma SomethingJoined(pieces: seq<Bytes>)
    requires pieces != [] && forall p | p in pieces :: p != []
    ensures Concat(pieces) != []
  {
    assert pieces[0] in pieces;
    assert Concat(pieces) == pieces[0] + Concat(pieces[1..]);
  }

  lemma NothingJoined(pieces: seq<Bytes>)
    requires Concat(pieces) == [] && forall p | p in pieces :: p != []
    ensures pieces == []
  {
    if pieces != [] {
      SomethingJoined(pieces);
    }
  }

  /** Why a parser stands in its error phase. */
  predicate Explained(form: Form, options: Options, s: State) {
    s.phase == Error && s.failure.Some? ==>
      match s.failure.value
      case EmptyBoundary => form.boundary == []
      case NoLeadingBoundary => |s.buffer| >= |form.boundary| + 4 && !StartsWith(s.buffer, [45, 45] + form.boundary)
      case HeadersTooLarge =>
        var end := Find(s.buffer, BLANK_LINE);
        if end.Some? then end.value > options.maxHeaderBytes else |s.buffer| > options.maxHeaderBytes
      case MalformedHead =>
        var end := Find(s.buffer, BLANK_LINE);
        end.Some? && end.value <= options.maxHeaderBytes && form.readFields(s.buffer[..end.value]).None?
      case FieldTooLarge => s.part.fields.filename == [] && s.fieldBytes > options.maxFieldBytes
      case MalformedBoundaryLine => |s.buffer| >= 2 && s.buffer[..2] != [45, 45] && s.buffer[..2] != [CR, LF]
      case Truncated => true
  }

  predicate Sound(form: Form, options: Options, s: State) {
    && NoEmptyData(s.notes) && Explained(form, options, s) && (s.phase == Error ==> s.failure.Some?)
  }

  lemma TurnSound(form: Form, options: Options, s: State)
    requires Sound(form, options, s)
    ensures Sound(form, options, TurnOnce(form, options, s).state)
  {
    hide Find;
    var t := TurnOnce(form, options, s).state;
    NotesGrow(form, options, s);
    if s.phase == FirstBoundary || s.phase == BoundarySuffix {
      PrefixesSay(s, form);
    }
  }

  lemma PrefixesSay(s: State, form: Form)
    ensures form.Marker() == [45, 45] + form.boundary
  {
  }

  lemma NotesGrow(form: Form, options: Options, s: State)
    requires NoEmptyData(s.notes)
    ensures NoEmptyData(TurnOnce(form, options, s).state.notes)
  {
    hide Find, StartsWith;
  }

  lemma {:induction false} ProcessSound(form: Form, options: Options, s: State)
    requires Sound(form, options, s)
    ensures Sound(form, options, Process(form, options, s))
    decreases |s.buffer|
  {
    hide Sound, TurnOnce;
    TurnConsumes(form, options, s);
    TurnSound(form, options, s);
    if TurnOnce(form, options, s).again {
      ProcessSound(form, options, TurnOnce(form, options, s).state);
    }
  }

  lemma {:induction false} AppendAllSound(form: Form, options: Options, s: State, pieces: seq<Bytes>)
    requires Sound(form, options, s)
    ensures Sound(form, options, AppendAll(form, options, s, pieces))
    decreases |pieces|
  {
    hide Process, Find;
    if pieces != [] {
      if s.phase != Done && s.phase != Error {
        ProcessSound(form, options, s.(buffer := s.buffer + pieces[0]));
      }
      hide Sound;
      AppendAllSound(form, options, Appended(form, options, s, pieces[0]), pieces[1..]);
    }
  }

  lemma UploadSound(form: Form, options: Options, pieces: seq<Bytes>)
    ensures Sound(form, options, Upload(form, options, pieces))
  {
    hide Process, Find, AppendAll, Form.Marker;
    AppendAllSound(form, options, Initial(form), pieces);
    var s := AppendAll(form, options, Initial(form), pieces);
    ProcessSound(form, options, s);
    DoneIsComplete(form, options, s);
  }

  /** An upload that fails has the failure that its input explains; only a part without filename can be too large. */
  lemma FailureExplained(form: Form, options: Options, pieces: seq<Bytes>)
    ensures var t := Upload(form, options, pieces);
            t.phase == Error ==> t.failure.Some? && Explained(form, options, t)
  {
    UploadSound(form, options, pieces);
    hide Upload, Explained;
  }

  /**
   * Under every cut that finishes: the data callbacks behind a part with a filename are non-empty and
   * add up to the body the one-shot parser finds; behind a part without one there are none.
   */
  lemma FilesDelivered(form: Form, options: Options, pieces: seq<Bytes>)
    requires form.boundary != [] && Upload(form, options, pieces).phase == Done
    ensures FromStart(form, Loose(options), Concat(pieces)).Good?
    ensures var parts := FromStart(form, Loose(options), Concat(pieces)).parts;
            var told := PiecesOf(Upload(form, options, pieces).notes);
            && |told| == |parts|
            && forall i | 0 <= i < |parts| ::
                 if parts[i].head.fields.filename != []
                 then Concat(told[i]) == parts[i].body && forall p | p in told[i] :: p != []
                 else told[i] == []
  {
    UploadRefinesOneShot(form, options, pieces);
    UploadSound(form, options, pieces);
    hide Upload, FromStart, Observed;
    var notes := Upload(form, options, pieces).notes;
    var parts := FromStart(form, Loose(options), Concat(pieces)).parts;
    PiecesJoin(notes);
    PiecesNotEmpty(notes);
    hide PiecesOf;
    SeenAt(parts);
    forall i | 0 <= i < |parts| && parts[i].head.fields.filename == [] ensures PiecesOf(notes)[i] == [] {
      NothingJoined(PiecesOf(notes)[i]);
    }
  }

  lemma {:induction false} SeenAt(parts: seq<Part>)
    ensures |Seen(parts)| == |parts|
    ensures forall i | 0 <= i < |parts| :: Seen(parts)[i] == SeenPart(parts[i])
    decreases |parts|
  {
    if parts != [] {
      SeenAt(parts[1..]);
    }
  }

  /**
   * The refusals of the one-shot parser, at any boundary of the text: neither the end nor a line end behind
   * it is malformed; a header block without its blank line or that cannot be read has malformed headers, one
   * above the bound exceeds the limits; a body without a delimiter is malformed, one part too many exceeds.
   */
  lemma OneShotRefusals(form: Form, header: nat, parts: nat, rest: Bytes)
    ensures var lim := Limits(header, None, Some(parts));
            var behind, block := AfterBoundary(form, lim, rest), Find(rest, [13, 10, 13, 10]);
            && (rest[..Min(2, |rest|)] !in {[45, 45], [13, 10]} ==> behind == Bad(MalformedBody))
            && (rest[..Min(2, |rest|)] == [45, 45] ==> behind == Good([]))
            && var headers := AtHeaders(form, lim, rest);
            && (block.None? ==> headers == Bad(MalformedHeaders))
            && (block.Some? && block.value > header ==> headers == Bad(LimitsExceeded))
            && (block.Some? && block.value <= header ==>
                  form.readFields(rest[..block.value]).None? ==> headers == Bad(MalformedHeaders))
  {
    hide Find, InBody;
  }

  function Min(a: nat, b: nat): nat { if a <= b then a else b }

  lemma BodyRefusals(form: Form, header: nat, parts: nat, head: PartHead, seen: nat, rest: Bytes)
    ensures var lim := Limits(header, None, Some(parts));
            var at := Find(rest, [13, 10, 45, 45] + form.boundary);
            && (at.None? ==> InBody(form, lim, head, seen, rest) == Bad(MalformedBody))
            && (at.Some? && parts == 0 ==> InBody(form, lim, head, seen, rest) == Bad(LimitsExceeded))
  {
    assert form.Delimiter() == [13, 10, 45, 45] + form.boundary;
    hide Find, AfterBoundary;
  }

  /** And before any boundary: the size of the body, the lookup of the boundary, and the marker in front. */
  lemma BodyTooLarge(lookup: MultipartParser.BoundaryLookup, readFields: Bytes -> Option<Fields>, body: Bytes,
      options: MultipartParser.Options)
    ensures var result := MultipartParser.OneShot(lookup, readFields, body, options);
            if |body| > options.maxBodyBytes then result == Bad(LimitsExceeded)
            else if lookup.NoBoundary? then result == Bad(MissingBoundary)
            else if lookup.OtherContentType? then result == Bad(InvalidContentType)
            else body[..Min(|lookup.boundary| + 2, |body|)] != [45, 45] + lookup.boundary ==>
                   result == Bad(MalformedBody)
  {
    hide AfterBoundary;
  }

  /**
   * finish() decides: the upload is done or has failed. It is truncated exactly when what was appended has
   * neither ended nor failed.
   */
  lemma FinishDecides(form: Form, options: Options, pieces: seq<Bytes>)
    ensures var t := Upload(form, options, pieces);
            var fed := Process(form, options, AppendAll(form, options, Initial(form), pieces));
            && t.phase in {Done, Error}
            && (t.phase == Done <==> fed.phase == Done)
            && (fed.phase !in {Done, Error} <==> t == fed.(phase := Error, failure := Some(Truncated)) != fed)
  {
    hide Process, AppendAll, Initial;
    DoneIsComplete(form, options, AppendAll(form, options, Initial(form), pieces));
  }

  /** Behind the close delimiter one line end is taken, if it is there; what follows stays unread. */
  lemma ClosingTurn(s: State, rest: Bytes)
    requires s.phase == BoundarySuffix && s.buffer == [45, 45] + rest
    ensures var t := TurnBoundarySuffix(s).state;
            && t.phase == Done && t.completed
            && t.buffer == if |rest| >= 2 && rest[..2] == [13, 10] then rest[2..] else rest
  {
    assert s.buffer[..2] == [45, 45] && s.buffer[2..] == rest;
  }
}
