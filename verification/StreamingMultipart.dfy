/** src/http/streaming_multipart_parser.cpp: the multipart parser fed piece by piece. */
module StreamingMultipart {
  import opened Bytes
  import opened MultipartSpec

  datatype Phase = FirstBoundary | Headers | Body | BoundarySuffix | Done | Error

  /** Callback invocations, in order. */
  datatype Note = PartStarted(head: PartHead) | DataArrived(data: Bytes) | Completed

  datatype Options = Options(maxHeaderBytes: nat, maxFieldBytes: nat)

  datatype Failure =
    | EmptyBoundary | NoLeadingBoundary | HeadersTooLarge | MalformedHead
    | FieldTooLarge | MalformedBoundaryLine | Truncated

  datatype State = State(
    phase: Phase,
    buffer: Bytes,
    part: PartHead,
    fieldBytes: nat,
    notes: seq<Note>,
    completed: bool,
    failure: Option<Failure>)
  {
    function Fail(f: Failure): State { this.(phase := Error, failure := Some(f)) }

    function CompleteOnce(): State {
      if completed then this else this.(completed := true, notes := notes + [Completed])
    }

    function Emit(options: Options, data: Bytes): State {
      if data == [] then this
      else if part.IsFile() then this.(notes := notes + [DataArrived(data)])
      else
        var s := this.(fieldBytes := fieldBytes + |data|);
        if s.fieldBytes > options.maxFieldBytes then s.Fail(FieldTooLarge) else s
    }

    function Drop(n: nat): State
      requires n <= |buffer|
    {
      this.(buffer := buffer[n..])
    }
  }

  const NO_PART := PartHead([], Fields([], [], []))

  function Initial(form: Form): State {
    var s := State(FirstBoundary, [], NO_PART, 0, [], false, None);
    if form.boundary == [] then s.Fail(EmptyBoundary) else s
  }

  /** The new state, and whether the processing loop goes on. */
  datatype Turn = Turn(state: State, again: bool)

  function TurnFirstBoundary(form: Form, s: State): Turn {
    var marker := form.Marker();
    if |s.buffer| < |marker| + 2 then Turn(s, false)
    else if !StartsWith(s.buffer, marker) then Turn(s.Fail(NoLeadingBoundary), false)
    else TurnBoundarySuffix(s.Drop(|marker|))
  }

  function TurnHeaders(form: Form, options: Options, s: State): Turn {
    var end := Find(s.buffer, BLANK_LINE);
    if end.None? then
      if |s.buffer| > options.maxHeaderBytes then Turn(s.Fail(HeadersTooLarge), false) else Turn(s, false)
    else if end.value > options.maxHeaderBytes then Turn(s.Fail(HeadersTooLarge), false)
    else
      var head := form.ReadHead(s.buffer[..end.value]);
      if head.None? then Turn(s.Fail(MalformedHead), false)
      else
        Turn(s.(part := head.value, fieldBytes := 0, notes := s.notes + [PartStarted(head.value)], phase := Body)
              .Drop(end.value + 4), true)
  }

  /** Once the delimiter is in the buffer a refused field is forgotten: the phase is overwritten. */
  function TurnBody(form: Form, options: Options, s: State): Turn {
    var delimiter := form.Delimiter();
    var at := Find(s.buffer, delimiter);
    if at.None? then
      var keep := if |s.buffer| <= |delimiter| - 1 then |s.buffer| else |delimiter| - 1;
      if |s.buffer| <= keep then Turn(s, false)
      else Turn(s.Emit(options, s.buffer[..|s.buffer| - keep]).Drop(|s.buffer| - keep), false)
    else
      Turn(s.Emit(options, s.buffer[..at.value]).Drop(at.value + |delimiter|).(phase := BoundarySuffix), true)
  }

  function TurnBoundarySuffix(s: State): Turn {
    if |s.buffer| < 2 then Turn(s, false)
    else if StartsWith(s.buffer, DASHES) then
      var t := s.Drop(2);
      var u := if StartsWith(t.buffer, CRLF) then t.Drop(2) else t;
      Turn(u.(phase := Done).CompleteOnce(), true)
    else if StartsWith(s.buffer, CRLF) then Turn(s.Drop(2).(phase := Headers), true)
    else Turn(s.Fail(MalformedBoundaryLine), false)
  }

  function TurnOnce(form: Form, options: Options, s: State): Turn {
    match s.phase
    case FirstBoundary => TurnFirstBoundary(form, s)
    case Headers => TurnHeaders(form, options, s)
    case Body => TurnBody(form, options, s)
    case BoundarySuffix => TurnBoundarySuffix(s)
    case Done => Turn(s.CompleteOnce(), false)
    case Error => Turn(s, false)
  }

  lemma TurnConsumes(form: Form, options: Options, s: State)
    ensures TurnOnce(form, options, s).again ==> |TurnOnce(form, options, s).state.buffer| < |s.buffer|
  {
  }

  /** The loop of process(); it answers true exactly when the resulting phase is not Error. */
  function Process(form: Form, options: Options, s: State): State
    decreases |s.buffer|
  {
    TurnConsumes(form, options, s);
    var t := TurnOnce(form, options, s);
    if t.again then Process(form, options, t.state) else t.state
  }

  function Appended(form: Form, options: Options, s: State, data: Bytes): State {
    if s.phase == Done || s.phase == Error then s
    else Process(form, options, s.(buffer := s.buffer + data))
  }

  function Finished(form: Form, options: Options, s: State): State {
    var t := Process(form, options, s);
    if t.phase == Error then t
    else if t.phase != Done then t.Fail(Truncated)
    else t.CompleteOnce()
  }

  /** A whole upload: one append per piece, then finish. */
  function AppendAll(form: Form, options: Options, s: State, pieces: seq<Bytes>): State
    decreases |pieces|
  {
    if pieces == [] then s else AppendAll(form, options, Appended(form, options, s, pieces[0]), pieces[1..])
  }

  function Upload(form: Form, options: Options, pieces: seq<Bytes>): State {
    Finished(form, options, AppendAll(form, options, Initial(form), pieces))
  }

  class StreamingMultipartParser {
    const form: Form
    const marker: Bytes
    const delimiter: Bytes
    const options: Options
    var phase: Phase
    var buffer: Bytes
    var currentPart: PartHead
    var currentFieldBytes: nat
    var notes: seq<Note>
    var completedCallbackCalled: bool
    var failure: Option<Failure>

    ghost predicate Valid() {
      marker == form.Marker() && delimiter == form.Delimiter()
    }

    function View(): State
      reads this
    {
      State(phase, buffer, currentPart, currentFieldBytes, notes, completedCallbackCalled, failure)
    }

    constructor (form: Form, options: Options)
      ensures Valid() && this.form == form && this.options == options
      ensures View() == Initial(form)
    {
      this.form, this.options := form, options;
      marker, delimiter := form.Marker(), form.Delimiter();
      buffer, currentPart, currentFieldBytes := [], NO_PART, 0;
      notes, completedCallbackCalled := [], false;
      phase := if form.boundary == [] then Error else FirstBoundary;
      failure := if form.boundary == [] then Some(EmptyBoundary) else None;
    }

    method Append(data: Bytes) returns (ok: bool)
      requires Valid()
      modifies this
      ensures View() == Appended(form, options, old(View()), data)
      ensures ok == if old(phase) == Done then data == [] else phase != Error
    {
      if phase == Done {
        return data == [];
      }
      if phase == Error {
        return false;
      }
      buffer := buffer + data;
      ok := RunProcess();
    }

    method Finish() returns (ok: bool)
      requires Valid()
      modifies this
      ensures View() == Finished(form, options, old(View()))
      ensures ok <==> phase == Done
    {
      var going := RunProcess();
      if !going {
        return false;
      }
      if phase != Done {
        Fail(Truncated);
        return false;
      }
      CompleteOnce();
      return true;
    }

    method RunProcess() returns (ok: bool)
      requires Valid()
      modifies this
      ensures View() == Process(form, options, old(View()))
      ensures ok <==> phase != Error
    {
      while true
        invariant Process(form, options, View()) == Process(form, options, old(View()))
        decreases |buffer|
      {
        TurnConsumes(form, options, View());
        var again: bool;
        match phase {
          case FirstBoundary => again := ProcessFirstBoundary();
          case Headers => again := ProcessHeaders();
          case Body => again := ProcessBody();
          case BoundarySuffix => again := ProcessBoundarySuffix();
          case Done =>
            CompleteOnce();
            return true;
          case Error =>
            return false;
        }
        if !again {
          return phase != Error;
        }
      }
    }

    method ProcessFirstBoundary() returns (again: bool)
      requires Valid()
      modifies this
      ensures Turn(View(), again) == TurnFirstBoundary(form, old(View()))
    {
      if |buffer| < |marker| + 2 {
        return false;
      }
      if !StartsWith(buffer, marker) {
        Fail(NoLeadingBoundary);
        return false;
      }
      buffer := buffer[|marker|..];
      again := ProcessBoundarySuffix();
    }

    method ProcessHeaders() returns (again: bool)
      requires Valid()
      modifies this
      ensures Turn(View(), again) == TurnHeaders(form, options, old(View()))
    {
      var headerEnd := Find(buffer, BLANK_LINE);
      if headerEnd.None? {
        if |buffer| > options.maxHeaderBytes {
          Fail(HeadersTooLarge);
        }
        return false;
      }
      if headerEnd.value > options.maxHeaderBytes {
        Fail(HeadersTooLarge);
        return false;
      }
      var part := form.ReadHead(buffer[..headerEnd.value]);
      if part.None? {
        Fail(MalformedHead);
        return false;
      }
      currentPart, currentFieldBytes := part.value, 0;
      notes := notes + [PartStarted(currentPart)];
      buffer := buffer[headerEnd.value + 4..];
      phase := Body;
      return true;
    }

    method ProcessBody() returns (again: bool)
      requires Valid()
      modifies this
      ensures Turn(View(), again) == TurnBody(form, options, old(View()))
    {
      var delimiterPosition := Find(buffer, delimiter);
      if delimiterPosition.None? {
        var keep := if |buffer| <= |delimiter| - 1 then |buffer| else |delimiter| - 1;
        if |buffer| <= keep {
          return false;
        }
        var emitSize := |buffer| - keep;
        EmitData(buffer[..emitSize]);
        buffer := buffer[emitSize..];
        return false;
      }
      EmitData(buffer[..delimiterPosition.value]);
      buffer := buffer[delimiterPosition.value + |delimiter|..];
      phase := BoundarySuffix;
      return true;
    }

    method ProcessBoundarySuffix() returns (again: bool)
      modifies this
      ensures Turn(View(), again) == TurnBoundarySuffix(old(View()))
    {
      if |buffer| < 2 {
        return false;
      }
      if StartsWith(buffer, DASHES) {
        buffer := buffer[2..];
        if StartsWith(buffer, CRLF) {
          buffer := buffer[2..];
        }
        phase := Done;
        CompleteOnce();
        return true;
      }
      if StartsWith(buffer, CRLF) {
        buffer := buffer[2..];
        phase := Headers;
        return true;
      }
      Fail(MalformedBoundaryLine);
      return false;
    }

    method Fail(message: Failure)
      modifies this
      ensures View() == old(View()).Fail(message)
    {
      phase, failure := Error, Some(message);
    }

    method CompleteOnce()
      modifies this
      ensures View() == old(View()).CompleteOnce()
    {
      if completedCallbackCalled {
        return;
      }
      completedCallbackCalled := true;
      notes := notes + [Completed];
    }

    method EmitData(data: Bytes)
      modifies this
      ensures View() == old(View()).Emit(options, data)
    {
      if data == [] {
        return;
      }
      if !currentPart.IsFile() {
        currentFieldBytes := currentFieldBytes + |data|;
        if currentFieldBytes > options.maxFieldBytes {
          Fail(FieldTooLarge);
        }
        return;
      }
      notes := notes + [DataArrived(data)];
    }
  }
}
