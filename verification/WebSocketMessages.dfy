/** Message assembly of src/websocket/websocket_frame.cpp: fragmentation is transparent (section 5.4 of RFC 6455). */
module WebSocketMessages {
  import opened Bytes
  import opened WebSocketFrames
  import Utf8

  datatype Message = Message(opcode: Opcode, payload: Bytes, compressed: bool)

  datatype MessageError = Protocol | TooBig | BadUtf8

  datatype Reply = Incomplete | Complete(message: Message) | Control | Error(error: MessageError)

  /** The fragments collected so far. */
  datatype Assembly = Assembly(active: bool, opcode: Opcode, payload: Bytes, compressed: bool)

  const IDLE := Assembly(false, Continuation, [], false)

  predicate ValidCloseCode(code: nat) {
    1000 <= code <= 4999 && code != 1004 && code != 1005 && code != 1006 && !(1016 <= code <= 2999)
  }

  function CloseCode(payload: Bytes): nat
    requires |payload| >= 2
  {
    var high: int := payload[0];
    high * 0x100 + payload[1]
  }

  function ControlReply(f: Frame): Reply {
    if f.opcode != Close || |f.payload| < 2 then Control
    else if !ValidCloseCode(CloseCode(f.payload)) then Error(Protocol)
    else if |f.payload| > 2 && !Utf8.Accepts(Utf8.START, f.payload[2..]) then Error(BadUtf8)
    else Control
  }

  /**
   * A close frame passes exactly when it names no code, or one of 1000 to 1003, 1007 to 1015 and 3000 to 4999
   * with a UTF-8 reason; 1015 among them, which section 7.4.1 of RFC 6455 does not allow in a frame. What is
   * wrong first decides the error.
   */
  lemma CloseAccepted(f: Frame)
    requires f.opcode == Close
    ensures |f.payload| < 2 ==> ControlReply(f) == Control
    ensures |f.payload| >= 2 ==>
              var code := 0x100 * (f.payload[0] as int) + f.payload[1];
              var known := 1000 <= code <= 1003 || 1007 <= code <= 1015 || 3000 <= code <= 4999;
              ControlReply(f) == if !known then Error(Protocol)
                                 else if Utf8.IsUtf8(f.payload[2..]) then Control else Error(BadUtf8)
  {
    if |f.payload| >= 2 {
      Utf8.AcceptsIffUtf8(f.payload[2..]);
    }
  }

  /** Text that is not compressed must be UTF-8 before it is handed out. */
  predicate Readable(m: Message) {
    m.opcode == Text && !m.compressed ==> Utf8.Accepts(Utf8.START, m.payload)
  }

  /** The next state and the reply to one frame. */
  function After(max: nat, s: Assembly, f: Frame): (Assembly, Reply) {
    if IsControl(f.opcode) then (s, ControlReply(f))
    else if IsData(f.opcode) then
      if s.active then (s, Error(Protocol))
      else if |f.payload| > max then (s, Error(TooBig))
      else if !f.fin then (Assembly(true, f.opcode, f.payload, f.rsv1), Incomplete)
      else
        var m := Message(f.opcode, f.payload, f.rsv1);
        (s, if Readable(m) then Complete(m) else Error(BadUtf8))
    else if !s.active then (s, Error(Protocol))
    else if |s.payload| + |f.payload| > max then (s, Error(TooBig))
    else
      var t := s.(payload := s.payload + f.payload);
      var m := Message(t.opcode, t.payload, t.compressed);
      if !f.fin then (t, Incomplete)
      else if Readable(m) then (IDLE, Complete(m))
      else (t, Error(BadUtf8))
  }

  class WebSocketMessageAssembler {
    const maxMessagePayload: nat
    var fragmentedActive: bool
    var fragmentedOpcode: Opcode
    var fragmentedPayload: Bytes
    var fragmentedCompressed: bool
    var error: Option<MessageError>

    function State(): Assembly
      reads this
    {
      Assembly(fragmentedActive, fragmentedOpcode, fragmentedPayload, fragmentedCompressed)
    }

    constructor (options: Options)
      ensures maxMessagePayload == options.maxMessagePayload && State() == IDLE && error.None?
    {
      maxMessagePayload := options.maxMessagePayload;
      fragmentedActive, fragmentedOpcode, fragmentedPayload := false, Continuation, [];
      fragmentedCompressed, error := false, None;
    }

    method Reset()
      modifies this
      ensures State() == IDLE && error.None?
    {
      fragmentedActive, fragmentedOpcode, fragmentedPayload := false, Continuation, [];
      fragmentedCompressed, error := false, None;
    }

    method SetError(e: MessageError) returns (reply: Reply)
      modifies this`error
      ensures error == Some(e) && reply == Error(e)
    {
      error := Some(e);
      reply := Error(e);
    }

    method Consume(f: Frame) returns (reply: Reply)
      modifies this
      ensures (State(), reply) == After(maxMessagePayload, old(State()), f)
      ensures error == if reply.Error? then Some(reply.error)
                       else if old(State()).active && !State().active then None
                       else old(error)
    {
      if IsControl(f.opcode) {
        if f.opcode == Close && |f.payload| >= 2 {
          if !ValidCloseCode(CloseCode(f.payload)) {
            reply := SetError(Protocol);
            return;
          }
          if |f.payload| > 2 {
            var valid := Utf8.ValidUtf8(f.payload[2..]);
            if !valid {
              reply := SetError(BadUtf8);
              return;
            }
          }
        }
        return Control;
      }
      if IsData(f.opcode) {
        if fragmentedActive {
          reply := SetError(Protocol);
          return;
        }
        if |f.payload| > maxMessagePayload {
          reply := SetError(TooBig);
          return;
        }
        if f.fin {
          if f.opcode == Text && !f.rsv1 {
            var valid := Utf8.ValidUtf8(f.payload);
            if !valid {
              reply := SetError(BadUtf8);
              return;
            }
          }
          return Complete(Message(f.opcode, f.payload, f.rsv1));
        }
        fragmentedActive, fragmentedOpcode := true, f.opcode;
        fragmentedPayload, fragmentedCompressed := f.payload, f.rsv1;
        return Incomplete;
      }
      if f.opcode != Continuation || !fragmentedActive {
        reply := SetError(Protocol);
        return;
      }
      if |fragmentedPayload| + |f.payload| > maxMessagePayload {
        reply := SetError(TooBig);
        return;
      }
      fragmentedPayload := fragmentedPayload + f.payload;
      if !f.fin {
        return Incomplete;
      }
      if fragmentedOpcode == Text && !fragmentedCompressed {
        var valid := Utf8.ValidUtf8(fragmentedPayload);
        if !valid {
          reply := SetError(BadUtf8);
          return;
        }
      }
      reply := Complete(Message(fragmentedOpcode, fragmentedPayload, fragmentedCompressed));
      Reset();
    }
  }

  /** What holds in every reachable state, also after errors. */
  predicate Bounded(max: nat, s: Assembly) {
    |s.payload| <= max && (s.active ==> IsData(s.opcode)) && (!s.active ==> s == IDLE)
  }

  function StateAfter(max: nat, s: Assembly, frames: seq<Frame>): Assembly
    decreases |frames|
  {
    if frames == [] then s else StateAfter(max, After(max, s, frames[0]).0, frames[1..])
  }

  lemma {:induction false} AlwaysBounded(max: nat, s: Assembly, frames: seq<Frame>)
    requires Bounded(max, s)
    ensures Bounded(max, StateAfter(max, s, frames))
    decreases |frames|
  {
    if frames != [] {
      AlwaysBounded(max, After(max, s, frames[0]).0, frames[1..]);
    }
  }

  /** What a connection that gives up at the first error receives. */
  datatype Delivery = Delivery(state: Assembly, messages: seq<Message>, error: Option<MessageError>)

  function Assemble(max: nat, s: Assembly, frames: seq<Frame>): Delivery
    decreases |frames|
  {
    if frames == [] then Delivery(s, [], None)
    else
      var (t, reply) := After(max, s, frames[0]);
      if reply.Error? then Delivery(t, [], Some(reply.error))
      else
        var d := Assemble(max, t, frames[1..]);
        if reply.Complete? then d.(messages := [reply.message] + d.messages) else d
  }

  function DataOf(frames: seq<Frame>): seq<Frame> {
    if frames == [] then []
    else if IsControl(frames[0].opcode) then DataOf(frames[1..])
    else [frames[0]] + DataOf(frames[1..])
  }

  predicate ControlsValid(frames: seq<Frame>) {
    forall f | f in frames && IsControl(f.opcode) :: ControlReply(f) == Control
  }

  /** Valid control frames may stand anywhere: they change neither the messages nor the outcome. */
  lemma {:induction false} ControlsTransparent(max: nat, s: Assembly, frames: seq<Frame>)
    requires ControlsValid(frames)
    ensures Assemble(max, s, frames) == Assemble(max, s, DataOf(frames))
    decreases |frames|
  {
    hide ControlReply, Readable;
    if frames != [] {
      var f := frames[0];
      assert f in frames;
      ControlsTransparent(max, After(max, s, f).0, frames[1..]);
      if !IsControl(f.opcode) {
        var kept := [f] + DataOf(frames[1..]);
        assert kept[0] == f && kept[1..] == DataOf(frames[1..]);
      }
    }
  }

  function Payloads(frames: seq<Frame>): Bytes {
    if frames == [] then [] else Payloads(frames[..|frames| - 1]) + frames[|frames| - 1].payload
  }

  /** `frames` cut the message into fragments, the last one marked final. */
  predicate Cuts(frames: seq<Frame>, m: Message) {
    && frames != [] && Opens(frames, m) && Payloads(frames) == m.payload
    && forall i | 0 <= i < |frames| :: frames[i].fin <==> i == |frames| - 1
  }

  /** The first frame names the kind of the message, the others continue it. */
  predicate Opens(frames: seq<Frame>, m: Message) {
    && IsData(m.opcode)
    && (frames != [] ==> frames[0].opcode == m.opcode && frames[0].rsv1 == m.compressed)
    && forall i | 1 <= i < |frames| :: frames[i].opcode == Continuation
  }

  predicate Unfinished(frames: seq<Frame>) { forall f | f in frames :: !f.fin }

  /** The state after the fragments `open` of a message that is not finished. */
  predicate Holds(s: Assembly, open: seq<Frame>) {
    && s.active == (open != [])
    && (s.active ==> Opens(open, Message(s.opcode, s.payload, s.compressed)))
    && s.payload == Payloads(open) && Unfinished(open)
    && (!s.active ==> s == IDLE)
  }

  lemma PayloadsSnoc(frames: seq<Frame>, f: Frame)
    ensures Payloads(frames + [f]) == Payloads(frames) + f.payload
  {
    assert (frames + [f])[..|frames|] == frames;
  }

  lemma {:induction false} PayloadsGrow(a: seq<Frame>, b: seq<Frame>)
    ensures |Payloads(a)| <= |Payloads(a + b)|
    decreases |b|
  {
    if b == [] {
      assert a + b == a;
    } else {
      PayloadsGrow(a, b[..|b| - 1]);
      assert a + b == (a + b[..|b| - 1]) + [b[|b| - 1]];
      PayloadsSnoc(a + b[..|b| - 1], b[|b| - 1]);
    }
  }

  /** A fragment that does not end the message and still fits is collected. */
  lemma Collected(max: nat, s: Assembly, open: seq<Frame>, f: Frame, m: Message)
    requires Holds(s, open) && Opens(open + [f], m) && !f.fin
    requires s.active ==> s.opcode == m.opcode && s.compressed == m.compressed
    ensures |Payloads(open + [f])| <= max ==>
              After(max, s, f).1 == Incomplete && Holds(After(max, s, f).0, open + [f])
              && After(max, s, f).0.opcode == m.opcode && After(max, s, f).0.compressed == m.compressed
    ensures |Payloads(open + [f])| > max ==> After(max, s, f) == (s, Error(TooBig))
  {
    PayloadsSnoc(open, f);
    assert (open + [f])[|open|] == f;
    if open == [] {
      assert Payloads(open) == [];
    } else {
      assert (open + [f])[0] == open[0];
    }
  }

  /** The final fragment. */
  lemma Finished(max: nat, s: Assembly, open: seq<Frame>, f: Frame, m: Message)
    requires Holds(s, open) && Opens(open + [f], m) && f.fin && Payloads(open + [f]) == m.payload
    requires s.active ==> s.opcode == m.opcode && s.compressed == m.compressed
    ensures After(max, s, f).1
            == (if |m.payload| > max then Error(TooBig) else if Readable(m) then Complete(m) else Error(BadUtf8))
    ensures After(max, s, f).1.Complete? ==> After(max, s, f).0 == IDLE
  {
    PayloadsSnoc(open, f);
    assert (open + [f])[|open|] == f;
    if open == [] {
      assert Payloads(open) == [] && m.payload == f.payload;
    } else {
      assert (open + [f])[0] == open[0];
    }
  }

  /** One message, whatever its cut: delivered whole when it fits and reads as text must, else the first error. */
  ghost function Outcome(max: nat, m: Message): (Option<MessageError>) {
    if |m.payload| > max then Some(TooBig)
    else if m.opcode == Text && !m.compressed && !Utf8.IsUtf8(m.payload) then Some(BadUtf8)
    else None
  }

  lemma ReadableIs(m: Message)
    ensures Readable(m) <==> (m.opcode == Text && !m.compressed ==> Utf8.IsUtf8(m.payload))
  {
    Utf8.AcceptsIffUtf8(m.payload);
  }

  lemma {:induction false} RestDelivered(max: nat, s: Assembly, open: seq<Frame>, rest: seq<Frame>, m: Message)
    requires Holds(s, open) && Cuts(open + rest, m) && rest != []
    requires s.active ==> s.opcode == m.opcode && s.compressed == m.compressed
    ensures var d := Assemble(max, s, rest);
            && d.error == Outcome(max, m)
            && (d.error.Some? ==> d.messages == [])
            && (d.error.None? ==> d.messages == [m] && d.state == IDLE)
    decreases |rest|
  {
    ReadableIs(m);
    hide Readable, After, Payloads, Utf8.IsUtf8;
    var f := rest[0];
    assert (open + rest)[|open|] == f;
    assert open + [f] == (open + rest)[..|open| + 1];
    assert Opens(open + [f], m);
    if |rest| == 1 {
      assert rest == [f];
      Finished(max, s, open, f, m);
      assert rest[1..] == [];
    } else {
      Collected(max, s, open, f, m);
      assert (open + [f]) + rest[1..] == open + rest;
      PayloadsGrow(open + [f], rest[1..]);
      if |Payloads(open + [f])| <= max {
        RestDelivered(max, After(max, s, f).0, open + [f], rest[1..], m);
      }
    }
  }

  /**
   * Cutting a message into any fragments, with any valid control frames in between, delivers
   * exactly that message when it is within the limit and uncompressed text is UTF-8; otherwise
   * nothing is delivered and the error says which of the two failed.
   */
  lemma FragmentationTransparent(max: nat, frames: seq<Frame>, m: Message)
    requires ControlsValid(frames) && Cuts(DataOf(frames), m)
    ensures var d := Assemble(max, IDLE, frames);
            && (d == Delivery(IDLE, [m], None) <==>
                |m.payload| <= max && (m.opcode == Text && !m.compressed ==> Utf8.IsUtf8(m.payload)))
            && (|m.payload| > max ==> d.messages == [] && d.error == Some(TooBig))
            && (d.error == Some(BadUtf8) <==>
               |m.payload| <= max && m.opcode == Text && !m.compressed && !Utf8.IsUtf8(m.payload))
  {
    ControlsTransparent(max, IDLE, frames);
    var cut := DataOf(frames);
    assert [] + cut == cut;
    assert Payloads([]) == [];
    RestDelivered(max, IDLE, [], cut, m);
    Utf8.AcceptsIffUtf8(m.payload);
  }

  function Flatten(groups: seq<seq<Frame>>): seq<Frame> {
    if groups == [] then [] else groups[0] + Flatten(groups[1..])
  }

  lemma {:induction false} AssembleAppend(max: nat, s: Assembly, a: seq<Frame>, b: seq<Frame>)
    requires Assemble(max, s, a).error.None?
    ensures var d, e := Assemble(max, s, a), Assemble(max, Assemble(max, s, a).state, b);
            Assemble(max, s, a + b) == e.(messages := d.messages + e.messages)
    decreases |a|
  {
    hide After;
    if a == [] {
      assert a + b == b;
    } else {
      assert (a + b)[0] == a[0] && (a + b)[1..] == a[1..] + b;
      AssembleAppend(max, After(max, s, a[0]).0, a[1..], b);
    }
  }

  /** Each group cuts the message at its place, and each message may be delivered. */
  ghost predicate AllCut(max: nat, groups: seq<seq<Frame>>, messages: seq<Message>) {
    && |groups| == |messages|
    && forall i | 0 <= i < |groups| :: Cuts(groups[i], messages[i]) && Outcome(max, messages[i]).None?
  }

  /** A stream of fragmented messages is delivered message by message. */
  lemma {:induction false} MessagesDelivered(max: nat, groups: seq<seq<Frame>>, messages: seq<Message>)
    requires AllCut(max, groups, messages)
    ensures Assemble(max, IDLE, Flatten(groups)) == Delivery(IDLE, messages, None)
    decreases |groups|
  {
    hide Cuts, Outcome;
    if groups != [] {
      OneMessage(max, groups[0], messages[0]);
      MessagesDelivered(max, groups[1..], messages[1..]);
      AssembleAppend(max, IDLE, groups[0], Flatten(groups[1..]));
      assert [messages[0]] + messages[1..] == messages;
    }
  }

  lemma OneMessage(max: nat, cut: seq<Frame>, m: Message)
    requires Cuts(cut, m) && Outcome(max, m).None?
    ensures Assemble(max, IDLE, cut) == Delivery(IDLE, [m], None)
  {
    assert [] + cut == cut;
    assert Payloads([]) == [];
    RestDelivered(max, IDLE, [], cut, m);
  }

  /** A reply to a data frame that is no error, read backwards: the frame continues what is held, or opens a message. */
  lemma Continues(max: nat, s: Assembly, open: seq<Frame>, f: Frame) returns (m: Message)
    requires Holds(s, open) && !IsControl(f.opcode) && !After(max, s, f).1.Error?
    ensures Opens(open + [f], m) && m.payload == Payloads(open + [f]) && |m.payload| <= max
    ensures f.fin <==> After(max, s, f).1.Complete?
    ensures s.active ==> s.opcode == m.opcode && s.compressed == m.compressed
  {
    PayloadsSnoc(open, f);
    hide Readable;
    if s.active {
      m := Message(s.opcode, Payloads(open + [f]), s.compressed);
      assert (open + [f])[0] == open[0] && (open + [f])[|open|] == f;
    } else {
      m := Message(f.opcode, Payloads(open + [f]), f.rsv1);
      assert open + [f] == [f] && Payloads(open) == [];
    }
  }

  /** Such a frame that is not final was collected. */
  lemma ExplainedFragment(max: nat, s: Assembly, open: seq<Frame>, f: Frame)
    requires Holds(s, open) && !IsControl(f.opcode) && After(max, s, f).1.Incomplete?
    ensures Holds(After(max, s, f).0, open + [f])
  {
    hide Holds, Opens, After;
    var m := Continues(max, s, open, f);
    DataReply(max, s, f);
    Collected(max, s, open, f, m);
  }

  /** And a final one handed the message out. */
  lemma ExplainedMessage(max: nat, s: Assembly, open: seq<Frame>, f: Frame)
    requires Holds(s, open) && !IsControl(f.opcode) && After(max, s, f).1.Complete?
    ensures var (t, reply) := After(max, s, f);
            t == IDLE && Cuts(open + [f], reply.message) && Outcome(max, reply.message).None?
  {
    var m := Continues(max, s, open, f);
    Finished(max, s, open, f, m);
    NotFinal(s, open);
    ReadableIs(m);
    hide Holds, Opens, After, Payloads, Readable, Utf8.IsUtf8;
    var whole := open + [f];
    assert whole[|open|] == f;
    assert forall i | 0 <= i < |open| :: whole[i] == open[i] && open[i] in open;
  }

  lemma NotFinal(s: Assembly, open: seq<Frame>)
    requires Holds(s, open)
    ensures Unfinished(open)
  {
  }

  lemma DataReply(max: nat, s: Assembly, f: Frame)
    requires !IsControl(f.opcode)
    ensures !After(max, s, f).1.Control?
  {
    hide Readable;
  }

  /**
   * Conversely: as long as there is no error, the data frames received are the delivered messages
   * cut into consecutive groups, followed by the fragments still held; nothing is lost or invented.
   */
  lemma {:induction false} DeliveredExplained(max: nat, s: Assembly, open: seq<Frame>, frames: seq<Frame>)
    returns (groups: seq<seq<Frame>>, held: seq<Frame>)
    requires Holds(s, open) && Assemble(max, s, frames).error.None?
    ensures Flatten(groups) + held == open + DataOf(frames)
    ensures AllCut(max, groups, Assemble(max, s, frames).messages)
    ensures Holds(Assemble(max, s, frames).state, held)
    decreases |frames|
  {
    hide Holds, Cuts, Outcome, After, Flatten, AllCut;
    NoGroups(max);
    if frames == [] {
      groups, held := [], open;
      assert [] + open == open + [];
    } else {
      var f := frames[0];
      var (t, reply) := After(max, s, f);
      if IsControl(f.opcode) {
        ControlKeeps(max, s, f);
        groups, held := DeliveredExplained(max, s, open, frames[1..]);
      } else {
        DataReply(max, s, f);
        var rest := DataOf(frames[1..]);
        assert open + ([f] + rest) == (open + [f]) + rest;
        if reply.Incomplete? {
          ExplainedFragment(max, s, open, f);
          groups, held := DeliveredExplained(max, t, open + [f], frames[1..]);
        } else {
          ExplainedMessage(max, s, open, f);
          IdleHolds();
          var more;
          more, held := DeliveredExplained(max, t, [], frames[1..]);
          groups := [open + [f]] + more;
          OneMoreGroup(max, open + [f], reply.message, more, Assemble(max, t, frames[1..]).messages);
          Reassociate(open + [f], Flatten(more), held);
          assert [] + rest == rest;
        }
      }
    }
  }

  lemma NoGroups(max: nat)
    ensures AllCut(max, [], []) && Flatten([]) == []
  {
  }

  lemma OneMoreGroup(max: nat, group: seq<Frame>, m: Message, groups: seq<seq<Frame>>, messages: seq<Message>)
    requires Cuts(group, m) && Outcome(max, m).None? && AllCut(max, groups, messages)
    ensures AllCut(max, [group] + groups, [m] + messages) && Flatten([group] + groups) == group + Flatten(groups)
  {
    hide Cuts, Outcome;
    assert ([group] + groups)[1..] == groups;
  }

  lemma ControlKeeps(max: nat, s: Assembly, f: Frame)
    requires IsControl(f.opcode)
    ensures After(max, s, f).0 == s && !After(max, s, f).1.Complete?
  {
  }

  lemma IdleHolds()
    ensures Holds(IDLE, [])
  {
    assert Payloads([]) == [];
  }

  /** What the frames of one message add up to. */
  function Whole(frames: seq<Frame>): Message
    requires frames != []
  {
    Message(frames[0].opcode, Payloads(frames), frames[0].rsv1)
  }

  /**
   * The reply to a data frame while the fragments `open` are held, and the state behind it. A frame that
   * starts a message inside another or continues none is a protocol error; then the size is checked, and
   * with the final frame the text.
   */
  lemma RepliesAre(max: nat, s: Assembly, open: seq<Frame>, f: Frame)
    requires Holds(s, open) && f.opcode in {Text, Binary, Continuation}
    ensures var (t, reply) := After(max, s, f);
            var frames := open + [f];
            if (f.opcode == Continuation) != (open != []) then reply == Error(Protocol) && t == s
            else if |Payloads(frames)| > max then reply == Error(TooBig) && t == s
            else if !f.fin then reply == Incomplete && Holds(t, frames)
            else if Whole(frames).opcode == Text && !Whole(frames).compressed && !Utf8.IsUtf8(Payloads(frames)) then
              reply == Error(BadUtf8) && t.payload == (if open == [] then [] else Payloads(frames))
            else reply == Complete(Whole(frames)) && t == IDLE
  {
    PayloadsSnoc(open, f);
    ReadableIs(Whole(open + [f]));
    FragmentHeld(max, s, open, f);
    if open == [] {
      FirstReply(max, s, f);
      assert [] + [f] == [f] && Payloads([]) == [] && [] + f.payload == f.payload;
      hide Payloads, Readable, Utf8.IsUtf8, After, Holds;
      assert open + [f] == [f];
    } else {
      HeldState(s, open);
      assert (open + [f])[0] == open[0];
      hide Payloads, Readable, Utf8.IsUtf8, Holds;
    }
  }

  lemma HeldState(s: Assembly, open: seq<Frame>)
    requires Holds(s, open) && open != []
    ensures s == Assembly(true, open[0].opcode, Payloads(open), open[0].rsv1) && IsData(s.opcode)
  {
    hide Payloads;
  }

  lemma FirstReply(max: nat, s: Assembly, f: Frame)
    requires Holds(s, []) && f.opcode in {Text, Binary, Continuation}
    ensures var m := Message(f.opcode, f.payload, f.rsv1);
            var (t, reply) := After(max, s, f);
            if f.opcode == Continuation then reply == Error(Protocol) && t == s
            else if |f.payload| > max then reply == Error(TooBig) && t == s
            else if !f.fin then reply == Incomplete
            else t == IDLE && reply == if Readable(m) then Complete(m) else Error(BadUtf8)
  {
    hide Readable, Payloads;
  }

  lemma FragmentHeld(max: nat, s: Assembly, open: seq<Frame>, f: Frame)
    requires Holds(s, open) && !IsControl(f.opcode)
    ensures After(max, s, f).1.Incomplete? ==> Holds(After(max, s, f).0, open + [f])
  {
    if After(max, s, f).1.Incomplete? {
      ExplainedFragment(max, s, open, f);
    }
  }
}
