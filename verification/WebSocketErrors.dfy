/**
 * A message assembler that is fed on after an error (src/websocket/websocket_frame.cpp:292-368). Both
 * callers in the source give up at the first error; this is what they avoid.
 */
module WebSocketErrors {
  import opened Bytes
  import opened WebSocketFrames
  import opened WebSocketMessages
  import Utf8

  function Fragment(fin: bool, op: Opcode, payload: Bytes): Frame { Frame(fin, false, false, false, op, payload) }

  /** What an assembler that is fed on after errors hands out. */
  function Messages(max: nat, s: Assembly, frames: seq<Frame>): seq<Message>
    decreases |frames|
  {
    if frames == [] then []
    else
      var (t, reply) := After(max, s, frames[0]);
      (if reply.Complete? then [reply.message] else []) + Messages(max, t, frames[1..])
  }

  /** `part` are some of the frames, in their order. */
  predicate Within(part: seq<Frame>, frames: seq<Frame>)
    decreases |frames|
  {
    || part == []
    || (frames != [] &&
        var init := frames[..|frames| - 1];
        Within(part, init)
        || (part[|part| - 1] == frames[|frames| - 1] && Within(part[..|part| - 1], init)))
  }

  /** `part` opens the message, continues it and adds up to it. */
  predicate Spells(part: seq<Frame>, m: Message) {
    part != [] && Opens(part, m) && Payloads(part) == m.payload
  }

  /** The message was sent in some of these frames. */
  ghost predicate MadeOf(m: Message, frames: seq<Frame>) {
    exists part: seq<Frame> :: Within(part, frames) && Spells(part, m)
  }

  /** What is held was sent in `part`. */
  predicate Carries(s: Assembly, part: seq<Frame>) {
    if s.active then Spells(part, Message(s.opcode, s.payload, s.compressed)) else s == IDLE && part == []
  }

  lemma {:induction false} WithinMore(part: seq<Frame>, frames: seq<Frame>, more: seq<Frame>)
    requires Within(part, frames)
    ensures Within(part, frames + more)
    decreases |more|
  {
    if more == [] {
      assert frames + more == frames;
    } else {
      var init := more[..|more| - 1];
      WithinMore(part, frames, init);
      assert (frames + more)[..|frames| + |init|] == frames + init;
    }
  }

  lemma WithinSnoc(part: seq<Frame>, frames: seq<Frame>, f: Frame)
    requires Within(part, frames)
    ensures Within(part, frames + [f]) && Within(part + [f], frames + [f])
  {
    assert (frames + [f])[..|frames|] == frames && (part + [f])[..|part|] == part;
  }

  /** One frame, refused or not: what is held and what is handed out was sent. */
  lemma CarriesOn(max: nat, s: Assembly, part: seq<Frame>, f: Frame)
    requires Carries(s, part)
    ensures var (t, reply) := After(max, s, f);
            && (Carries(t, part) || Carries(t, part + [f]) || Carries(t, []))
            && (reply.Complete? ==> Spells(part + [f], reply.message))
  {
    hide Utf8.Accepts, ControlReply;
    if IsControl(f.opcode) {
      ControlKeeps(max, s, f);
    }
    PayloadsSnoc(part, f);
    var longer := part + [f];
    assert longer[|part|] == f;
    assert forall i | 0 <= i < |part| :: longer[i] == part[i];
    assert Payloads([]) == [] && [] + f.payload == f.payload;
    hide Payloads;
    if s.active {
      assert longer[0] == part[0];
    }
  }

  lemma {:induction false} MessagesMade(max: nat, s: Assembly, part: seq<Frame>, done: seq<Frame>, frames: seq<Frame>)
    requires Carries(s, part) && Within(part, done)
    ensures forall m | m in Messages(max, s, frames) :: MadeOf(m, done + frames)
    decreases |frames|
  {
    hide After, Spells, Carries, Within;
    if frames != [] {
      var f := frames[0];
      var (t, reply) := After(max, s, f);
      CarriesOn(max, s, part, f);
      WithinSnoc(part, done, f);
      NoneWithin(done + [f]);
      assert (done + [f]) + frames[1..] == done + frames;
      var kept := if Carries(t, part) then part else if Carries(t, part + [f]) then part + [f] else [];
      MessagesMade(max, t, kept, done + [f], frames[1..]);
      if reply.Complete? {
        WithinMore(part + [f], done + [f], frames[1..]);
        assert MadeOf(reply.message, done + frames);
      }
    }
  }

  lemma NoneWithin(frames: seq<Frame>)
    ensures Within([], frames)
  {
  }

  /** Some bytes within the limit complete what is held. */
  ghost predicate Completable(max: nat, s: Assembly) {
    s.active && exists more: Bytes :: Completes(max, s, more)
  }

  ghost predicate Completes(max: nat, s: Assembly, more: Bytes) {
    |s.payload + more| <= max && (s.opcode == Text && !s.compressed ==> Utf8.IsUtf8(s.payload + more))
  }

  /**
   * What is held can be completed: uncompressed text if the scan of UTF-8 can still end its last
   * character within the limit, anything else always.
   */
  predicate CanComplete(max: nat, s: Assembly) {
    s.active && (s.opcode == Text && !s.compressed ==> Utf8.CanEnd(s.payload, max - |s.payload|))
  }

  lemma CompletableIff(max: nat, s: Assembly)
    requires |s.payload| <= max
    ensures Completable(max, s) <==> CanComplete(max, s)
  {
    hide Utf8.IsUtf8, Utf8.CanEnd;
    Utf8.CanEndIff(s.payload, max - |s.payload|);
    if CanComplete(max, s) {
      if s.opcode == Text && !s.compressed {
        var more: Bytes :| |more| <= max - |s.payload| && Utf8.IsUtf8(s.payload + more);
        assert Completes(max, s, more);
      } else {
        assert Completes(max, s, []);
      }
    }
    if Completable(max, s) {
      var more: Bytes :| Completes(max, s, more);
      assert |more| <= max - |s.payload|;
    }
  }

  /** Uncompressed text that no bytes can complete stays so, and nothing is handed out any more. */
  lemma {:induction false} WedgedForever(max: nat, s: Assembly, frames: seq<Frame>)
    requires s.active && !Completable(max, s)
    ensures Messages(max, s, frames) == []
    decreases |frames|
  {
    if frames != [] {
      var f := frames[0];
      var t := After(max, s, f).0;
      Utf8.AcceptsIffUtf8(s.payload + f.payload);
      forall more: Bytes ensures !Completes(max, s.(payload := s.payload + f.payload), more) {
        Reassociate(s.payload, f.payload, more);
        assert !Completes(max, s, f.payload + more);
      }
      var none: Bytes := [];
      assert s.payload + f.payload + none == s.payload + f.payload;
      assert !Completes(max, s, f.payload);
      hide Utf8.Accepts, Utf8.IsUtf8, ControlReply;
      WedgedForever(max, t, frames[1..]);
    }
  }

  /** A refused frame neither opens nor ends a fragmented message. */
  lemma RefusedKeepsActive(max: nat, s: Assembly, f: Frame)
    requires After(max, s, f).1.Error?
    ensures After(max, s, f).0.active == s.active
  {
    hide Utf8.Accepts, ControlReply;
  }

  lemma ReachedBounded(max: nat, before: seq<Frame>)
    ensures Bounded(max, StateAfter(max, IDLE, before))
  {
    AlwaysBounded(max, IDLE, before);
  }

  /**
   * After any frames, errors among them, a frame is refused. An assembler that is fed on hands out
   * what a new one would hand out of the same frames, whatever they are, exactly when no
   * fragmented message was in progress.
   */
  lemma ContinuesAsNewIff(max: nat, before: seq<Frame>, f: Frame)
    requires After(max, StateAfter(max, IDLE, before), f).1.Error?
    ensures var s := StateAfter(max, IDLE, before);
            (forall later: seq<Frame> :: Messages(max, After(max, s, f).0, later) == Messages(max, IDLE, later))
            <==> !s.active
  {
    var s := StateAfter(max, IDLE, before);
    var t := After(max, s, f).0;
    ReachedBounded(max, before);
    RefusedKeepsActive(max, s, f);
    AlwaysBounded(max, s, [f]);
    assert StateAfter(max, s, [f]) == t;
    if s.active {
      var next := [Fragment(true, Binary, [])];
      assert next[1..] == [];
      assert Messages(max, t, next) == [];
      assert Messages(max, IDLE, next) == [Message(Binary, [], false)];
    }
  }

  /**
   * Everything handed out after the refused frame was sent in later frames, whatever they are,
   * exactly when no fragmented message was in progress, or one of uncompressed text that the scan of
   * UTF-8 sees no way to complete within the limit.
   */
  lemma CarriesOverIff(max: nat, before: seq<Frame>, f: Frame)
    requires After(max, StateAfter(max, IDLE, before), f).1.Error?
    ensures var t := After(max, StateAfter(max, IDLE, before), f).0;
            (forall later: seq<Frame>, m: Message :: m in Messages(max, t, later) ==> MadeOf(m, later))
            <==> !CanComplete(max, t)
  {
    var s := StateAfter(max, IDLE, before);
    var t := After(max, s, f).0;
    ReachedBounded(max, before);
    AlwaysBounded(max, s, [f]);
    assert StateAfter(max, s, [f]) == t;
    CompletableIff(max, t);
    hide CanComplete;
    if Completable(max, t) {
      var more: Bytes :| Completes(max, t, more);
      var last := Fragment(true, Continuation, more);
      LastCompletes(max, t, last);
      OnlyContinues(last, Message(t.opcode, t.payload + more, t.compressed));
    } else {
      forall later: seq<Frame>, m: Message | m in Messages(max, t, later) ensures MadeOf(m, later) {
        if t.active {
          WedgedForever(max, t, later);
        } else {
          NoneWithin([]);
          MessagesMade(max, t, [], [], later);
          assert [] + later == later;
        }
      }
    }
  }

  lemma LastCompletes(max: nat, s: Assembly, last: Frame)
    requires s.active && last.opcode == Continuation && last.fin && Completes(max, s, last.payload)
    ensures Messages(max, s, [last]) == [Message(s.opcode, s.payload + last.payload, s.compressed)]
  {
    Utf8.AcceptsIffUtf8(s.payload + last.payload);
    assert [last][1..] == [];
  }

  lemma WithinNone(part: seq<Frame>)
    requires part != []
    ensures !Within(part, [])
  {
  }

  /** A continuation alone spells no message. */
  lemma OnlyContinues(f: Frame, m: Message)
    requires f.opcode == Continuation
    ensures !MadeOf(m, [f])
  {
    forall part: seq<Frame> | Within(part, [f]) && part != [] ensures part == [f] {
      var only := [f];
      assert only[..|only| - 1] == [];
      WithinNone(part);
      if |part| > 1 {
        WithinNone(part[..|part| - 1]);
      }
      assert part == part[..|part| - 1] + [part[|part| - 1]];
    }
  }

  /** Four bytes in three fragments, the second of which brings it beyond a limit of two bytes. */
  function InThree(a: byte, b: byte): (Frame, Frame, Frame) {
    (Fragment(false, Binary, [a]), Fragment(false, Continuation, [b, b]), Fragment(true, Continuation, [b]))
  }

  lemma FourCut(a: byte, b: byte)
    ensures var (first, second, last) := InThree(a, b);
            Cuts([first, second, last], Message(Binary, [a, b, b, b], false))
  {
    var (first, second, last) := InThree(a, b);
    PayloadsSnoc([], first);
    PayloadsSnoc([first], second);
    PayloadsSnoc([first, second], last);
    assert [] + [first] == [first] && [first] + [second] == [first, second];
    assert [first, second] + [last] == [first, second, last];
    assert Payloads([]) == [];
    assert [] + [a] == [a] && [a] + [b, b] == [a, b, b] && [a, b, b] + [b] == [a, b, b, b];
    hide Payloads;
  }

  /** Why a connection must give up: consuming on after an error can complete a message nobody sent. */
  lemma ContinuingCorrupts(a: byte, b: byte)
    ensures var (first, second, last) := InThree(a, b);
            && Cuts([first, second, last], Message(Binary, [a, b, b, b], false))
            && After(2, IDLE, first).1 == Incomplete
            && After(2, After(2, IDLE, first).0, second).1 == Error(TooBig)
            && After(2, After(2, After(2, IDLE, first).0, second).0, last).1 == Complete(Message(Binary, [a, b], false))
  {
    FourCut(a, b);
    hide Cuts;
    var (first, second, last) := InThree(a, b);
    var one := After(2, IDLE, first).0;
    assert one == Assembly(true, Binary, [a], false);
    assert After(2, one, second).0 == one;
    assert [a] + [b] == [a, b];
    assert Readable(Message(Binary, [a, b], false));
  }
}
