/**
 * What every incremental decoder of the library has in common: a step function over a state and
 * the unread bytes. A decoder does not care how TCP cuts its input as soon as each step that is
 * enabled on some bytes has the same effect on every extension of those bytes.
 */
module Incremental {
  import opened Bytes

  /** Wait: more bytes are needed. Advance: go on. Halt: the decoder has reached its last state. */
  datatype Outcome<S> =
    | Wait
    | Advance(next: S, used: nat)
    | Halt(next: S, used: nat)

  type Step<!S> = (S, Bytes) -> Outcome<S>

  /** A state together with the bytes it has not consumed. */
  datatype Cursor<S> = Cursor(state: S, unread: Bytes)

  /** Steps until the decoder waits or halts. */
  function Run<S>(step: Step<S>, c: Cursor<S>): Cursor<S>
    decreases |c.unread|
  {
    var o := step(c.state, c.unread);
    if o.Wait? || o.used > |c.unread| then c
    else if o.Halt? || o.used == 0 then Cursor(o.next, c.unread[o.used..])
    else Run(step, Cursor(o.next, c.unread[o.used..]))
  }

  lemma RunTurn<S>(step: Step<S>, s: S, b: Bytes)
    requires var o := step(s, b); !o.Wait? && o.used <= |b| && (o.Advance? ==> o.used > 0)
    ensures var o := step(s, b);
            var c := Cursor(o.next, b[o.used..]);
            Run(step, Cursor(s, b)) == if o.Halt? then c else Run(step, c)
  {
  }

  /** At most `fuel` steps, then a pause. */
  function RunAtMost<S>(step: Step<S>, c: Cursor<S>, fuel: nat): Cursor<S>
    decreases fuel
  {
    var o := step(c.state, c.unread);
    if fuel == 0 || o.Wait? || o.used > |c.unread| then c
    else if o.Halt? || o.used == 0 then Cursor(o.next, c.unread[o.used..])
    else RunAtMost(step, Cursor(o.next, c.unread[o.used..]), fuel - 1)
  }

  function Feed<S>(c: Cursor<S>, data: Bytes): Cursor<S> {
    Cursor(c.state, c.unread + data)
  }

  /** A finished state consumes nothing more, whatever arrives. */
  ghost predicate Parked<S>(step: Step<S>, s: S, b: Bytes) {
    var o := step(s, b);
    o.Wait? || o == Halt(s, 0)
  }

  /** The step of `s` on `b` is well formed and survives the extension of `b` to `b + e`. */
  ghost predicate StableAt<S>(step: Step<S>, s: S, b: Bytes, e: Bytes) {
    var o := step(s, b);
    && (o.Advance? ==> 0 < o.used <= |b| && step(s, b + e) == o)
    && (o.Halt? ==> o.used <= |b| && step(s, b + e) == o && Parked(step, o.next, b[o.used..] + e))
  }

  /**
   * `good` singles out the states and complete inputs (unread now plus still to come) on which
   * the decoder is stable; it must be kept by the steps.
   */
  ghost predicate Stable<S(!new)>(step: Step<S>, good: (S, Bytes) -> bool) {
    && (forall s, b, e :: good(s, b + e) ==> StableAt(step, s, b, e))
    && (forall s, b, e :: good(s, b + e) && !step(s, b).Wait? && step(s, b).used <= |b| ==>
          good(step(s, b).next, b[step(s, b).used..] + e))
  }

  /** Running early and then feeding the rest is the same as feeding everything and then running. */
  lemma {:induction false} RunThenFeed<S(!new)>(step: Step<S>, good: (S, Bytes) -> bool, c: Cursor<S>, e: Bytes)
    requires Stable(step, good)
    requires good(c.state, c.unread + e)
    ensures var d := Run(step, c); good(d.state, d.unread + e)
    ensures Run(step, Feed(Run(step, c), e)) == Run(step, Feed(c, e))
    decreases |c.unread|
  {
    var o := step(c.state, c.unread);
    assert StableAt(step, c.state, c.unread, e);
    if !o.Wait? {
      var rest := c.unread[o.used..];
      assert (c.unread + e)[o.used..] == rest + e;
      if o.Advance? {
        RunThenFeed(step, good, Cursor(o.next, rest), e);
      } else {
        assert (rest + e)[0..] == rest + e;
      }
    }
  }

  /** The same after a pause in the middle of a run. */
  lemma {:induction false} PauseThenFeed<S(!new)>(step: Step<S>, good: (S, Bytes) -> bool, c: Cursor<S>, fuel: nat,
      e: Bytes)
    requires Stable(step, good)
    requires good(c.state, c.unread + e)
    ensures var d := RunAtMost(step, c, fuel); good(d.state, d.unread + e)
    ensures Run(step, Feed(RunAtMost(step, c, fuel), e)) == Run(step, Feed(c, e))
    decreases fuel
  {
    var o := step(c.state, c.unread);
    assert StableAt(step, c.state, c.unread, e);
    if fuel != 0 && !o.Wait? {
      var rest := c.unread[o.used..];
      assert (c.unread + e)[o.used..] == rest + e;
      if o.Advance? {
        PauseThenFeed(step, good, Cursor(o.next, rest), fuel - 1, e);
      } else {
        assert (rest + e)[0..] == rest + e;
      }
    }
  }

  /** A decoder that runs after every read. */
  function RunChunks<S>(step: Step<S>, c: Cursor<S>, chunks: seq<Bytes>): Cursor<S>
    decreases |chunks|
  {
    if chunks == [] then c else RunChunks(step, Run(step, Feed(c, chunks[0])), chunks[1..])
  }

  /** Any cutting of the same bytes ends in the same state with the same unread bytes. */
  lemma {:induction false} SplitIndependent<S(!new)>(step: Step<S>, good: (S, Bytes) -> bool, c: Cursor<S>,
      chunks: seq<Bytes>)
    requires Stable(step, good)
    requires chunks != []
    requires good(c.state, c.unread + Concat(chunks))
    ensures RunChunks(step, c, chunks) == Run(step, Feed(c, Concat(chunks)))
    decreases |chunks|
  {
    var rest := Concat(chunks[1..]);
    var fed := Feed(c, chunks[0]);
    assert Concat(chunks) == chunks[0] + rest;
    assert c.unread + Concat(chunks) == fed.unread + rest;
    RunThenFeed(step, good, fed, rest);
    if chunks[1..] == [] {
      assert fed.unread + rest == fed.unread;
    } else {
      SplitIndependent(step, good, Run(step, fed), chunks[1..]);
    }
  }

  /** What a connection does to a decoder that may be paused: bytes arrive, or it gets some steps. */
  datatype Event = Arrive(data: Bytes) | Poll(fuel: nat)

  function Drive<S>(step: Step<S>, c: Cursor<S>, events: seq<Event>): Cursor<S>
    decreases |events|
  {
    if events == [] then c
    else match events[0]
      case Arrive(data) => Drive(step, Feed(c, data), events[1..])
      case Poll(fuel) => Drive(step, RunAtMost(step, c, fuel), events[1..])
  }

  function Arrived(events: seq<Event>): Bytes {
    if events == [] then []
    else match events[0]
      case Arrive(data) => data + Arrived(events[1..])
      case Poll(_) => Arrived(events[1..])
  }

  /** Any interleaving of arrivals, pauses and resumptions leads to the same run in the end. */
  lemma {:induction false} ScheduleIndependent<S(!new)>(step: Step<S>, good: (S, Bytes) -> bool, c: Cursor<S>,
      events: seq<Event>)
    requires Stable(step, good)
    requires good(c.state, c.unread + Arrived(events))
    ensures Run(step, Drive(step, c, events)) == Run(step, Feed(c, Arrived(events)))
    decreases |events|
  {
    if events == [] {
      assert c.unread + [] == c.unread;
    } else {
      var rest := Arrived(events[1..]);
      match events[0]
      case Arrive(data) =>
        assert c.unread + (data + rest) == (c.unread + data) + rest;
        ScheduleIndependent(step, good, Feed(c, data), events[1..]);
      case Poll(fuel) =>
        PauseThenFeed(step, good, c, fuel, rest);
        ScheduleIndependent(step, good, RunAtMost(step, c, fuel), events[1..]);
    }
  }
}
