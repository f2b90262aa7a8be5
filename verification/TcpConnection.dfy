/**
 * The output side of src/net/tcp_connection.cpp: a byte queue in front of a socket that accepts as
 * much as it likes.
 */
module TcpOutput {
  import opened Bytes
  import opened NetBuffer

  datatype State = Connected | Disconnecting | Disconnected

  /** What ::write answers: some bytes taken, try again later, the peer is gone, or another error. */
  datatype Outcome = Wrote(n: nat) | Again | Gone | OtherError

  /** The connection as its own fields and the socket show it; `wire` is what the socket has accepted. */
  datatype Connection = Connection(state: State, writing: bool, output: Bytes, wire: Bytes, halfClosed: bool)

  function Taken(o: Outcome, len: nat): (n: nat)
    ensures n <= len
  {
    if !o.Wrote? then 0 else if o.n <= len then o.n else len
  }

  /** A half-closed socket takes no more bytes. */
  function Answer(c: Connection, o: Outcome): Outcome { if c.halfClosed then Gone else o }

  predicate DirectWrite(c: Connection) { !c.writing && c.output == [] }

  /** The message is neither written nor kept. */
  predicate Faults(c: Connection, outcome: Outcome) { DirectWrite(c) && Answer(c, outcome).Gone? }

  function AfterSend(c: Connection, data: Bytes, outcome: Outcome): Connection {
    if c.state == Disconnected || Faults(c, outcome) then c
    else
      var n := if DirectWrite(c) then Taken(outcome, |data|) else 0;
      var rest := data[n..];
      c.(wire := c.wire + data[..n], output := c.output + rest, writing := c.writing || rest != [])
  }

  function AfterShutdownInLoop(c: Connection): Connection { if c.writing then c else c.(halfClosed := true) }

  function AfterWritable(c: Connection, outcome: Outcome): Connection {
    if !c.writing then c
    else
      var n := Taken(Answer(c, outcome), |c.output|);
      if n == 0 then c
      else
        var d := c.(wire := c.wire + c.output[..n], output := c.output[n..], writing := n < |c.output|);
        if d.writing || c.state != Disconnecting then d else AfterShutdownInLoop(d)
  }

  /** A send in terms of what the direct attempt took. */
  lemma SendCases(c: Connection, data: Bytes, outcome: Outcome, n: nat, fault: bool)
    requires c.state != Disconnected && n <= |data|
    requires if DirectWrite(c) then fault == Answer(c, outcome).Gone?
             && n == (if fault then 0 else Taken(outcome, |data|))
             else n == 0 && !fault
    ensures AfterSend(c, data, outcome) ==
            if fault then c
            else c.(wire := c.wire + data[..n], output := c.output + data[n..], writing := c.writing || n < |data|)
  {
  }

  class TcpConnection {
    var state: State
    var writing: bool
    const outputBuffer: Buffer
    var wire: Bytes
    var halfClosed: bool
    const highWaterMark: nat

    ghost predicate Valid()
      reads this, outputBuffer, outputBuffer.storage
    {
      outputBuffer.Valid()
    }

    function View(): Connection
      reads this, outputBuffer, outputBuffer.storage
      requires Valid()
    {
      Connection(state, writing, outputBuffer.Contents(), wire, halfClosed)
    }

    constructor (highWaterMark: nat)
      ensures Valid() && fresh(outputBuffer) && fresh(outputBuffer.storage)
      ensures View() == Connection(Connected, false, [], [], false) && this.highWaterMark == highWaterMark
    {
      state, writing, wire, halfClosed := Connected, false, [], false;
      this.highWaterMark := highWaterMark;
      outputBuffer := new Buffer(INITIAL_SIZE);
    }

    /** send_raw_in_loop; reports whether the write-complete and the high-water callbacks are queued. */
    method SendRawInLoop(data: Bytes, outcome: Outcome) returns (complete: bool, high: bool)
      requires Valid()
      modifies this, outputBuffer, outputBuffer.storage
      ensures Valid() && (outputBuffer.storage == old(outputBuffer.storage) || fresh(outputBuffer.storage))
      ensures View() == AfterSend(old(View()), data, outcome)
      ensures high == (|old(View()).output| < highWaterMark <= |View().output|)
      ensures complete <==>
              && old(state) != Disconnected && DirectWrite(old(View())) && Answer(old(View()), outcome).Wrote?
              && View().wire == old(View()).wire + data
    {
      complete, high := false, false;
      if state == Disconnected {
        return;
      }
      ghost var before := View();
      var written, fault := 0, false;
      if !writing && outputBuffer.ReadableBytes() == 0 {
        written, fault, complete := WriteDirectly(data, outcome);
      }
      SendCases(before, data, outcome, written, fault);
      hide AfterSend, Answer, Taken, DirectWrite;
      assert written == 0 ==> before.wire + data[..written] == before.wire;
      assert written == |data| ==> before.output + data[written..] == before.output;
      var remaining := data[written..];
      if !fault && |remaining| > 0 {
        var oldLen := outputBuffer.ReadableBytes();
        high := oldLen + |remaining| >= highWaterMark && oldLen < highWaterMark;
        outputBuffer.Append(remaining);
        if !writing {
          writing := true;
        }
      }
    }

    /** The attempt of send_raw_in_loop to write past the empty buffer. */
    method WriteDirectly(data: Bytes, outcome: Outcome) returns (written: nat, fault: bool, complete: bool)
      requires Valid()
      modifies this`wire
      ensures Valid() && written <= |data|
      ensures fault == Answer(old(View()), outcome).Gone?
      ensures written == (if fault then 0 else Taken(outcome, |data|)) && wire == old(wire) + data[..written]
      ensures complete <==> Answer(old(View()), outcome).Wrote? && written == |data|
    {
      written, fault, complete := 0, false, false;
      var answer := Answer(View(), outcome);
      if answer.Wrote? {
        written := Taken(answer, |data|);
        wire := wire + data[..written];
        complete := written == |data|;
      } else {
        fault := answer == Gone;
      }
    }

    method ShutdownInLoop()
      requires Valid()
      modifies this`halfClosed
      ensures Valid() && View() == AfterShutdownInLoop(old(View()))
    {
      if !writing {
        halfClosed := true;
      }
    }

    method HandleWrite(outcome: Outcome) returns (complete: bool)
      requires Valid()
      modifies this, outputBuffer
      ensures Valid() && outputBuffer.storage == old(outputBuffer.storage)
      ensures View() == AfterWritable(old(View()), outcome)
      ensures complete <==> old(writing) && !writing
      ensures complete ==> View().output == [] && wire == old(wire) + old(View()).output
    {
      complete := false;
      if !writing {
        return;
      }
      var answer := Answer(View(), outcome);
      var n := Taken(answer, outputBuffer.ReadableBytes());
      if n > 0 {
        wire := wire + outputBuffer.Contents()[..n];
        outputBuffer.Retrieve(n);
        if outputBuffer.ReadableBytes() == 0 {
          writing := false;
          complete := true;
          if state == Disconnecting {
            ShutdownInLoop();
          }
        }
      }
    }
  }
}
