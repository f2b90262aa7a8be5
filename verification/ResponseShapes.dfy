/**
 * src/http/http_response_writer.cpp:83-135: what the pieces accepted for one response add up to, and
 * what a recipient reads of a chunked one.
 */
module ResponseShapes {
  import opened Bytes
  import opened BodyAgreement
  import opened ChunkedCoding
  import HttpDecoder
  import opened HttpText
  import Incremental
  import opened ResponseProtocol
  import opened ResponseWriting

  /** The data of the chunks accepted so far. */
  function Datas(log: seq<Piece>): seq<Bytes>
    requires Streamed(log)
  {
    if |log| == 1 then [] else Datas(log[..|log| - 1]) + [log[|log| - 1].data]
  }

  predicate NoneEmpty(chunks: seq<Bytes>) { forall c | c in chunks :: c != [] }

  lemma {:induction false} DatasNotEmpty(log: seq<Piece>)
    requires Streamed(log)
    ensures NoneEmpty(Datas(log))
    decreases |log|
  {
    if |log| > 1 {
      DatasNotEmpty(log[..|log| - 1]);
    }
  }

  lemma StreamedLast(log: seq<Piece>)
    requires Streamed(log) && |log| > 1
    ensures var init, data := log[..|log| - 1], log[|log| - 1].data;
            && Streamed(init) && init[0] == log[0]
            && Rendered(log) == Rendered(init) + EncodeChunk(data) && Datas(log) == Datas(init) + [data]
  {
    hide EncodeChunk;
  }

  lemma StreamedHead(log: seq<Piece>)
    requires Streamed(log) && |log| == 1
    ensures Rendered(log) == log[0].bytes && Datas(log) == []
  {
    var none: seq<Piece> := [];
    assert log == none + [log[0]];
    RenderedSnoc(none, log[0]);
    assert [] + log[0].bytes == log[0].bytes;
  }

  lemma ChunkInFront(data: Bytes, tail: seq<Bytes>)
    ensures EncodeChunks([data] + tail) == EncodeChunk(data) + EncodeChunks(tail)
  {
    hide EncodeChunk;
    assert ([data] + tail)[1..] == tail;
  }

  lemma {:induction false} StreamedRenders(log: seq<Piece>, tail: seq<Bytes>)
    requires Streamed(log)
    ensures Rendered(log) + EncodeChunks(tail) == log[0].bytes + EncodeChunks(Datas(log) + tail)
    decreases |log|
  {
    if |log| == 1 {
      StreamedHead(log);
      assert [] + tail == tail;
    } else {
      StreamedLast(log);
      hide Streamed, Rendered, Datas, EncodeChunks, EncodeChunk;
      var init, data := log[..|log| - 1], log[|log| - 1].data;
      StreamedRenders(init, [data] + tail);
      ChunkInFront(data, tail);
      Reassociate(Rendered(init), EncodeChunk(data), EncodeChunks(tail));
      Reassociate(Datas(init), [data], tail);
    }
  }

  /** One response or bodyless head rendered whole, or a head followed by a chunked body of non-empty chunks. */
  predicate WellRendered(log: seq<Piece>) {
    log != [] &&
    if log[0].Head? then
      && |log| >= 2 && Streamed(log[..|log| - 1])
      && NoneEmpty(Datas(log[..|log| - 1]))
      && Rendered(log) == log[0].bytes + EncodeChunks(Datas(log[..|log| - 1]))
    else log == [Whole(Rendered(log))] || log == [Bare(Rendered(log))]
  }

  lemma CompletedWhole(log: seq<Piece>)
    requires |log| == 1 && (log[0].Whole? || log[0].Bare?)
    ensures log == [Whole(Rendered(log))] || log == [Bare(Rendered(log))]
  {
    hide EncodeChunk;
    var none: seq<Piece> := [];
    assert log == none + [log[0]];
    RenderedSnoc(none, log[0]);
    assert [] + log[0].bytes == log[0].bytes;
  }

  lemma EndShape(log: seq<Piece>)
    requires Shaped(log) && log != [] && log[|log| - 1].End? && log[0].Head?
    ensures |log| >= 2 && log[0].Head? && Streamed(log[..|log| - 1]) && log == log[..|log| - 1] + [End]
  {
  }

  lemma EndRenders(init: seq<Piece>)
    requires Streamed(init)
    ensures Rendered(init + [End]) == init[0].bytes + EncodeChunks(Datas(init))
  {
    hide Streamed, Datas, Rendered, EncodeChunk;
    var none: seq<Bytes> := [];
    StreamedRenders(init, none);
    Unextended(Datas(init));
    RenderedSnoc(init, End);
    assert EncodeChunks(none) == TERMINATOR;
  }

  lemma Unextended(chunks: seq<Bytes>)
    ensures chunks + [] == chunks
  {
  }

  lemma CompletedChunked(log: seq<Piece>)
    requires Shaped(log) && log != [] && log[|log| - 1].End? && log[0].Head?
    ensures |log| >= 2 && log[0].Head? && Streamed(log[..|log| - 1])
    ensures NoneEmpty(Datas(log[..|log| - 1]))
    ensures Rendered(log) == log[0].bytes + EncodeChunks(Datas(log[..|log| - 1]))
  {
    hide Shaped, Streamed, NoneEmpty, Datas, Rendered, EncodeChunks;
    EndShape(log);
    EndRenders(log[..|log| - 1]);
    DatasNotEmpty(log[..|log| - 1]);
  }

  /** A finished response that does not start with a bodyless head has had all its pieces in time. */
  lemma FinishedShape(o: Output)
    requires Shaped(Accepted(o)) && Finished(o.log)
    ensures o.log != []
    ensures !o.log[0].Bare? ==> o.late == [] && Complete(o.log)
  {
    var p :| p in o.log && Ends(p);
    var k :| 0 <= k < |o.log| && o.log[k] == p;
    var all := Accepted(o);
    assert all[k] == p && all[0] == o.log[0];
    if !o.log[0].Bare? {
      LastEnds(all, k);
      assert o.late == [];
      assert o.log + [] == o.log;
    }
  }

  /** Only the last piece of an output that does not start with a bodyless head ends it. */
  lemma LastEnds(log: seq<Piece>, k: nat)
    requires Shaped(log) && k < |log| && Ends(log[k]) && !log[0].Bare?
    ensures k == |log| - 1 && Complete(log)
  {
    if log[|log| - 1].End? {
      var init := log[..|log| - 1];
      forall j | 0 <= j < |init| ensures Streamed(init) ==> !Ends(log[j]) {
        assert init[j] == log[j] && init[0] == log[0];
      }
    }
  }

  /**
   * What has been accepted for a finished response is well formed exactly when nothing came in
   * time behind a bodyless head; late pieces exist only behind such a head.
   */
  lemma FinishedOutput(events: seq<Event>, i: nat)
    requires var w := Run(INITIAL, events); i < |w.outputs| && Finished(w.outputs[i].log)
    ensures var o := Run(INITIAL, events).outputs[i];
            && o.log != []
            && (WellRendered(o.log) <==> (o.log[0].Bare? ==> |o.log| == 1))
            && (o.late != [] ==> o.log[0].Bare?)
  {
    hide *;
    Reached(events);
    var w := Run(INITIAL, events);
    AcceptedShaped(w, i);
    OutputFormed(w.outputs[i]);
  }

  lemma AcceptedShaped(w: World, i: nat)
    requires Invariant(w) && i < |w.outputs|
    ensures Shaped(Accepted(w.outputs[i]))
  {
  }

  lemma OutputFormed(o: Output)
    requires Shaped(Accepted(o)) && Finished(o.log)
    ensures o.log != []
    ensures WellRendered(o.log) <==> (o.log[0].Bare? ==> |o.log| == 1)
    ensures o.late != [] ==> o.log[0].Bare?
  {
    hide Shaped, Accepted, Finished, Streamed, Rendered, Datas, NoneEmpty, EncodeChunks;
    FinishedShape(o);
    if o.log[0].Bare? {
      if |o.log| == 1 {
        CompletedWhole(o.log);
      }
    } else if o.log[|o.log| - 1].End? {
      CompleteHead(o.log);
      CompletedChunked(o.log);
    } else {
      CompletedWhole(o.log);
    }
  }

  lemma CompleteHead(log: seq<Piece>)
    requires Complete(log) && log[|log| - 1].End? && !log[0].Bare?
    ensures Shaped(log) && log[0].Head?
  {
    assert log[..|log| - 1] != [] ==> log[..|log| - 1][0] == log[0];
  }

  /**
   * The body of a finished chunked response, read by a recipient's parser behind the head, is the
   * concatenation of the chunks that were written; bytes of the next response stay unread.
   */
  lemma ChunkedResponseDecodes(events: seq<Event>, i: nat, cfg: HttpDecoder.Config, h: HttpDecoder.State, next: Bytes)
    requires var w := Run(INITIAL, events);
             i < |w.outputs| && Finished(w.outputs[i].log) && w.outputs[i].log[0].Head?
    requires h.Active? && h.phase.ChunkSize? && h.message.body == [] && h.decodedBytes == 0
    requires !cfg.headOnly && cfg.options.maxBody < TWO_64
    ensures var log := Run(INITIAL, events).outputs[i].log;
            && |log| >= 2 && Streamed(log[..|log| - 1]) && |log[0].bytes| <= |Rendered(log)|
            && var body := Concat(Datas(log[..|log| - 1]));
            |body| <= cfg.options.maxBody ==>
              && var end := Incremental.Run(HttpDecoder.Decoder(cfg),
                 Incremental.Cursor(h, Rendered(log)[|log[0].bytes|..] + next));
              Completed(end) && end.state.message.body == body && end.unread == next
  {
    FinishedOutput(events, i);
    hide Run, HttpDecoder.Decoder, Incremental.Run, EncodeChunk, Streamed, Datas, Rendered;
    var log := Run(INITIAL, events).outputs[i].log;
    var chunks := Datas(log[..|log| - 1]);
    var coded := EncodeChunks(chunks);
    Parts(Rendered(log), log[0].bytes, coded);
    if |Concat(chunks)| <= cfg.options.maxBody {
      assert forall k | 0 <= k < |chunks| :: chunks[k] in chunks;
      BufferedRoundTrip(cfg, h, chunks, next);
      assert [] + Concat(chunks) == Concat(chunks);
    }
  }
}
