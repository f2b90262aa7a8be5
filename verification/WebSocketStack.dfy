/** The WebSocket receiving side as a whole: bytes to frames to messages. */
module WebSocketStack {
  import opened Bytes
  import opened Incremental
  import opened WebSocketFrames
  import opened WebSocketCodec
  import opened WebSocketMessages

  /**
   * Messages cut into fragments, with valid control frames in between, encoded with any mask keys
   * and arriving in any pieces, come out of parser and assembler as the same messages in the same
   * order, with no byte left over and no fragment held.
   */
  lemma MessagesArrive(role: Role, options: Options, groups: seq<seq<Frame>>, messages: seq<Message>,
                       frames: seq<Frame>, masks: seq<Option<Key>>, pieces: seq<Bytes>)
    requires AllCut(options.maxMessagePayload, groups, messages)
    requires DataOf(frames) == Flatten(groups) && ControlsValid(frames)
    requires |frames| == |masks| && AllLegal(role, options, frames, masks)
    requires pieces != [] && Concat(pieces) == EncodeFrames(frames, masks)
    ensures var parsed := RunChunks(FrameParser(role, options), Cursor(ParserState([], None), []), pieces);
            && parsed == Cursor(ParserState(frames, None), [])
            && Assemble(options.maxMessagePayload, IDLE, parsed.state.frames) == Delivery(IDLE, messages, None)
  {
    hide *;
    FramesRoundTrip(role, options, frames, masks, pieces);
    ControlsTransparent(options.maxMessagePayload, IDLE, frames);
    MessagesDelivered(options.maxMessagePayload, groups, messages);
  }
}
