# A verified model of oklib's decoders, protocols and tables

oklib is a reactor networking library. This project models the parts of it whose correctness does
not depend on sockets and proves what the library relies on them for:

- **Decoders that do not care how TCP cuts the bytes.** `Incremental` states the one argument they
  share: a step that is enabled on some bytes has the same effect on every extension of them, so any
  cutting, pausing and resuming gives the same run. It is instantiated for the HTTP/1.1 parser
  (`HttpText`, `HttpDecoder`, `HttpSplitting`, `HttpParsing`), the streaming body decoder
  (`BodyDecoder`, `HttpStreaming`) and the WebSocket frame parser (`WebSocketFrames`,
  `WebSocketCodec`). The streaming multipart parser emits callbacks while it reads, so it is compared
  with the one-shot parser through the parse that its state still stands for (`MultipartSpec`,
  `MultipartParser`, `StreamingMultipart`, `MultipartRefinement`), what its callbacks and refusals are
  is said part by part (`MultipartFiles`), and the accepted language is given without a parser
  (`MultipartGrammar`).
- **Agreement and round trips across components.** The accepted HTTP heads said without a parser
  (`HttpGrammar`, `TextRules`), whole messages written and read back, with every refusal
  (`DecimalText`, `HttpRoundTrip`, `HttpFraming`, `HttpErrors`), buffered and streamed bodies
  (`BodyAgreement`, `StreamedBodies`, `StreamedRequests`), chunk encoder against both chunk decoders
  (`ChunkedCoding`), frame encoder against frame parser and against the layout of the standard
  (`WebSocketCodec`, `WebSocketWire`), fragmented messages (`WebSocketMessages`, `WebSocketErrors`,
  `WebSocketStack`), UTF-8 (`Utf8`), SHA-1 and Base64 (`Sha1`, `Sha1Example`, `Base64`), civil dates
  and HTTP dates (`CivilDates`, `HttpDates`, `DateForms`).
- **Concurrent protocols as atomic steps.** The ordered response queue (`ResponseWriting`,
  `ResponseProtocol`, `ResponseShapes`, `ResponseStranding`, `ResponseClosing`) and the upload writer
  pool (`UploadSessions`, `UploadProtocol`, `UploadLeaks`, `UploadOutcomes`): each step is a lock
  section, an atomic operation or a file operation, and the results hold for every interleaving.
- **Tables and queues over whole runs.** Timers (`EventLoopTimers`, `TimerProtocol`, `TimerOutcomes`,
  `TimerLiveness`, `TimerSpacing`), the client cache (`HttpCaching`, `HttpFreshness`,
  `HttpClientCaching`, `HttpCacheKeys`, `HttpCacheRuns`, `HttpCacheHits`, `HttpCachePolicy`,
  `HttpCacheUpdates`), the byte buffer (`NetBuffer`) and the output side of a connection (`TcpOutput`,
  `TcpOutputRuns`).

Objects whose methods update fields are classes here, with a value (`View()`, `State()`,
`Contents()`) that each method's contract ties to a function of the old value; the results are then
lemmas about those functions. Loops of the source are loops with invariants. Where lock sections
interleave, the value functions become the steps of a transition system whose state also carries
history (what was accepted, sent, fired), and the results are stated over event lists of any length.

Where the code does not do what one would expect, it is modelled as it is and the exact condition
is proved:

- The HTTP parser is independent of the cut if and only if the input does not begin with an
  acceptable start line of exactly `max_start_line` bytes (`HttpSplitting.HttpSplitIff`); a cut that goes
  wrong then ends with the start line refused, never otherwise (`CutOrRefused`).
- Every cut of a form that the one-shot parser accepts finishes if and only if every header block is
  at least 3 bytes below `max_header_bytes` and every non-file field is within `max_field_bytes`
  (`MultipartRefinement.EveryCutAgreesIff`). In a single piece the field bound is never enforced,
  because the refusal is overwritten when the delimiter is already in the buffer
  (`MultipartRefinement.OnePieceAgrees`).
- Streaming a completed chunked message agrees with buffering it if and only if its trailer section
  is within 64 KiB (`BodyAgreement.StreamingAgreesIff`); and a message that streaming completes is one that
  buffering completes if and only if its Content-Length is within `max_body`, and a chunked body has size
  lines, chunks and trailer lines such as the buffered parser takes, because streaming bounds no
  Content-Length and looks at neither chunk extensions nor trailer fields
  (`StreamedBodies.BufferedCompletesIff`, inputs in `StreamedRequests.LongBodyStreams` and `EightMegabytes`).
- The server starts the decoder of the parser's framing decision if and only if the first
  Transfer-Encoding value is not empty exactly when the list of all codings is not
  (`StreamedRequests.ServerAgreesIff`, inputs in `EmptyCodingMissed` and `CommaMisread`).
- A chunked response started by a writer without body counts as finished with its head, but its writer
  still accepts chunks. Whatever is called, an accepted piece is never sent if and only if its sequence
  number is already below `next_to_send`, an earlier response still to be sent closes the connection, or
  the connection is gone (`ResponseStranding.LostIff`, an input in `StrandedChunk`); and what is sent for a
  finished response is well formed if and only if nothing came in time behind such a head
  (`ResponseShapes.FinishedOutput`, an input in `ResponseStranding.BodyBehindBareHead`).
- When the part file of an upload cannot be opened, the session goes on accepting bytes after its
  queue was thrown away. Those bytes are exactly what a finished session leaves counted in the pool,
  which ends at 0 if and only if there are none (`UploadLeaks.LeavesLateBytes`, `NothingLeaks`; the bound
  on accepted bytes in `AcceptedBounded`, a run that leaks in `OpenFailureLeaks`).
- Cancelling a timer is final if and only if the timer is not waiting in a collected batch; one that
  waits fires once more (`TimerOutcomes.CancelledNeverFires`, `CollectedFiresAnyway`).
- The age of a cached response is a sum of two 64-bit numbers without the delay of the response. The
  freshness answer is that of section 4.2 of RFC 9111 if and only if the response may not be served anyway,
  or the sum does not overflow and the lifetime does not end between the computed age and the age with the
  delay (`HttpFreshness.FreshRightIff`; inputs in `OldestCountsAsFresh` and `SlowCountsAsFresh`, seen through
  the cache in `HttpCacheHits.OldestIsServed` and `SlowIsServed`). A max-age above 2^63-1 is ignored
  (`HttpFreshness.LifetimeRightIff`).
- A 304 refreshes the Vary field of a stored response but not the Vary the cache compares. Every request
  that an entry matches agrees with the Vary of its response if and only if that is not "*" and each of its
  fields is one the entry compares (`HttpCacheHits.VaryAgreesIff`, an input in `AddedVaryIgnored`).
- A request has its cache key to itself if and only if neither its host nor its target has a cacheable
  method in it, set off by spaces (`HttpCacheKeys.KeyAloneIff`); otherwise one host is answered with the
  response stored for another (`HttpCacheHits.OtherHostAnswers`).
- A message assembler that is fed on after an error goes on like a new one if and only if no fragmented
  message was in progress, and what it hands out may use frames from before the error if and only if
  it holds fragments that are not uncompressed text, or such text whose last character can still end within
  the limit (`WebSocketErrors.ContinuesAsNewIff`, `CarriesOverIff`, an input in `ContinuingCorrupts`). Both
  callers stop at the first error.
- A message that `send` accepted, on the loop thread or from another, is lost if and only if by the time
  it runs the connection is closed or half-closed, or nothing waits and the peer is found gone; on the
  loop thread it runs at once and only the last can happen (`TcpOutputRuns.LostIff`). A shutdown overtakes
  queued messages when it is called on the loop thread, and also when it is called behind them on their own
  thread while an earlier message is still being written (`ShutdownOvertakes`, `DrainOvertakes`). At the
  half-close everything kept is on the wire if and only if the connection was not closed with bytes still
  waiting (`HalfCloseIsClean`, an input in `ClosedHalfCloses`).
- A close frame passes with code 1015, which section 7.4.1 of RFC 6455 does not allow in a frame
  (`WebSocketMessages.CloseAccepted`); a status may be a minus sign and two digits (`TextRules.StatusIs`).
- A date may name a day that its month does not have, which is then one of the next month
  (`DateForms.RollsOver`), and the characters between its numbers are not looked at
  (`DateForms.DateAccepted`).
- The time value of a date never decreases, and repeats exactly from a second 60, which is accepted in
  every minute, to the start of the next minute (`CivilDates.TimeIncreases`).

`dafny verify dfyconfig.toml` checks everything.

## Model

| member | source | states |
|---|---|---|
| Bytes.FindFirst | src/net/buffer.cpp:16-24 | the position found is an occurrence, no earlier one exists, and no answer means there is none |
| Bytes.FindStable | src/net/buffer.cpp:16-24 | an end-of-line found in the bytes so far is the one found in every extension |
| Bytes.FindLate | src/http/streaming_multipart_parser.cpp:287-304 | when the buffer holds no delimiter, the first one in any extension ends beyond the buffer, so all but its last bytes may be emitted |
| TextRules.TrimOwsIs | src/http/http_parser.cpp:57-65 | trimming takes the spaces and tabs off both ends and nothing else |
| TextRules.ListIs | src/http/http_parser.cpp:76-88 | a list value is its comma-separated pieces, trimmed, without an empty last one |
| TextRules.TokenCharIs | src/http/http_parser.cpp:30-55 | token characters are the visible ones of ASCII that are no delimiters of section 5.6.2 of RFC 9110 |
| TextRules.SameNameIs | src/http/http_headers.cpp:23-36 | names are the same letter by letter in either case |
| TextRules.HexDigitIs | src/http/http_parser.cpp:106-121 | hexadecimal digits in both cases, with their values |
| TextRules.U64Is | src/http/http_parser.cpp:90-121 | a number is read exactly when it has 64 bits, with white space around it |
| TextRules.StatusIs | src/http/http_parser.cpp:601-618 | a status is three digits, or a minus sign and two |
| TextRules.CodingIs | src/http/http_parser.cpp:266-277 | a transfer coding without its parameters |
| TextRules.QuotedStringIs | src/http/http_parser.cpp:129-151 | a quoted string is quoted characters, single or behind a backslash |
| TextRules.SizeLineIs | src/http/http_parser.cpp:153-187 | a size line is read exactly when its size is a hexadecimal number and each extension is a token, with or without a token or quoted string as value |
| TextRules.TrailerIs | src/http/http_parser.cpp:797-806 | a trailer is a header line whose name is not Content-Length, Transfer-Encoding or Host |
| TextRules.TrailerLineIs | src/http/http_context.cpp:47-53 | what the streaming decoder asks of a trailer line |
| Incremental.RunThenFeed | src/http/http_parser.cpp:469-561 | a decoder whose steps survive extension ends the same whether it runs before or after more bytes arrive |
| Incremental.SplitIndependent | src/http/http_parser.cpp:469-561 | such a decoder reaches the same state and unread bytes under every cutting of its input |
| Incremental.ScheduleIndependent | src/http/http_context.cpp:106-135 | the same under every interleaving of arrivals, pauses after any number of steps, and resumptions |
| NetBuffer.Buffer.constructor | src/net/buffer.cpp:11-14 | a new buffer is an empty byte queue |
| NetBuffer.Buffer.Append | src/net/buffer.cpp:54-63 | appends at the back of the queue, whatever growth or compaction it needs |
| NetBuffer.Buffer.Retrieve | src/net/buffer.cpp:26-32 | drops bytes at the front of the queue, all of them when asked for more |
| NetBuffer.Buffer.RetrieveAsString | src/net/buffer.cpp:43-48 | returns what it drops from the front |
| NetBuffer.Buffer.EnsureWritableBytes | src/net/buffer.cpp:65-69 | makes room without changing the queued bytes |
| NetBuffer.Buffer.MakeSpace | src/net/buffer.cpp:92-102 | growing the storage or moving the bytes to its front keeps the queue and gives the room asked for |
| NetBuffer.Buffer.ReadFd | src/net/buffer.cpp:71-90 | what one read delivered, possibly through the extra buffer, is appended in order |
| NetBuffer.MoveDown | src/net/buffer.cpp:92-102 | moving bytes towards the front of the same storage is correct although the ranges may overlap |
| MultipartParser.ParseMultipartFormData | src/http/multipart_parser.cpp:193-263 | the position loop computes the parse of the body as section 5.1.1 of RFC 2046 lays it out, with each error and limit of the source |
| StreamingMultipart.StreamingMultipartParser.Append | src/http/streaming_multipart_parser.cpp:183-192 | new state, callbacks and answer of one append |
| StreamingMultipart.StreamingMultipartParser.Finish | src/http/streaming_multipart_parser.cpp:194-203 | new state of finish, which answers true exactly in the done state |
| StreamingMultipart.StreamingMultipartParser.RunProcess | src/http/streaming_multipart_parser.cpp:209-239 | the processing loop runs turns until one needs more bytes, is done, or fails |
| StreamingMultipart.StreamingMultipartParser.ProcessFirstBoundary | src/http/streaming_multipart_parser.cpp:241-250 | the turn at the first boundary |
| StreamingMultipart.StreamingMultipartParser.ProcessHeaders | src/http/streaming_multipart_parser.cpp:252-285 | the turn at a header block, with its size bound and the part callback |
| StreamingMultipart.StreamingMultipartParser.ProcessBody | src/http/streaming_multipart_parser.cpp:287-304 | the turn in a part body: everything up to the delimiter, or all but the held-back bytes |
| StreamingMultipart.StreamingMultipartParser.ProcessBoundarySuffix | src/http/streaming_multipart_parser.cpp:306-325 | the turn behind a delimiter |
| StreamingMultipart.StreamingMultipartParser.EmitData | src/http/streaming_multipart_parser.cpp:343-357 | file data goes to the callback, field data is counted against its bound |
| MultipartRefinement.UploadRefinesOneShot | src/http/streaming_multipart_parser.cpp:183-325 | for every cut: if finish answers true, the one-shot parser accepts the text, and the callbacks showed the same parts in order with complete file bodies and one completion; every text within the bounds does finish |
| MultipartRefinement.EveryCutAgreesIff | src/http/streaming_multipart_parser.cpp:252-304 | all cuts of an accepted form finish if and only if its header blocks and fields fit; no cut of a refused form finishes |
| MultipartRefinement.CutFails | src/http/streaming_multipart_parser.cpp:252-304 | the cut inside the first oversized header block or field on which finish answers false |
| MultipartRefinement.OnePieceAgrees | src/http/streaming_multipart_parser.cpp:287-304 | in one piece finish answers true exactly when the one-shot parser accepts: the field bound is lost |
| MultipartRefinement.EmptyBoundaryFails | src/http/streaming_multipart_parser.cpp:165-181 | an empty boundary is an error from the start and stays one |
| MultipartGrammar.ParsesIffRendered | src/http/multipart_parser.cpp:193-263 | a body parses to a list of parts exactly when it starts with their rendering between boundaries |
| MultipartGrammar.RenderedParses | src/http/multipart_parser.cpp:216-263 | rendered parts parse back to themselves whatever follows the close delimiter |
| MultipartGrammar.PartLimit | src/http/multipart_parser.cpp:255-260 | max_parts only turns the parse into a refusal, exactly when there are more parts |
| MultipartGrammar.StreamingAgreesWithOneShot | src/http/streaming_multipart_parser.cpp:183-325 | the two parsers as shipped, with size and part limits: same parts for every cut that finishes, and every cut finishes when the parts fit |
| MultipartFiles.FilesDelivered | src/http/streaming_multipart_parser.cpp:343-357 | under every cut that finishes, the data callbacks behind a part with a filename are non-empty and add up to its body; behind a part without one there are none |
| MultipartFiles.FailureExplained | src/http/streaming_multipart_parser.cpp:241-357 | a failed upload has the failure that its input explains; only a part without filename is ever too large |
| MultipartFiles.FinishDecides | src/http/streaming_multipart_parser.cpp:194-203 | finish decides between done and failed, truncated exactly when nothing had ended or failed before |
| MultipartFiles.ClosingTurn | src/http/streaming_multipart_parser.cpp:306-318 | behind the close delimiter one line end is taken, if it is there |
| MultipartFiles.OneShotRefusals | src/http/multipart_parser.cpp:216-250 | which error the one-shot parser has behind a boundary and at a header block |
| MultipartFiles.BodyRefusals | src/http/multipart_parser.cpp:243-260 | and in a body |
| MultipartFiles.BodyTooLarge | src/http/multipart_parser.cpp:193-215 | and before the first boundary |
| HttpParsing.HttpParser.ParseMessage | src/http/http_parser.cpp:302-306 | parses everything the buffer allows: state and unread bytes are those of the complete run of the step function |
| HttpParsing.HttpParser.ParseHead | src/http/http_parser.cpp:308-375 | the same up to the empty line |
| HttpParsing.HttpParser.Parse | src/http/http_parser.cpp:469-561 | the state-switch loop takes steps until more bytes are needed, the message is complete or refused |
| HttpParsing.HttpParser.HandleStartLine | src/http/http_parser.cpp:472-496 | the start-line state, with the length bound on found and missing line ends |
| HttpParsing.HttpParser.HandleHeaders | src/http/http_parser.cpp:497-530 | the header state: counts the bytes of each line against the bound, adds the field or ends the section |
| HttpParsing.HttpParser.FinishHeaderSection | src/http/http_parser.cpp:640-713 | the framing decision of section 6.3 of RFC 9112 in the order the code takes it |
| HttpParsing.HttpParser.ParseFixedBody | src/http/http_parser.cpp:715-727 | takes the whole body once it is there |
| HttpParsing.HttpParser.ParseChunkSize | src/http/http_parser.cpp:729-758 | reads a size line with its extensions and checks the total without overflow |
| HttpParsing.HttpParser.ParseChunkData | src/http/http_parser.cpp:760-783 | takes a chunk with its line end |
| HttpParsing.HttpParser.ParseTrailer | src/http/http_parser.cpp:785-810 | one trailer line, refusing framing fields |
| HttpSplitting.DecoderStable | src/http/http_parser.cpp:469-561 | every step through all states survives extension, except the premature refusal of a start line at its bound |
| HttpSplitting.HttpSplit | src/http/http_parser.cpp:469-561 | under any cutting the parser ends with the same status, error, message and leftover |
| HttpSplitting.HttpSplitIff | src/http/http_parser.cpp:472-496 | that holds for all cuttings if and only if the input does not begin with an acceptable start line of exactly max_start_line bytes |
| HttpSplitting.BoundLineCut | src/http/http_parser.cpp:472-496 | for such an input, the cut behind the carriage return that is refused although the whole is not |
| HttpSplitting.CutOrRefused | src/http/http_parser.cpp:469-496 | on any input, a cut ends as the whole input does, or with the start line refused |
| HttpGrammar.RequestLineIff | src/http/http_parser.cpp:563-585 | a request line is accepted exactly as a token, a target without space and a version, with single spaces between them |
| HttpGrammar.StatusLineIff | src/http/http_parser.cpp:587-619 | a status line is accepted exactly as a version, three characters that are a number, and the reason behind a second space if there is one |
| HttpGrammar.HeaderLineIff | src/http/http_parser.cpp:621-638 | a header line is accepted exactly as a token, a colon and a value, whose outer white space is dropped |
| HttpGrammar.SectionReads | src/http/http_parser.cpp:497-530 | a header section within its bound is read field by field up to the framing decision |
| HttpGrammar.SectionBack | src/http/http_parser.cpp:497-530 | conversely a section that was passed consists of such lines, within the bound |
| HttpGrammar.HeadIff | src/http/http_parser.cpp:308-375 | the head parser ends in a state with some bytes unread exactly when the text is a start line, header lines and empty line within the bounds, with a framing that is not refused, followed by those bytes |
| HttpFraming.HeadRefusedIff | src/http/http_parser.cpp:640-680 | a head is refused for its framing exactly when its lengths differ or are no numbers, its last coding is not chunked, or it has lengths and codings; and as a bad header exactly when an HTTP/1.1 request has no Host |
| HttpFraming.BodilessReads | src/http/http_parser.cpp:669-674 | a response of status 1xx, 204, 205 or 304 ends at its empty line whatever consistent lengths or codings it has |
| HttpFraming.NothingReads | src/http/http_parser.cpp:691-699 | any other message without codings and lengths, or with length 0, ends there too |
| HttpFraming.LengthReads | src/http/http_parser.cpp:701-727 | any other request or response with length n takes exactly n bytes, and is refused for n above max_body |
| HttpFraming.LengthWaits | src/http/http_parser.cpp:715-727 | as long as bytes are missing, nothing of the body is taken |
| HttpFraming.ChunksRead | src/http/http_parser.cpp:681-689 | any other request or response with codings, the last one chunked, takes its chunks |
| HttpFraming.Announced | src/http/http_parser.cpp:640-713 | the length and the chunked flag that a head leaves in the message |
| HttpErrors.StartLineRefusedIff | src/http/http_parser.cpp:472-496 | the start line is refused exactly when it is too long, also before its end has come, or is not one |
| HttpErrors.HeaderRefused | src/http/http_parser.cpp:497-530 | a section above its bound is too large, a bad line within it a bad header |
| HttpErrors.ChunkRefused | src/http/http_parser.cpp:729-810 | the error of a bad size line, a body above its bound, data without its line end and a bad trailer |
| DecimalText.DecimalValue | src/http/http_parser.cpp:90-104 | a length written in decimal reads back |
| HttpRoundTrip.BodylessRequestReads | src/http/http_parser.cpp:640-713 | a request without body fields ends at its empty line and leaves what follows |
| HttpRoundTrip.FixedRequestReads | src/http/http_parser.cpp:640-727 | a request with Content-Length reads back with start line, fields and body, and leaves what follows |
| HttpRoundTrip.ChunkedRequestReads | src/http/http_parser.cpp:640-810 | a chunked request reads back with start line, fields and the concatenation of its chunks, and leaves what follows |
| HttpStreaming.HttpContext.StartStreamingBody | src/http/http_context.cpp:89-94 | a body of known length starts as the decoder of that length |
| HttpStreaming.HttpContext.StartStreamingChunkedBody | src/http/http_context.cpp:96-104 | a chunked body starts as the decoder at a size line |
| StreamedRequests.StartStreaming | src/http/http_server.cpp:242-267 | the server starts the decoder that the first Transfer-Encoding value and the Content-Length of the request call for |
| StreamedRequests.ServerAgreesIff | src/http/http_server.cpp:66-68 | for every request head, from any pieces, that is the decoder of the parser's framing decision if and only if the first Transfer-Encoding value is not empty exactly when the list of all codings is not |
| StreamedRequests.EmptyCodingMissed | src/http/http_server.cpp:66-68 | an empty Transfer-Encoding line in front of chunked: the parser finds a chunked body, the server starts one without bytes |
| StreamedRequests.CommaMisread | src/http/http_server.cpp:66-68 | a Transfer-Encoding of one comma beside a Content-Length: the parser finds a body of that length, the server starts a chunked one |
| HttpStreaming.HttpContext.ProcessStreamingBody | src/http/http_context.cpp:106-114 | one call, with a body stream that may pause it anywhere, makes progress on the same run of the body decoder |
| HttpStreaming.HttpContext.ProcessFixed | src/http/http_context.cpp:116-135 | the fixed-length loop: delivers what is there, completes when nothing remains |
| HttpStreaming.HttpContext.ProcessChunked | src/http/http_context.cpp:137-224 | the chunk loop through size, data, line end and trailers |
| BodyDecoder.DeliverRun | src/http/http_context.cpp:116-135 | delivering a stretch at once leads to the same run as delivering it byte by byte |
| BodyDecoder.BodyIsStable | src/http/http_context.cpp:116-224 | every step of the streaming decoder survives extension |
| HttpErrors.StreamingBreaks | src/http/http_context.cpp:137-224 | the streaming decoder breaks exactly at a bad size, a body over 8 MiB, data without its line end, trailers over 64 KiB and a bad trailer line |
| BodyAgreement.StreamingAgreesIff | src/http/http_context.cpp:106-224 | head parser fed piece by piece, followed by the streaming decoder under any arrivals and pauses, delivers the buffered body and leaves the same bytes, if and only if a chunked body's trailers fit in 64 KiB |
| StreamedBodies.BufferedCompletesIff | src/http/http_context.cpp:106-224 | a message whose head came in any pieces and whose body the streaming decoder completes, under any arrivals and pauses, is one the buffered parser completes, if and only if its Content-Length is within max_body, and a chunked body's extensions, sizes and trailer lines pass the buffered parser's checks |
| StreamedBodies.HeadOnward | src/http/http_parser.cpp:701-713 | where the head parser has found a head, the buffered parser refuses a Content-Length above max_body, and otherwise goes on from that head |
| StreamedRequests.LongBodyStreams | src/http/http_parser.cpp:701-703 | every body above max_body with its Content-Length: streaming delivers it, buffering refuses the head |
| StreamedRequests.EightMegabytes | include/oklib/http/http_parser.h:39-43 | a request with one byte more than the default bound is such an input |
| BodyAgreement.BodyAgrees | src/http/http_parser.cpp:715-810 | the streaming decoder started from the parser's framing decision agrees with the buffered decoder |
| BodyAgreement.HeadEarly | src/http/http_parser.cpp:308-375 | a head parsed before the body has arrived is the head of the whole text |
| ChunkedCoding.HexValue | src/http/http_response_writer.cpp:137-148 | the size line written for n reads back as n |
| ChunkedCoding.BufferedRoundTrip | src/http/http_response_writer.cpp:91-148 | any non-empty chunks and the terminator decode, buffered, to their concatenation with the following bytes untouched |
| ChunkedCoding.StreamingRoundTrip | src/http/http_response_writer.cpp:91-148 | the same for the streaming decoder under any arrivals and pauses |
| Utf8.ValidUtf8 | src/websocket/websocket_frame.cpp:84-124 | the loop answers true exactly for encodings of Unicode scalar values |
| Utf8.AcceptsIffUtf8 | src/websocket/websocket_frame.cpp:84-124 | accepted exactly when the text encodes some scalar values: no overlong forms, surrogates or larger values |
| Utf8.AcceptedDecodes | src/websocket/websocket_frame.cpp:84-124 | an accepted text decodes to scalar values whose encoding is that text |
| Utf8.AcceptsConcat | src/websocket/websocket_frame.cpp:84-124 | acceptance is closed under concatenation |
| Utf8.CanEndIff | src/websocket/websocket_frame.cpp:84-124 | the loop variables tell whether at most so many further bytes make a text valid |
| WebSocketFrames.XorTwice | src/websocket/websocket_frame.cpp:164-178 | masking a byte twice gives it back |
| WebSocketFrames.MaskTwice | src/websocket/websocket_frame.cpp:164-178 | masking a payload twice with the same key gives it back |
| WebSocketFrames.BigEndianValue | src/websocket/websocket_frame.cpp:37-58 | an extended length written most significant byte first reads back |
| WebSocketWire.OpcodeNumbers | src/websocket/websocket_frame.cpp:14-26 | the numbers of the opcodes, and which of them are control and data |
| WebSocketWire.XorIs | src/websocket/websocket_frame.cpp:169-174 | masking is the exclusive or, bit by bit |
| WebSocketWire.HeadLayout | src/websocket/websocket_frame.cpp:134-161 | flags, opcode, mask flag and shortest length stand where section 5.2 of RFC 6455 draws them |
| WebSocketWire.PayloadLayout | src/websocket/websocket_frame.cpp:163-177 | then the key and each payload byte masked with its key byte |
| WebSocketWire.FirstBytesRefused | src/websocket/websocket_frame.cpp:189-217 | the first two bytes are refused exactly for a reserved opcode or flag, a misplaced compression flag or a mask the role does not expect |
| WebSocketWire.LengthRefused | src/websocket/websocket_frame.cpp:218-250 | a length that is not minimal or has its top bit set is a protocol error, one above the bound too big |
| WebSocketCodec.EncodedParses | src/websocket/websocket_frame.cpp:126-282 | an encoded legal frame in front of anything parses to that frame and consumes exactly its bytes |
| WebSocketCodec.ParsedEncodes | src/websocket/websocket_frame.cpp:184-282 | every accepted frame, encoded again with its mask key, gives exactly the bytes consumed |
| WebSocketCodec.RefusesOnlyIllegal | src/websocket/websocket_frame.cpp:184-282 | bytes that begin a legal frame are never refused, however few have arrived |
| WebSocketCodec.FrameParserStable | src/websocket/websocket_frame.cpp:184-282 | every step of the frame parser survives extension |
| WebSocketCodec.FramesRoundTrip | src/websocket/websocket_frame.cpp:126-282 | any legal frames for a role, any mask keys, any cut: the same frames and nothing left |
| WebSocketCodec.RunEncodes | src/websocket/websocket_frame.cpp:184-282 | whatever arrives, the bytes are the encoding of the returned frames followed by the unread bytes |
| WebSocketCodec.WebSocketFrameParser.Parse | src/websocket/websocket_frame.cpp:184-282 | the loop returns the frames of the complete run, with its status |
| WebSocketCodec.WebSocketFrameParser.ParseOne | src/websocket/websocket_frame.cpp:187-278 | one turn: head, lengths, role and limit checks in the order of the code |
| WebSocketMessages.WebSocketMessageAssembler.Consume | src/websocket/websocket_frame.cpp:292-360 | state, reply and stored error after one frame |
| WebSocketMessages.CloseAccepted | src/websocket/websocket_frame.cpp:71-82 | a close frame passes exactly with no code, or with one of 1000 to 1003, 1007 to 1015 and 3000 to 4999 and a UTF-8 reason; which error it is otherwise |
| WebSocketMessages.RepliesAre | src/websocket/websocket_frame.cpp:311-360 | the reply to every data frame in terms of the fragments held: which error, nothing yet, or the message they add up to |
| WebSocketMessages.AlwaysBounded | src/websocket/websocket_frame.cpp:292-360 | in every reachable state the buffered payload is within max_message_payload, and empty when no fragment is active |
| WebSocketMessages.ControlsTransparent | src/websocket/websocket_frame.cpp:294-309 | valid control frames anywhere between fragments change nothing |
| WebSocketMessages.FragmentationTransparent | src/websocket/websocket_frame.cpp:311-360 | any fragments of a message, with valid control frames in between, deliver exactly that message, opcode and compressed flag, if and only if it is within the limit and uncompressed text is UTF-8; otherwise which error |
| WebSocketMessages.MessagesDelivered | src/websocket/websocket_frame.cpp:311-360 | a stream of fragmented messages is delivered message by message |
| WebSocketMessages.DeliveredExplained | src/websocket/websocket_frame.cpp:311-360 | conversely, the data frames received are the delivered messages cut into consecutive groups, followed by the fragments still held |
| WebSocketErrors.ContinuesAsNewIff | src/websocket/websocket_frame.cpp:292-368 | after any frames a frame is refused: for all further frames the assembler hands out what a new one would, if and only if no fragmented message was in progress |
| WebSocketErrors.CarriesOverIff | src/websocket/websocket_frame.cpp:337-360 | everything handed out after a refused frame was sent in later frames, for all of them, if and only if nothing is held, or uncompressed text that the UTF-8 scan cannot end within the limit |
| WebSocketErrors.ContinuingCorrupts | src/websocket/websocket_frame.cpp:337-360 | after message_too_big a further fragment completes a message nobody sent |
| WebSocketStack.MessagesArrive | src/websocket/websocket_frame.cpp:184-360 | messages, fragmented, masked and cut anyhow, come out of parser and assembler as the same messages |
| ResponseWriting.State.Enqueue | src/http/http_response_writer.cpp:113-124 | the lock section of enqueue: refused once closed, else added to the response of its sequence number |
| ResponseWriting.State.FlushReadyResponses | src/http/http_response_writer.cpp:150-202 | the flush loop takes the chunks that may be sent in sequence order and stops behind a closing response |
| ResponseWriting.HttpResponseWriter.Send | src/http/http_response_writer.cpp:50-67 | the first call of an unused writer enqueues the whole response, any other none |
| ResponseWriting.HttpResponseWriter.StartChunked | src/http/http_response_writer.cpp:69-89 | the head, already finished when no body is to be sent |
| ResponseWriting.HttpResponseWriter.WriteChunk | src/http/http_response_writer.cpp:91-99 | a chunk only while streaming and not empty |
| ResponseWriting.HttpResponseWriter.Finish | src/http/http_response_writer.cpp:101-111 | the terminator once, while streaming |
| ResponseProtocol.DrainFits | src/http/http_response_writer.cpp:164-191 | one flush keeps bytes sent and waiting equal to the outputs in sequence order, and leaves nothing sendable |
| ResponseProtocol.RunKeeps | src/http/http_response_writer.cpp:50-202 | the invariant of the queue holds over every interleaving of any calls, flushes, new requests and disconnection |
| ResponseProtocol.SentInOrder | src/http/http_response_writer.cpp:150-202 | whatever is called, the bytes handed to the connection are a prefix of the pieces accepted in time, in sequence order; nothing of a late piece and nothing behind a closing response |
| ResponseProtocol.QuietMeansSent | src/http/http_response_writer.cpp:113-135 | with no flush queued or due, next_to_send is the least unfinished sequence and all its bytes accepted in time are sent |
| ResponseShapes.FinishedOutput | src/http/http_response_writer.cpp:50-111 | a finished output is one whole response or bodyless head, or a head and a chunked body of non-empty chunks, if and only if nothing came in time behind a bodyless head; late pieces exist only behind such a head |
| ResponseShapes.ChunkedResponseDecodes | src/http/http_response_writer.cpp:69-148 | a recipient's parser reads the chunks written, concatenated, from a finished chunked response, and leaves the next response |
| ResponseClosing.ClosesIff | src/http/http_response_writer.cpp:50-125 | in every run a response closes the connection exactly when a piece of it that was accepted in time came from a closing writer, or from a send or start_chunked of a response that asks for it |
| ResponseClosing.ShutdownIff | src/http/http_response_writer.cpp:150-204 | when it is quiet, the connection is shut down exactly behind the first finished response that closes it, with everything up to it sent |
| ResponseClosing.FlushesQuiet | src/http/http_response_writer.cpp:150-204 | when no call is under way, running the queued flushes makes it quiet |
| ResponseStranding.LostIff | src/http/http_response_writer.cpp:113-191 | in every reachable state, an accepted piece is never sent in any continuation, if and only if its sequence number is below next_to_send, an earlier response still to be sent closes the connection, or the connection is gone |
| ResponseStranding.PassableIsSent | src/http/http_response_writer.cpp:150-202 | otherwise the calls and flushes that send it: the earlier writers end their responses, then one flush |
| ResponseStranding.StrandedChunk | src/http/http_response_writer.cpp:85-98 | without include_body a chunk written after the flush is accepted and never sent |
| ResponseStranding.BodyBehindBareHead | src/http/http_response_writer.cpp:85-98 | put before the flush, it is sent behind the head that must have no body |
| UploadSessions.FillKeeps | src/http/upload_file_writer.cpp:464-480 | cutting appended data into blocks loses, repeats and reorders nothing |
| UploadSessions.UploadFileWriterPoolState.TryIncrementActive | src/http/upload_file_writer.cpp:128-141 | counts a session exactly below the limit |
| UploadSessions.UploadFileWriterPoolState.TryReserveQueued | src/http/upload_file_writer.cpp:143-158 | reserves exactly when the total stays within the limit |
| UploadSessions.UploadFileWriterPoolState.ReleaseQueued | src/http/upload_file_writer.cpp:160-166 | gives the bytes back |
| UploadSessions.UploadFileWriterSession.Append | src/http/upload_file_writer.cpp:442-495 | the lock section of append: state, pool bytes, answer and high mark |
| UploadSessions.UploadFileWriterSession.CopyIn | src/http/upload_file_writer.cpp:464-480 | the block-filling loop computes the cut into full blocks and a pending one |
| UploadSessions.UploadFileWriterSession.Finish | src/http/upload_file_writer.cpp:497-510 | flushes the pending block and closes the session to appends, unless cancelled or failed |
| UploadSessions.UploadFileWriterSession.Cancel | src/http/upload_file_writer.cpp:512-525 | marks the session unless its worker is done |
| UploadSessions.UploadFileWriterSession.TakeBlock | src/http/upload_file_writer.cpp:339-361 | discard, next block, or stop, in the order of the code, with the bytes released and the low mark |
| UploadSessions.UploadFileWriterSession.DiscardReadyBlocksLocked | src/http/upload_file_writer.cpp:233-250 | empties the queue and releases its bytes |
| UploadSessions.UploadFileWriterSession.RecordWrite | src/http/upload_file_writer.cpp:379-388 | counts the block and marks failure |
| UploadProtocol.JobStepKeeps | src/http/upload_file_writer.cpp:315-434 | every lock section and file operation of a session keeps the session invariant |
| UploadProtocol.StepKeeps | src/http/upload_file_writer.cpp:287-525 | every step of any session keeps the pool invariant |
| UploadProtocol.ByteExact | src/http/upload_file_writer.cpp:315-434 | over all interleavings, file, block in flight, ready and pending blocks are the accepted bytes until something is discarded or a file operation fails; a final file exists exactly for an ok result and is all accepted bytes, of the reported length |
| UploadProtocol.Accounting | src/http/upload_file_writer.cpp:128-166 | total queued bytes are the sum over the sessions and within the limit, active uploads within theirs, and created sessions are the active, counted and just leaving ones |
| UploadOutcomes.OutcomeIff | src/http/upload_file_writer.cpp:223-475 | in every run a result is ok, and a final file exists, exactly when no append was refused by a limit, no cancel came in time and no file operation failed; it counts as cancelled exactly when a cancel came in time |
| UploadOutcomes.AppendAnswers | src/http/upload_file_writer.cpp:442-462 | append answers true for no data, and otherwise exactly when the session is open and both limits hold; refused by a limit it fails the session |
| UploadOutcomes.FillsFull | src/http/upload_file_writer.cpp:464-490 | what an append makes ready are full blocks, of one byte for a block size of 0 |
| UploadOutcomes.FlagsAre | src/http/upload_file_writer.cpp:497-525 | what finish and cancel change, and in which sessions nothing |
| UploadOutcomes.FinishCompletes | src/http/upload_file_writer.cpp:315-437 | from any state in which the worker is about to take from a finished session its own steps end with the result, and the final file is all that was accepted, if the upload was neither cancelled nor has failed |
| UploadLeaks.LeavesLateBytes | src/http/upload_file_writer.cpp:233-313 | a finished session leaves exactly the bytes counted as queued that it accepted after its queue was thrown away, none when its file was opened |
| UploadLeaks.NothingLeaks | src/http/upload_file_writer.cpp:233-313 | when every session is done the pool counts exactly those bytes; it counts none if and only if no session accepted anything so late, as when every file was opened |
| UploadLeaks.AcceptedBounded | src/http/upload_file_writer.cpp:452-457 | accepted bytes never exceed max_upload_size, one block for an opened file, and the late bytes, which are within max_upload_size themselves |
| UploadProtocol.Watermarks | src/http/upload_file_writer.cpp:346-357 | high and low transitions alternate; above implies queued over low, not above implies queued under high, no ready block implies not above |
| UploadProtocol.DrainResumes | src/http/upload_file_writer.cpp:335-390 | as many worker turns as there are ready blocks write them all and bring the session below its low mark |
| UploadLeaks.OpenFailureLeaks | src/http/upload_file_writer.cpp:325-348 | a run of the pool, for every limit of at least a block: after a failed open the session accepts its limit twice and leaves the second half counted |
| EventLoopTimers.FreeId | src/net/event_loop.cpp:197-203 | a new identifier is the least one from the counter on that no live timer has |
| EventLoopTimers.EventLoop.NextTimerIdLocked | src/net/event_loop.cpp:197-203 | the loop finds that identifier |
| EventLoopTimers.EventLoop.AddTimer | src/net/event_loop.cpp:162-190 | list, map and counters after adding or replacing a timer |
| EventLoopTimers.EventLoop.Cancel | src/net/event_loop.cpp:122-131 | only the map entry goes |
| EventLoopTimers.EventLoop.PollTimeoutMs | src/net/event_loop.cpp:205-225 | the wait never passes the deadline of a current timer and is the longest such number of milliseconds up to the default |
| EventLoopTimers.EventLoop.CollectDue | src/net/event_loop.cpp:227-246 | the batch is the current due timers, the list keeps the current others, in order |
| EventLoopTimers.EventLoop.SettleExpired | src/net/event_loop.cpp:248-264 | after its callback a current timer is armed again or forgotten |
| TimerProtocol.RunKeeps | src/net/event_loop.cpp:122-265 | the timer invariant holds over any additions, cancellations, collections and firings |
| TimerProtocol.MapMatchesTimers | src/net/event_loop.cpp:162-203 | a map entry exists for exactly one timer in the list or the batch, and every other timer there was cancelled or replaced |
| TimerProtocol.NeverEarly | src/net/event_loop.cpp:227-246 | no callback runs before its deadline |
| TimerProtocol.FiresAsOften | src/net/event_loop.cpp:248-264 | at most n firings for a finite repeat n, exactly n when never cancelled or replaced and gone; one for interval zero |
| TimerSpacing.DeadlineIs | src/net/event_loop.cpp:248-262 | in every run a timer waits for the time it was added for, then always for one interval behind the return of its callback |
| TimerSpacing.FiringsSpaced | src/net/event_loop.cpp:227-264 | two firings of a timer are at least its interval apart |
| TimerSpacing.FirstFiring | src/net/event_loop.cpp:227-246 | the first is not before the time it was added for |
| TimerSpacing.AddAnswers | src/net/event_loop.cpp:162-190 | the identifier that add_timer answers, what stands for it then, and which timers stay |
| TimerSpacing.CancelAnswers | src/net/event_loop.cpp:122-131 | cancelling affects its identifier only |
| TimerSpacing.CollectKeepsOrder | src/net/event_loop.cpp:227-246 | a batch keeps the order of the list, and so does what stays behind |
| TimerLiveness.EveryTimerServed | src/net/event_loop.cpp:205-264 | a timer neither cancelled nor replaced gets its firings whatever is added, replaced or cancelled besides: from any reachable moment between batches, one at least in each sufficiently long turn of the loop, up to exactly n for a finite repeat n, and at most one for each collected batch |
| TimerLiveness.PlainTurnServes | src/net/event_loop.cpp:227-264 | waiting, collecting and working through the batch is such a turn |
| TimerLiveness.ArmedOrServed | src/net/event_loop.cpp:227-264 | between batches such a timer is in the list with firings to go, or has had them all |
| TimerOutcomes.DeadNeverFires | src/net/event_loop.cpp:192-246 | a timer that is neither current nor waiting in the batch never fires again |
| TimerOutcomes.CancelledFires | src/net/event_loop.cpp:122-131 | cancelled at any moment, from a callback or not, a timer fires at most as often as it waits in the batch, once or not at all, and that often when the batch is worked through |
| TimerOutcomes.CancelledNeverFires | src/net/event_loop.cpp:122-131 | in every reachable state, cancelling is final if and only if the timer is not waiting in the batch behind the running callback |
| TimerOutcomes.CollectedFiresAnyway | src/net/event_loop.cpp:248-253 | a timer that waits in the batch fires exactly once more although it is cancelled, and then never again |
| HttpFreshness.AgeIff | src/http/http_cache.cpp:256-261 | the computed sum of age on arrival and time since is exact if and only if it fits in 64 bits; otherwise it is negative |
| HttpFreshness.FreshRightIff | src/http/http_cache.cpp:256-310 | with the request sent at any time, the freshness answer is the one of section 4.2 of RFC 9111 if and only if the response may not be served anyway, or the sum fits in 64 bits and the lifetime does not end between the computed age and the age of section 4.2.3 |
| HttpFreshness.RfcAgeIs | src/http/http_cache.cpp:256-261 | the age of section 4.2.3 is the computed one and the response delay, unless the Age field is above 2^63-1, which the code reads as 0 |
| HttpFreshness.LifetimeRightIff | src/http/http_cache.cpp:263-281 | the lifetime is that of section 4.2.1 if and only if max-age is not above 2^63-1, which the code ignores |
| HttpFreshness.WrongMeansStale | src/http/http_cache.cpp:256-310 | where the answer is wrong the response is stale: a fresh one is never refused |
| HttpFreshness.FreshUntil | src/http/http_cache.cpp:256-310 | a stored response counts as fresh exactly until its lifetime, less the age it arrived with, has passed, and again once the sum overflows |
| HttpFreshness.OldestCountsAsFresh | src/http/http_cache.cpp:256-310 | with max-age=60 and the largest Age a response counts as fresh a second after it was stored |
| HttpFreshness.SlowCountsAsFresh | src/http/http_cache.cpp:256-310 | with max-age=60 a response that took 100 seconds counts as fresh a second after it was stored |
| HttpClientCaching.HttpClientCache.Lookup | src/http/http_client_cache.cpp:63-101 | selects the first matching entry, moves it to the front and answers fresh, stale or miss |
| HttpClientCaching.HttpClientCache.Store | src/http/http_client_cache.cpp:103-125 | the cache after a store, and the byte count exact |
| HttpClientCaching.HttpClientCache.UpdateFrom304 | src/http/http_client_cache.cpp:127-145 | refreshes the entry's fields and time and moves it to the front |
| HttpClientCaching.HttpClientCache.Clear | src/http/http_client_cache.cpp:147-150 | empties the cache and its byte count |
| HttpClientCaching.HttpClientCache.InsertOrReplace | src/http/http_client_cache.cpp:195-209 | drops every entry the new request would select and puts the new one in front |
| HttpClientCaching.HttpClientCache.EnforceLimits | src/http/http_client_cache.cpp:211-217 | drops entries at the back until both limits hold |
| HttpCachePolicy.StoredIff | src/http/http_client_cache.cpp:103-193 | in every run a store puts the response in front exactly when method, body, Authorization, no-store, status, sizes, lifetime or validators and Vary allow it |
| HttpCachePolicy.LookupIs | src/http/http_client_cache.cpp:63-101 | which entry a lookup selects and what it answers, in terms of the fields |
| HttpCachePolicy.FreshFields | src/http/http_cache.cpp:283-310 | when a response counts as fresh, in terms of the fields |
| HttpCacheUpdates.SetHeadersValues | src/http/http_client_cache.cpp:52-56 | every name in the 304 has the one value of its last occurrence there afterwards, every other name keeps its values |
| HttpCacheUpdates.UpdateRefreshes | src/http/http_client_cache.cpp:127-145 | in every run that is what a 304 does to the entry it names, together with its clock and place, and nothing else |
| HttpCacheUpdates.UpdateOfGone | src/http/http_client_cache.cpp:127-133 | a 304 for an entry that is gone does nothing |
| HttpCacheUpdates.RevalidatedLifetime | src/http/http_client_cache.cpp:139-140 | the lifetime after a 304 with a max-age is that max-age, counted from the 304 |
| HttpCacheRuns.TrimmedLongest | src/http/http_client_cache.cpp:211-217 | what stays is a prefix within the limits, and no longer prefix is |
| HttpCacheRuns.StepKeeps | src/http/http_client_cache.cpp:63-217 | every operation keeps the cache invariant |
| HttpCacheRuns.CacheBounded | src/http/http_client_cache.cpp:195-217 | after every operation the byte count is the sum of the bodies, both limits hold and identifiers are distinct |
| HttpCacheRuns.EvictsLeastRecent | src/http/http_client_cache.cpp:195-217 | beyond replaced entries a store removes only entries used less recently than all that stay, and only when a limit forces it |
| HttpCacheHits.StoreThenLookup | src/http/http_client_cache.cpp:63-125 | a store followed by the same lookup selects the new entry when max_entries is at least 1 |
| HttpCacheKeys.KeyInjective | src/http/http_client_cache.cpp:152-165 | the primary key tells scheme, host, method and target apart when the scheme has no colon and neither host nor method a space |
| HttpCacheKeys.KeyAloneIff | src/http/http_client_cache.cpp:152-165 | a cacheable request shares its key with no other one, if and only if neither its host nor its target has a cacheable method in it, set off by spaces |
| HttpCacheKeys.SpacesClash | src/http/http_client_cache.cpp:152-165 | with spaces in the host two cacheable requests share a key |
| HttpCacheHits.OtherHostAnswers | src/http/http_client_cache.cpp:63-125 | in every reachable cache, a response stored for one host answers a lookup for another whose name goes on with a method and a target |
| HttpCacheHits.FreshHitSound | src/http/http_client_cache.cpp:63-101 | a fresh hit returns the body stored for the same scheme, host, method and target; the request agrees in the fields of the first Vary line the response was stored with, and in those of its Vary as it is now if the entry compares them; and exactly when the response is fresh in the sense of RFC 9111 |
| HttpCacheHits.VaryAgreesIff | src/http/http_client_cache.cpp:127-145 | every request that an entry matches agrees with the Vary of its response as it is now, if and only if that is not "*" and each of its fields is compared, up to case |
| HttpCacheHits.AddedVaryIgnored | src/http/http_client_cache.cpp:63-145 | a response stored without Vary, a 304 that adds one, and a request with another value of its field: a fresh hit that does not match |
| HttpCacheHits.OldestIsServed | src/http/http_client_cache.cpp:63-125 | the oldest possible response, stored with max-age=60, is a fresh hit a second later |
| HttpCacheHits.SlowIsServed | src/http/http_client_cache.cpp:63-125 | a response that took 100 seconds, stored with max-age=60, is a fresh hit a second later |
| TcpOutput.TcpConnection.SendRawInLoop | src/net/tcp_connection.cpp:314-354 | writes past an empty buffer, keeps the rest, turns write interest on; exactly when the write-complete and the high-water callbacks are queued |
| TcpOutput.TcpConnection.HandleWrite | src/net/tcp_connection.cpp:234-255 | writes from the buffer; on emptying it, and only then, turns interest off, queues the write-complete callback and completes a pending shutdown |
| TcpOutput.TcpConnection.ShutdownInLoop | src/net/tcp_connection.cpp:438-443 | half-closes only without write interest |
| TcpOutputRuns.OutputIsFifo | src/net/tcp_connection.cpp:97-354 | under any calls from any threads, short writes and refusals, bytes on the wire and in the buffer are the messages that were not lost, in the order they ran; write interest is on exactly when the buffer is not empty |
| TcpOutputRuns.LostIff | src/net/tcp_connection.cpp:97-120 | an accepted message, sent on the loop thread or queued by another, is lost, all of it, if and only if by the time it runs the connection is closed or half-closed, or nothing waits and the peer is gone; on the loop thread only the last can happen; nothing else loses anything |
| TcpOutputRuns.ShutdownOvertakes | src/net/tcp_connection.cpp:97-118 | a shutdown on the loop thread overtakes messages queued by other threads |
| TcpOutputRuns.DrainOvertakes | src/net/tcp_connection.cpp:97-255 | a shutdown behind a queued message of the same thread overtakes it when an earlier message drains in between |
| TcpOutputRuns.HalfCloseIsClean | src/net/tcp_connection.cpp:438-443 | at the half-close everything kept is on the wire, if and only if the connection was not closed with bytes still waiting |
| TcpOutputRuns.ClosedHalfCloses | src/net/tcp_connection.cpp:257-443 | a message written in part, a shutdown queued, and the peer closing before it runs: the half-close happens with the rest still waiting |
| TcpOutputRuns.HalfCloseIsFinal | src/net/tcp_connection.cpp:314-354 | nothing reaches the wire after it |
| TcpOutputRuns.CloseIsFinal | src/net/tcp_connection.cpp:257-269 | nothing reaches the wire after a close, by either side |
| TcpOutputRuns.ShutdownHappens | src/net/tcp_connection.cpp:112-118 | a shutdown is never forgotten |
| TcpOutputRuns.EventuallyWritten | src/net/tcp_connection.cpp:234-255 | writable events in which the socket takes any numbers of bytes move exactly those to the wire; the buffer is empty, and a shutdown completed, exactly when they add up to what waited |
| Base64.Base64Encode | src/websocket/websocket_handshake.cpp:20-34 | the loop computes the encoding of section 4 of RFC 4648 group by group |
| Base64.RoundTrip | src/websocket/websocket_handshake.cpp:20-34 | decoding undoes encoding for every length |
| Base64.EncodedLength | src/websocket/websocket_handshake.cpp:20-34 | four letters for every three bytes begun |
| Base64.Alphabet | src/websocket/websocket_handshake.cpp:17-18 | the alphabet in its order |
| Base64.GroupIs | src/websocket/websocket_handshake.cpp:20-34 | the bits of each letter and the padding |
| Sha1.ProcessBlock | src/websocket/websocket_handshake.cpp:50-97 | the schedule array and eighty rounds compute the compression of section 6.1 of RFC 3174 |
| Sha1.Sha1State.Update | src/websocket/websocket_handshake.cpp:99-114 | the block-filling loop |
| Sha1.Sha1State.Final | src/websocket/websocket_handshake.cpp:116-142 | padding in one or two blocks, then the digest |
| Sha1.StreamingIsSha1 | src/websocket/websocket_handshake.cpp:99-142 | update over any split followed by final is SHA-1 of the whole message, below 2^61 bytes |
| Sha1.ClosingPads | src/websocket/websocket_handshake.cpp:116-134 | closing the partial block is the padding of section 4 of RFC 3174 on the whole message |
| Sha1.WebSocketAcceptKey | src/websocket/websocket_handshake.cpp:170-177 | the accept key is the Base64 form of SHA-1 of key and magic, 28 characters |
| Sha1Example.Example | src/websocket/websocket_handshake.cpp:36-142 | the digest of "abc" is that of section 7.3 of RFC 3174, worked out round by round |
| CivilDates.ClosedForm | src/http/http_semantics.cpp:171-178 | the arithmetic by eras is the closed form of the calendar; no unsigned step wraps |
| CivilDates.ConsecutiveDays | src/http/http_semantics.cpp:171-178 | the day after has the next number, also across leap days, centuries and negative eras |
| CivilDates.Epoch | src/http/http_semantics.cpp:171-178 | 1970-01-01 is day 0 |
| CivilDates.DaysIncrease | src/http/http_semantics.cpp:171-178 | later dates have larger numbers |
| CivilDates.TimeIncreases | src/http/http_semantics.cpp:180-190 | make_time_utc never decreases on valid dates and accepted times, and two of them share a value exactly when the second is the start of the minute behind a second 60 |
| CivilDates.LeapSecondRepeats | src/http/http_semantics.cpp:180-190 | second 60 of any minute has the value of the second after it, across hours and days |
| HttpDates.MonthIndex | src/http/http_semantics.cpp:159-169 | the loop over the month names gives their number, or 0 |
| HttpDates.MonthNamed | src/http/http_semantics.cpp:159-169 | each month name gives its own number |
| HttpDates.FixDateReads | src/http/http_semantics.cpp:404-430 | any numbers with room in IMF-fixdate, second 60 and impossible dates among them, written in it read back as their time value or as none |
| DateForms.DateAccepted | src/http/http_semantics.cpp:404-430 | a text is taken for a date exactly when it has 29 characters, comma, space and GMT at their places, the name of a month, and numbers in their ranges; its value |
| DateForms.Unreadable | src/http/http_semantics.cpp:416-427 | with an unreadable number or month it is not |
| DateForms.IndexIs | src/http/http_semantics.cpp:159-169 | a month has a number exactly when it is written like the month of that number |
| DateForms.RangesAccepted | src/http/http_semantics.cpp:180-185 | only the ranges are checked |
| DateForms.RollsOver | src/http/http_semantics.cpp:171-190 | a day behind the end of its month is one of the next month |
| DateForms.Example | src/http/http_semantics.cpp:404-430 | the example of section 5.6.7 of RFC 9110 has its value |
| CivilDates.NoOverflow | src/http/http_semantics.cpp:171-178 | within five million years no int in the code overflows |

## Left out

- Sockets, poller, resolver, acceptor, connector: a write or read is an outcome chosen by the environment; a file is a byte sequence and a file error a chosen flag.
- TLS engine and permessage-deflate: foreign code; the compressed flag is opaque and TLS output enters the connection as sent messages.
- `HttpServer`, `HttpClient`, `WebSocketServer` and SOCKS5 glue: callback plumbing; body properties are stated for parser and context.
- The rules inside one multipart header block (Content-Disposition parameters, quoting): the two C++ files share them, so they are a parameter `readFields` and every multipart result holds for any such function; the boundary lookup in Content-Type is a parameter as well.
- The boolean that `append` returns after the multipart close delimiter plays no part in the results; callbacks and `finish()` are compared.
- Splitting a request target into path and query, peer addresses and receive times: not part of the message model.
- A refused HTTP message shows its error only; what had been read of it is not compared.
- HttpText.ParseU64: recursive functions stand for the small text loops (trimming, splitting, numerals), and `std::from_chars` is the numeral it must return.
- Reading a Cache-Control value, a Vary value or an HTTP date: parameters of the cache model; its results hold for any reading. `source` and validation header copies are kept only as far as lookups show them.
- Block reuse and the block cache of the upload pool, reserved file names, upload timeouts: they do not touch the bytes.
- Callbacks of watermarks and write completion run after the lock is released; only the transitions made under it are modelled. Timer callbacks are any additions and cancellations.
- ResponseProtocol.SentInOrder: assumes that the calls of one writer do not overlap; those of different writers interleave freely.
- ResponseStranding.LostIff: speaks of pieces with at least one byte, as the source renders them all; one without bytes would leave no trace to speak of.
- HttpFreshness.FreshRightIff: speaks of clock readings up to 292 years apart and of a max-age the code does not ignore; the conservative use of Date for the age, which section 4.2.3 of RFC 9111 allows, is not compared.
- HttpCacheUpdates.UpdateRefreshes: speaks of 304 fields as `HttpHeaders` keeps them, with names and values trimmed by `add` and `set`.
- HttpFreshness.AgeIff: signed 64-bit overflow, which C++ leaves undefined, is taken to wrap around in two's complement.
- `format_http_date` rests on the C library; the fixed form it prints is stated instead.
- Rendering of response heads: whatever bytes a response renders to are sent.
- `update` of identifiers, generations and sequence numbers past 2^64 is assumed not to be reached; a body limit within 2 of 2^64 is not modelled.
- CivilDates.TimeIncreases: time values are whole seconds; a system clock that counts 64-bit nanoseconds overflows after the year 2262.
- CivilDates.NoOverflow: years beyond five million, where the C++ int arithmetic overflows, are outside the correspondence with unbounded integers.
- Tables of status codes, methods and content types, router lookup, URL parsing, logging, thread pool: easy members.
