# nice-grpc: a verified model

A Dafny 4.11 model of the protocol code in nice-grpc, with proofs of what that code guarantees. The centre is the
receive path of the gRPC-Web client; around it stand the concurrent parts of the client and the server, and the pure
parts they rest on. `dafny verify dfyconfig.toml` checks everything.

| file | models |
|---|---|
| `Basics.dfy` | bytes, optional values, results, flattening |
| `Framing.dfy` | length-prefixed messages: prefix parser, frame printer, buffer concatenation, and the grammar of a byte stream as a unique list of blocks and a tail |
| `DecodeResponse.dfy` | the incremental decoder: a class with the source's flags and chunk buffer, its two loops proved against a one-shot parser |
| `DecodeTheorems.dfy` | chunking, conservation, round trip and delivery order over whole runs |
| `TrailerOrder.dfy`, `DecodeOutcomes.dfy` | what can be delivered after a trailer; what the next block or frame does, which error a run ends with, and the delivery of whole responses |
| `MetadataStore.dfy` | the metadata store, on contents and as an object whose value lists are updated in place and can be shared |
| `SharedStores.dfy` | any number of stores that share value lists: one call, and every sequence of calls and copies |
| `MetadataCodec.dfy`, `MetadataLines.dfy`, `Rfc4648.dfy` | the metadata printer and parser and their round trip; the parser on any text; Base64 |
| `Call.dfy`, `CallTheorems.dfy`, `WholeCalls.dfy` | trailer parsing, the closures around the decoder, how a call ends, the unary rule; whole calls from bytes to outcome |
| `WebResponse.dfy` | framing, codec, decoder and call outcome together |
| `AsyncSink.dfy` | a queue of items against a queue of waiting readers |
| `ReadableIterable.dfy` | a Node.js stream read through events as an async iterable |
| `ServerStreaming.dfy` | the driver of streaming server calls with its call context |
| `Terminator.dfy` | aborting opted-in calls at shutdown |
| `ConnectTimeout.dfy` | the connection attempt timeout |
| `Retry.dfy` | retries with jittered backoff |
| `Reflection.dfy` | symbol lookup in descriptors |
| `ErrorDetails.dfy` | rich error details as `Any` messages |
| `Middleware.dfy` | composition of middleware |

How the parts are modelled:

- An object or closure that updates variables is a class whose methods say, through a `View` of all its fields, which
  value-level function of the old state the new state is. The functions are what the theorems speak about.
- Concurrent code is a set of atomic steps, one for each stretch the event loop runs without interruption. A theorem
  about it holds in every state of every sequence of enabled steps.
- Code the repository calls but does not contain is a parameter: message codecs, Base64, conversion of status text,
  `decodeURIComponent`, random numbers, user callbacks. A callback may throw, and may decide so from everything that
  was delivered before.
- Laws assumed of such code: message codecs and Base64 are inverse pairs, `Math.random` is in [0, 1), the `waitForEvent`
  that a write waits with ends when the event fires or the signal is aborted and at no other time, an abort event
  fires once, and Node.js streams emit their events as the steps of `ReadableIterable` say.
- Text is ASCII. Message objects are never null or undefined.

Where the code does not have a property one might expect, the exact condition is proved and a concrete run given:

- data frames after a trailer (`ChunkingInvariance`, `EmptyChunkAfterTrailer`)
- messages after a trailer, in the same data frame (`LateMessageExactly`, `MessageAfterTrailer`)
- payloads of 2^32 bytes and more (`FramePrefix`, `RoundTrip` and `HugePayloadLost` in `Framing`)
- a list shared by several keys or stores (`CallAloneExactly`, `AppendedSharedExactly`, `AppendToCopy`, `KeysAlias`,
  `CopyAliases`)
- a stream closed early (`CompleteExactly`, `EarlyCloseTruncates`)
- a handler that fails to start: an abort and a header after the end (`AbortAfterEndExactly`, `LogInShape`,
  `FailedStartStaysArmed`)
- sockets that open late or stay tracked (`TornDownExactly`, `LateSocketSurvives`, `ConnectedSocketDestroyed`,
  `EstablishedSocketDestroyed`)
- a client abort that came before the call (`ClientAbortReaches`, `BornAbortedRunsOn`)
- a package name that is given as an empty string (`FullNamesExactly`, `EmptyPackageNeedsDot`)
- as many retried failures as `retryMaxAttempts` (`RetryLoop`, `TwoCallsWithMaximumOne`)
- raw `Any` details with the URL of a known type (`RoundTrip` and `RawComesBackTyped` in `ErrorDetails`)

Where documentation and code differ, the model follows the code. A timed-out attempt is said to be torn down; the code
destroys the sockets tracked at that moment. `retryMaxAttempts` is described as the maximum of all attempts, but its
default of 1 as a single retry; the code makes up to one call more than the maximum.

## Model

| member | source | states |
|---|---|---|
| Framing.ParseLpmHeader | packages/nice-grpc-web/src/client/framing.ts:26-42 | a prefix parses exactly when it has 5 bytes; an odd flag byte means compressed, one of 128 or more metadata, and the announced length is the big-endian number in the other four |
| Framing.Uint32Bytes | packages/nice-grpc-web/src/client/framing.ts:48 | the four length bytes read back as the length modulo 2^32, which is what `setUint32` stores |
| Framing.EncodeFrame | packages/nice-grpc-web/src/client/framing.ts:45-52 | the array filled in place holds a zero flag byte, the big-endian length and the payload |
| Framing.FramePrefix | packages/nice-grpc-web/src/client/framing.ts:26-52 | an encoded frame is one block exactly when its payload is shorter than 2^32 bytes; its flags are clear and its payload comes back |
| Framing.HugePayloadLost | packages/nice-grpc-web/src/client/framing.ts:45-52 | a payload of 2^32 bytes is announced as empty |
| Framing.ConcatBuffers | packages/nice-grpc-web/src/utils/concatBuffers.ts:2-20 | the result is the bytes of all buffers in order, with the one-buffer shortcut |
| Framing.Split | packages/nice-grpc-web/src/client/decodeResponse.ts:47-90 | reference parser: any byte string is a list of complete blocks followed by a tail that holds no complete block |
| Framing.SplitUnique | packages/nice-grpc-web/src/client/decodeResponse.ts:47-90 | the framing is unambiguous: no byte string has a second decomposition |
| Framing.SplitAppend | packages/nice-grpc-web/src/client/decodeResponse.ts:32-92 | the unfinished tail is all the parser has to carry from one piece of input to the next |
| Framing.RoundTrip | packages/nice-grpc-web/src/client/encodeRequest.ts:10-19 | framing a list of payloads and parsing it back is the identity exactly when every payload is shorter than 2^32 bytes |
| DecodeResponse.Decoder.constructor | packages/nice-grpc-web/src/client/decodeResponse.ts:22-33 | a new decoder has received nothing and waits for a 5-byte prefix |
| DecodeResponse.Decoder.HandleHeader | packages/nice-grpc-web/src/client/decodeResponse.ts:94-110 | header checks in order, then the flag is set and the header delivered |
| DecodeResponse.Decoder.HandleTrailer | packages/nice-grpc-web/src/client/decodeResponse.ts:112-120 | a second trailer is refused; otherwise the flag is set and the trailer delivered |
| DecodeResponse.Decoder.HandleBody | packages/nice-grpc-web/src/client/decodeResponse.ts:65-84 | what a complete block does: compressed refused, metadata as header or trailer, data only after a header |
| DecodeResponse.Decoder.TargetReached | packages/nice-grpc-web/src/client/decodeResponse.ts:59-89 | a full buffer is either a prefix, which is parsed, or the body of exactly one block, which is handled |
| DecodeResponse.Decoder.TakeChunk | packages/nice-grpc-web/src/client/decodeResponse.ts:48-89 | one turn of the inner loop moves bytes into the buffer or completes exactly one block; it makes progress by fewer bytes left or by an empty block handled |
| DecodeResponse.Decoder.TakeAll | packages/nice-grpc-web/src/client/decodeResponse.ts:47-90 | the inner loop ends with all bytes taken and the buffer below its target, or with an error, and what is still to do never changes |
| DecodeResponse.Decoder.HandleData | packages/nice-grpc-web/src/client/decodeResponse.ts:41-90 | the loop over one data frame ends, with the buffer strictly below its target, in the state that the reference parser gives for the pending bytes plus the new ones |
| DecodeResponse.Decoder.HandleFrame | packages/nice-grpc-web/src/client/decodeResponse.ts:36-91 | each kind of transport frame |
| DecodeResponse.Decoder.Run | packages/nice-grpc-web/src/client/decodeResponse.ts:35-92 | the whole generator over any list of transport frames, stopping at the first error, or ending with the error of the transport stream |
| DecodeTheorems.FeedSplit | packages/nice-grpc-web/src/client/decodeResponse.ts:41-90 | cutting one data frame in two changes nothing exactly when the first part does not complete a trailer |
| DecodeTheorems.ChunkingInvariance | packages/nice-grpc-web/src/client/decodeResponse.ts:32-92 | any cut into data frames gives the result of the one-shot parser on all the bytes, exactly when no data frame, not even an empty one, starts after a complete trailer; otherwise the run reports data after the trailer |
| DecodeTheorems.EmptyChunkAfterTrailer | packages/nice-grpc-web/src/client/decodeResponse.ts:41-45 | a run in which an empty data frame after a complete trailer fails the decoder |
| DecodeTheorems.AnyTwoCuts | packages/nice-grpc-web/src/client/decodeResponse.ts:32-92 | two cuts of the same bytes make no difference anywhere in a run, whatever frames surround them |
| DecodeTheorems.ConservesBytes | packages/nice-grpc-web/src/client/decodeResponse.ts:47-90 | bytes fed are completed blocks plus the pending tail, and the session is that of handling those blocks |
| DecodeTheorems.EveryBlockDelivered | packages/nice-grpc-web/src/client/decodeResponse.ts:47-90 | in a run without error every complete block has been delivered once, in order, as the header, trailer or message its payload decodes to, and none was compressed |
| DecodeTheorems.RoundTripAnyChunks | packages/nice-grpc-web/src/client/decodeResponse.ts:47-89 | encoded payloads, concatenated and cut anywhere, decode after a header to those payloads in order, with an empty prefix buffer at the end |
| DecodeTheorems.WholeResponse | packages/nice-grpc-web/src/client/decodeResponse.ts:32-92 | payload frames and a trailing block, cut anywhere with a non-empty last data frame, are received as if never cut |
| DecodeTheorems.FrameKeepsOrder | packages/nice-grpc-web/src/client/decodeResponse.ts:36-120 | one transport frame keeps the delivery order; a data frame after a trailer delivers nothing and fails |
| DecodeTheorems.RunKeepsOrder | packages/nice-grpc-web/src/client/decodeResponse.ts:35-120 | every run: a header only first, at most one trailer, messages only after a header, nothing delivered after a delivery threw, and nothing delivered is revoked |
| DecodeTheorems.HeaderAfterDataUnreachable | packages/nice-grpc-web/src/client/decodeResponse.ts:99-101 | data implies a header, so the check for a header after data never fires |
| TrailerOrder.FramesAfterTrailer | packages/nice-grpc-web/src/client/decodeResponse.ts:36-120 | once a trailer has been received every further transport frame is an error and delivers nothing |
| TrailerOrder.LateMessageExactly | packages/nice-grpc-web/src/client/decodeResponse.ts:41-90 | in every run a message follows a trailer exactly when one data frame holds the trailer block and after it a data block that is delivered |
| TrailerOrder.MessageAfterTrailer | packages/nice-grpc-web/src/client/decodeResponse.ts:47-90 | a data frame in which that happens, without an error |
| DecodeOutcomes.BlockOutcome | packages/nice-grpc-web/src/client/decodeResponse.ts:65-120 | the next block delivers exactly the event it stands for, told from the events so far and its bytes: metadata is the header if there was none and else the trailer; or it is refused, with the reason; always one or the other |
| DecodeOutcomes.RunFailsExactly | packages/nice-grpc-web/src/client/decodeResponse.ts:35-120 | a run fails, and with which of its errors, exactly when some frame or block is refused or its delivery throws |
| DecodeOutcomes.BytesDelivered | packages/nice-grpc-web/src/client/decodeResponse.ts:32-92 | whole blocks, cut anywhere, are delivered as the events they stand for, a header included, with nothing left pending |
| MetadataStore.ValidateAll | packages/nice-grpc-common/src/Metadata.ts:86-88 | a list passes exactly when each of its values does |
| MetadataStore.ApplyKeepsWellFormed | packages/nice-grpc-common/src/Metadata.ts:79-126 | on the contents of one store, with no list shared (for shared lists see `SharedStores.FollowsValid`): every call keeps keys lower case and legal, lists non-empty, text keys with one printable string and binary keys with binaries only |
| MetadataStore.ApplyAll | packages/nice-grpc-common/src/Metadata.ts:75-160 | so does every sequence of such calls; with shared lists see `SharedStores.RunValid` |
| MetadataStore.SetAllIsDeleteThenAppend | packages/nice-grpc-common/src/Metadata.ts:79-126 | setting a list of valid values leaves what deleting the key and appending the values one by one leaves |
| MetadataStore.AppendEachValidates | packages/nice-grpc-common/src/Metadata.ts:101-120 | appending the values one by one succeeds exactly when all are valid |
| MetadataStore.ValidatedExactly | packages/nice-grpc-common/src/Metadata.ts:166-190 | which keys, in either case, and values are accepted, and the error for the others |
| MetadataStore.CaseIgnored | packages/nice-grpc-common/src/Metadata.ts:162-164 | keys that differ in case only are the same |
| MetadataStore.SetThenGet | packages/nice-grpc-common/src/Metadata.ts:94-132 | after setting a value it is what `get` gives, and other keys are unchanged |
| MetadataStore.AppendThenGet | packages/nice-grpc-common/src/Metadata.ts:101-132 | after appending, a text key gives both texts with a comma and a space between them, a binary key its first value as before |
| MetadataStore.DeleteThenGet | packages/nice-grpc-common/src/Metadata.ts:122-132 | after deleting, the key gives nothing, and other keys are unchanged |
| MetadataStore.SetAllRefused | packages/nice-grpc-common/src/Metadata.ts:86-88 | a list is refused exactly when a value in it is invalid, with the error of the first such value |
| MetadataStore.Metadata.Set | packages/nice-grpc-common/src/Metadata.ts:94-98 | replaces the list, or changes nothing when the value is refused |
| MetadataStore.Metadata.SetAll | packages/nice-grpc-common/src/Metadata.ts:79-99 | replaces or deletes the list, or changes nothing; a binary key keeps the caller's own list, a text key a new one |
| MetadataStore.Metadata.Append | packages/nice-grpc-common/src/Metadata.ts:101-120 | pushes in place: under any sharing the store stays valid, every binary key that holds the list gets the value, and a text key gets a new list with the joined value |
| MetadataStore.AppendedSharedExactly | packages/nice-grpc-common/src/Metadata.ts:101-120 | an append changes only its own key exactly when no other key holds the list |
| MetadataStore.AppendedSharedWellFormed | packages/nice-grpc-common/src/Metadata.ts:101-120 | an append keeps contents well formed under any sharing between binary keys |
| MetadataStore.KeysAlias | packages/nice-grpc-common/src/Metadata.ts:79-120 | one list handed to two keys: a value appended under one appears under both |
| MetadataStore.Metadata.Delete | packages/nice-grpc-common/src/Metadata.ts:122-126 | removes the key and nothing else |
| MetadataStore.Metadata.Get | packages/nice-grpc-common/src/Metadata.ts:128-132 | the first value under the lower-case key, or none |
| MetadataStore.Copy | packages/nice-grpc-common/src/Metadata.ts:151-157 | a copy has the same contents and shares exactly the lists of binary keys |
| MetadataStore.AppendToCopy | packages/nice-grpc-common/src/Metadata.ts:101-157 | appending to a copy also changes the original exactly when the value is accepted for a binary key the original has, and then under every key that holds the list |
| MetadataStore.CopyAliases | packages/nice-grpc-common/src/Metadata.ts:101-157 | a run in which the original has a value that was only appended to its copy |
| SharedStores.CallContents | packages/nice-grpc-common/src/Metadata.ts:78-126 | what every one of any number of stores contains after one call on one of them, whatever lists they share |
| SharedStores.CallAloneExactly | packages/nice-grpc-common/src/Metadata.ts:78-126 | a call does to its store what it says and nothing to the others exactly when it is not an accepted append to a list that is held elsewhere |
| SharedStores.CopyContents | packages/nice-grpc-common/src/Metadata.ts:151-157 | a copy contains what the original does and leaves all other stores as they were |
| SharedStores.FollowsValid | packages/nice-grpc-common/src/Metadata.ts:75-160 | each call and copy keeps all stores valid and the lists of text keys unshared |
| SharedStores.RunValid | packages/nice-grpc-common/src/Metadata.ts:75-160 | so does every sequence of calls and copies, with the same list handed to any number of keys and stores |
| SharedStores.ListsOnlyGrow | packages/nice-grpc-common/src/Metadata.ts:101-120 | whoever holds a list only ever sees values added at its end |
| SharedStores.Perform | packages/nice-grpc-common/src/Metadata.ts:78-126 | a call on a store object changes bindings and lists as the step says |
| SharedStores.RunProgram | packages/nice-grpc-common/src/Metadata.ts:75-160 | every sequence of commands takes the store objects through a run: each world follows from the one before by its command, the first holds the caller's lists, and the last is what the objects and lists are |
| MetadataCodec.EncodeMetadata | packages/nice-grpc-web/src/client/transports/websocket.ts:116-141 | prints all pairs in order, or fails on the first pair with an invalid character |
| MetadataCodec.PrintOk | packages/nice-grpc-web/src/client/transports/websocket.ts:126-134 | printing succeeds exactly when every pair consists of valid characters, and then gives all the lines |
| MetadataCodec.PrintFails | packages/nice-grpc-web/src/client/transports/websocket.ts:124-134 | a failure names the first pair with an invalid character |
| MetadataCodec.DecodeLine | packages/nice-grpc-web/src/client/decodeMetadata.ts:10-31 | one line: skipped, refused without a colon, or its values appended under the trimmed lower-case key |
| MetadataCodec.DecodeItems | packages/nice-grpc-web/src/client/decodeMetadata.ts:24-27 | the comma-separated items of a binary value are appended in order |
| MetadataCodec.DecodeMetadata | packages/nice-grpc-web/src/client/decodeMetadata.ts:5-34 | the loop over the lines, ending at the first error; what it returns is always a well-formed store |
| MetadataCodec.LineRoundTrip | packages/nice-grpc-web/src/client/decodeMetadata.ts:15-30 | a printed pair reads back as itself with its text trimmed |
| MetadataCodec.RoundTrip | packages/nice-grpc-web/src/client/transports/websocket.ts:116-141 | for every well-formed store and every order of its entries, printing does not fail, and parsing the text gives the same keys, the same binary lists and the same texts trimmed |
| MetadataLines.TrimPadded | packages/nice-grpc-web/src/client/decodeMetadata.ts:21-22 | trimming takes exactly the white space around a text |
| MetadataLines.SplitLinesExactly | packages/nice-grpc-web/src/client/decodeMetadata.ts:10 | the lines are what stands between the line breaks |
| MetadataLines.SplitJoined | packages/nice-grpc-web/src/client/decodeMetadata.ts:25 | comma-free items that begin with no white space, joined with a comma and at most one white space each, are split into those items again |
| MetadataLines.OddLines | packages/nice-grpc-web/src/client/decodeMetadata.ts:11-19 | an empty line is skipped, and a line without a colon is refused |
| MetadataLines.DecodedInOrder | packages/nice-grpc-web/src/client/decodeMetadata.ts:10-31 | lines are decoded one after the other, and the first error ends it |
| MetadataLines.SpacedTextLine | packages/nice-grpc-web/src/client/decodeMetadata.ts:15-30 | a text line, with the key in any case and white space anywhere around key and text, appends its text |
| MetadataLines.SpacedBinaryLine | packages/nice-grpc-web/src/client/decodeMetadata.ts:15-28 | a line of a binary key with the encodings of any list of byte strings, spaced and spelled in any way, appends exactly those byte strings in order |
| Rfc4648.CodecLawful | packages/nice-grpc-web/src/client/decodeMetadata.ts:26 | padded Base64 as section 4 of RFC 4648 defines it satisfies what the round trip assumes of a Base64 codec |
| Rfc4648.DigitRanges | packages/nice-grpc-web/src/client/decodeMetadata.ts:26 | the ends of the ranges of the digits in Table 1 of RFC 4648 |
| Rfc4648.DigitOrder | packages/nice-grpc-web/src/client/decodeMetadata.ts:26 | within a range the digits follow one another |
| Call.ParseTrailerStore | packages/nice-grpc-web/src/client/parseTrailer.ts:11-49 | the errors in order, the decoded message, and a trailer without the status keys that is a new store |
| Call.StripStore | packages/nice-grpc-web/src/client/parseTrailer.ts:40-42 | deleting the status keys from a copy removes them there and changes nothing else |
| Call.CallClosures.HandleTrailer | packages/nice-grpc-web/src/client/makeCall.ts:34-51 | the trailer closure: ignored or refused after a trailers-only header, else status and message recorded and the user called |
| Call.CallClosures.OnHeader | packages/nice-grpc-web/src/client/makeCall.ts:111-121 | a header with a status is handled as a trailer, any other goes to the user |
| Call.Finish | packages/nice-grpc-web/src/client/makeCall.ts:127-156 | which error a finished call throws: recorded failure, request error, passed-on error, wrapped error, missing status |
| Call.MakeCall | packages/nice-grpc-web/src/client/makeCall.ts:85-156 | a driven call yields the decoder's messages and throws by those priorities, with the status and message the closures recorded |
| Call.UnaryMethod | packages/nice-grpc-web/src/client/createUnaryMethod.ts:46-68 | the loop over the messages: too many wins over everything, then the call's error, then a missing message |
| CallTheorems.UserCallsOnceInOrder | packages/nice-grpc-web/src/client/makeCall.ts:108-125 | whatever the transport delivers and the callbacks throw, the user sees at most one header and then at most one trailer |
| CallTheorems.StatusCarried | packages/nice-grpc-web/src/client/makeCall.ts:34-51 | a recorded status was sent by the server, in a trailers-only header or a trailer |
| CallTheorems.SuccessExactly | packages/nice-grpc-web/src/client/makeCall.ts:127-156 | a call succeeds exactly when decoding went through and the recorded status is OK, and then the server sent it |
| CallTheorems.UnaryResolvesExactly | packages/nice-grpc-web/src/client/createUnaryMethod.ts:46-68 | a unary call resolves with m exactly when decoding went through, gave just m, and the recorded status is OK |
| CallTheorems.ParseTrailerExactly | packages/nice-grpc-web/src/client/parseTrailer.ts:11-49 | status, message and remaining trailer, and the two errors, key by key |
| CallTheorems.RunRecorded | packages/nice-grpc-web/src/client/makeCall.ts:34-51 | the status and message recorded are those of a header that carries a status, or else of the trailer |
| CallTheorems.CallbackExactly | packages/nice-grpc-web/src/client/makeCall.ts:34-125 | what each delivery passes to the user's callbacks and what it throws |
| CallTheorems.ThrownExactly | packages/nice-grpc-web/src/client/makeCall.ts:127-156 | what a call throws: the failure the server sent; else, after an error, the request's own error, or client and abort errors as they are, or any other error as INTERNAL; else UNKNOWN if no status came |
| CallTheorems.TransportFailure | packages/nice-grpc-web/src/client/makeCall.ts:85-106 | a transport failure after no other error is passed on if it is an abort and becomes a transport error otherwise |
| CallTheorems.UnaryExactly | packages/nice-grpc-web/src/client/createUnaryMethod.ts:46-68 | two messages or more are an error; else the error of the call; else a missing message is one |
| WholeCalls.WholeCall | packages/nice-grpc-web/src/client/makeCall.ts:85-156 | from bytes to outcome, with header and trailer as frames or in the data, cut anywhere: all messages in order, the callbacks in order, success on status OK and the server's status and message otherwise |
| WholeCalls.WholeUnary | packages/nice-grpc-web/src/client/createUnaryMethod.ts:46-68 | a unary call with such an answer: what it resolves with or which error it throws |
| WholeCalls.TrailersOnlyCall | packages/nice-grpc-web/src/client/makeCall.ts:34-125 | a header with a status is the whole answer: it decides how the call ends, and a trailer with content after a status of OK is an error |
| WebResponse.TrailerText | packages/nice-grpc-web/src/client/transports/websocket.ts:116-141 | a trailer store always prints, to valid characters that parse back to it, trimmed |
| WebResponse.PrintedTrailerDecides | packages/nice-grpc-web/src/client/makeCall.ts:85-156 | from bytes to outcome with header and trailer printed from any well-formed stores, in any order of their entries, where they travel in the data |
| WebResponse.OkTrailerSucceeds | packages/nice-grpc-web/src/client/makeCall.ts:108-156 | such answers exist for every list of messages and with real Base64: an ordinary OK trailer makes the call yield them all and succeed |
| AsyncSink.AsyncSink.Push | packages/nice-grpc-web/src/utils/AsyncSink.ts:44-59 | an item goes to the longest-waiting reader, else to the queue, and is ignored after the end |
| AsyncSink.AsyncSink.Next | packages/nice-grpc-web/src/utils/AsyncSink.ts:61-78 | a reader gets the oldest item, else done after the end, else waits |
| AsyncSink.AsyncSink.End | packages/nice-grpc-web/src/utils/AsyncSink.ts:80-85 | the loop settles every waiting reader with done |
| AsyncSink.Run | packages/nice-grpc-web/src/utils/AsyncSink.ts:22-86 | after every interleaving of calls the two queues hold exactly the surplus of items over readers or of readers over items |
| AsyncSink.SettledInOrder | packages/nice-grpc-web/src/utils/AsyncSink.ts:44-85 | the k-th `next` gets the k-th item pushed before the first `end`, else done once ended, else waits; queued items and waiting readers never coexist |
| AsyncSink.SettledForever | packages/nice-grpc-web/src/utils/AsyncSink.ts:44-85 | a settled promise is never settled again |
| ReadableIterable.StreamIterator.OnReadable | packages/nice-grpc/src/utils/readableToAsyncIterable.ts:50-57 | an event resolves the waiting promise, if there is one |
| ReadableIterable.StreamIterator.OnError | packages/nice-grpc/src/utils/readableToAsyncIterable.ts:71-75 | the error is stored and flagged before the wake-up |
| ReadableIterable.StreamIterator.OnEnd | packages/nice-grpc/src/utils/readableToAsyncIterable.ts:76-79 | the end is flagged before the wake-up |
| ReadableIterable.StreamIterator.OnClose | packages/nice-grpc/src/utils/readableToAsyncIterable.ts:80-83 | the close is flagged before the wake-up |
| ReadableIterable.StreamIterator.Poll | packages/nice-grpc/src/utils/readableToAsyncIterable.ts:85-103 | one turn of the loop: chunk, then error, then end, then close, else wait |
| ReadableIterable.RunInv | packages/nice-grpc/src/utils/readableToAsyncIterable.ts:48-103 | the invariant of all runs of generator, handlers and stream |
| ReadableIterable.NoLostWakeUp | packages/nice-grpc/src/utils/readableToAsyncIterable.ts:85-103 | a waiting generator has been told nothing yet, and once the stream has something to report an event is on its way that wakes it |
| ReadableIterable.PollExactly | packages/nice-grpc/src/utils/readableToAsyncIterable.ts:85-103 | one turn of the loop, told from what the stream has and has emitted: a chunk first, then the error of the latest `error` event, then an end or close, else it waits |
| ReadableIterable.YieldsWhatArrived | packages/nice-grpc/src/utils/readableToAsyncIterable.ts:85-103 | what is yielded is what arrived, in order; an emitted error is never hidden by a normal finish, and is thrown as it is or as the cause of an abort |
| ReadableIterable.CompleteExactly | packages/nice-grpc/src/utils/readableToAsyncIterable.ts:85-103 | a normal finish is complete exactly when the stream was not destroyed while it still had chunks buffered |
| ReadableIterable.EarlyCloseTruncates | packages/nice-grpc/src/utils/readableToAsyncIterable.ts:86-99 | a run in which that happens: a stream closed early without an error ends normally and drops buffered chunks |
| ServerStreaming.CallDriver.constructor | packages/nice-grpc/src/server/createCallContext.ts:20-45 | a call cancelled before the handler runs starts aborted and disarmed |
| ServerStreaming.CallDriver.SendHeader | packages/nice-grpc/src/server/createCallContext.ts:53-62 | header metadata at most once, and only if there is any |
| ServerStreaming.CallDriver.OnYield | packages/nice-grpc/src/server/handleServerStreamingCall.ts:68-83 | a yielded value is written after the header; a full buffer waits, an error goes to the generator |
| ServerStreaming.CallDriver.OnReturn | packages/nice-grpc/src/server/handleServerStreamingCall.ts:90-110 | a returned message is thrown back, otherwise the call ends after disarming and the header |
| ServerStreaming.CallDriver.OnThrow | packages/nice-grpc/src/server/handleServerStreamingCall.ts:102-120 | an error ends the call after disarming and the header |
| ServerStreaming.CallDriver.OnCancelled | packages/nice-grpc/src/server/createCallContext.ts:41-44 | cancellation aborts once, if still armed, and interrupts a waiting write |
| ServerStreaming.CallDriver.Perform | packages/nice-grpc/src/server/handleServerStreamingCall.ts:56-122 | one turn, whatever happens next: each answer and event does to the object what the step of the state machine says |
| ServerStreaming.LogInShape | packages/nice-grpc/src/server/handleBidiStreamingCall.ts:57-126 | over every interleaving the call sees the header at most once and first, exactly the yielded values in order, and one ending; the header follows the ending exactly when the handler failed to start without having sent it and it is asked for afterwards |
| ServerStreaming.SignalExactly | packages/nice-grpc/src/server/createCallContext.ts:32-45 | the signal is aborted exactly when the call was cancelled from the start, or a cancellation came before close, finish, and the end of the generator |
| ServerStreaming.AbortAfterEndExactly | packages/nice-grpc/src/server/handleServerStreamingCall.ts:102-105 | the signal becomes aborted after the call has ended exactly when the handler failed to start and a cancellation then comes before close and finish |
| ServerStreaming.FailedStartStaysArmed | packages/nice-grpc/src/server/handleServerStreamingCall.ts:56-64 | a run in which both exceptions happen: the handler throws before it is a generator, then the signal is aborted and the header is sent |
| ServerStreaming.WaitsExactly | packages/nice-grpc/src/server/handleServerStreamingCall.ts:74-83 | a waiting write goes on waiting exactly until `drain`, or a cancellation before close and finish |
| ServerStreaming.ResumedExactly | packages/nice-grpc/src/server/handleServerStreamingCall.ts:64-120 | how each answer and event leaves the driver: what the generator is resumed with, or that a write waits, or that the call has ended |
| ServerStreaming.LastActionExactly | packages/nice-grpc/src/server/createErrorStatusObject.ts:11-35 | the last thing done to the call: the value yielded is written, a return ends it, and an error ends it with the status and details of a server error, CANCELLED for an abort, UNKNOWN for anything else |
| ServerStreaming.Drive | packages/nice-grpc/src/server/handleServerStreamingCall.ts:56-122 | fed with any list of answers and events, the object goes through a run of the state machine, so the theorems on runs hold of it |
| Terminator.TerminatorMiddleware.AbortOnTerminate | packages/nice-grpc-server-middleware-terminator/src/index.ts:51-57 | opting in registers the call, or aborts it if the server is already terminated |
| Terminator.TerminatorMiddleware.OuterAborts | packages/nice-grpc-server-middleware-terminator/src/index.ts:41-45 | a client abort reaches the inner signal while the call runs |
| Terminator.TerminatorMiddleware.Terminate | packages/nice-grpc-server-middleware-terminator/src/index.ts:72-84 | the loop aborts every registered call once and empties the set |
| Terminator.TerminatorMiddleware.Finish | packages/nice-grpc-server-middleware-terminator/src/index.ts:59-68 | a finished call is unregistered; a failure becomes UNAVAILABLE when only the inner signal is aborted |
| Terminator.RunInv | packages/nice-grpc-server-middleware-terminator/src/index.ts:31-86 | the invariant of all interleavings, with opting in and terminating tied to the calls made |
| Terminator.TerminateReachesAll | packages/nice-grpc-server-middleware-terminator/src/index.ts:72-84 | after terminate every running call that opted in, before or after, is aborted and nothing stays registered |
| Terminator.OthersUntouched | packages/nice-grpc-server-middleware-terminator/src/index.ts:41-57 | a call that never opts in is aborted only if its client aborted it |
| Terminator.UnavailableExactly | packages/nice-grpc-server-middleware-terminator/src/index.ts:59-65 | UNAVAILABLE exactly for terminated, opted in, and not aborted by the client |
| Terminator.InnerAbortedExactly | packages/nice-grpc-server-middleware-terminator/src/index.ts:39-84 | the inner signal is aborted exactly by the first client abort while the call runs, by terminate while it is registered, or by opting in after terminate |
| Terminator.RegisteredExactly | packages/nice-grpc-server-middleware-terminator/src/index.ts:51-68 | the controllers kept are exactly those of calls that have opted in and not finished since, until terminate |
| Terminator.ClientAbortReaches | packages/nice-grpc-server-middleware-terminator/src/index.ts:45 | a client abort reaches a running call exactly when it came after the call started, or terminate did |
| Terminator.BornAbortedRunsOn | packages/nice-grpc-server-middleware-terminator/src/index.ts:45 | a run in which a client abort came first and the inner signal is never aborted |
| ConnectTimeout.Connector.Settle | packages/nice-grpc/src/client/connectTimeoutPatch.ts:131-141 | a settled attempt goes to the caller and clears the timer, or its transport is shut down |
| ConnectTimeout.Connector.TimerFires | packages/nice-grpc/src/client/connectTimeoutPatch.ts:146-159 | the loop destroys every tracked socket and the caller gets the timeout |
| ConnectTimeout.OneOutcome | packages/nice-grpc/src/client/connectTimeoutPatch.ts:165-167 | a caller's outcome never changes |
| ConnectTimeout.OutcomeExactly | packages/nice-grpc/src/client/connectTimeoutPatch.ts:111-168 | what the caller gets and what is shut down, told from how the attempt settled and whether its timer had fired |
| ConnectTimeout.AttemptsSettleOnce | packages/nice-grpc/src/client/connectTimeoutPatch.ts:111-168 | a waiting caller's timer is armed; a transport is returned or shut down, never both, and shut down only after the timeout |
| ConnectTimeout.TrackedExactly | packages/nice-grpc/src/client/connectTimeoutPatch.ts:95-109 | an opened socket is tracked exactly until it closes or any timer of the connector fires |
| ConnectTimeout.DestroyedExactly | packages/nice-grpc/src/client/connectTimeoutPatch.ts:95-159 | an opened socket has been destroyed exactly when a timer has fired since, before it closed |
| ConnectTimeout.TimeoutDestroys | packages/nice-grpc/src/client/connectTimeoutPatch.ts:146-159 | a firing timer destroys exactly the sockets opened before, that have not closed and that no timer has destroyed, and leaves none tracked |
| ConnectTimeout.TornDownExactly | packages/nice-grpc/src/client/connectTimeoutPatch.ts:93-109 | a socket of a timed-out attempt stays open and tracked exactly when it opened after the timeout, has not closed, and no timer has fired since |
| ConnectTimeout.ConnectedSocketDestroyed | packages/nice-grpc/src/client/connectTimeoutPatch.ts:95-168 | a socket that is open when its attempt succeeds is destroyed exactly when the timer of another attempt fires before it closes |
| ConnectTimeout.LateSocketSurvives | packages/nice-grpc/src/client/connectTimeoutPatch.ts:95-109 | a run in which a socket opens after its own attempt has timed out and is not destroyed |
| ConnectTimeout.EstablishedSocketDestroyed | packages/nice-grpc/src/client/connectTimeoutPatch.ts:149-157 | a run in which the socket of an attempt that succeeded is destroyed by a later attempt's timeout |
| Retry.RetryLoop | packages/nice-grpc-client-middleware-retry/src/index.ts:99-124 | at most maxAttempts + 1 calls, or any number without a maximum; more than maxAttempts exactly when that many have failed and been retried; the result is that of the first call that succeeds or may not be retried, unless `onRetryableError` throws or the wait is aborted |
| Retry.TwoCallsWithMaximumOne | packages/nice-grpc-client-middleware-retry/src/index.ts:99-124 | a run with a maximum of one attempt and two calls |
| Retry.DelayBounds | packages/nice-grpc-client-middleware-retry/src/index.ts:114-118 | each wait is between half the backoff and the backoff |
| Retry.BackoffGrows | packages/nice-grpc-client-middleware-retry/src/index.ts:114-117 | backoffs never decrease and never exceed the maximum |
| Retry.BackoffDoubles | packages/nice-grpc-client-middleware-retry/src/index.ts:114-117 | the backoff starts at the base and doubles until it reaches the maximum |
| Retry.DelayNearest | packages/nice-grpc-client-middleware-retry/src/index.ts:118 | a wait is the whole number nearest to the backoff times a factor drawn evenly from one half to one |
| Retry.RetryableExactly | packages/nice-grpc-client-middleware-retry/src/index.ts:103-111 | a call is retried exactly on a retryable status with attempts left, never on an abort or another error |
| Retry.TotalDelay | packages/nice-grpc-client-middleware-retry/src/index.ts:114-122 | after k waits the total is at most k times the maximum and at most the base times 2^k - 1 |
| Reflection.MessageSound | packages/nice-grpc-server-reflection/src/index.ts:138-160 | a message that matches declares the symbol at some depth |
| Reflection.MessageComplete | packages/nice-grpc-server-reflection/src/index.ts:138-160 | a message that declares the symbol at any depth matches |
| Reflection.FindSymbolExact | packages/nice-grpc-server-reflection/src/index.ts:105-166 | the search succeeds exactly on the full names declared in the file, at any depth, after a dot if the package name is empty, and returns the first direct child that declares the symbol |
| Reflection.FullNamesExactly | packages/nice-grpc-server-reflection/src/index.ts:119-123 | symbols are found by exactly their full names unless the package name is empty and the file declares anything |
| Reflection.EmptyPackageNeedsDot | packages/nice-grpc-server-reflection/src/index.ts:119-123 | a file with an empty package name whose message is found only after a dot |
| Reflection.AnswersFirstDeclaringFile | packages/nice-grpc-server-reflection/src/index.ts:202-229 | the answer is the first declaring file, and NOT_FOUND exactly when there is none |
| ErrorDetails.FindByUrl | packages/nice-grpc-error-details/src/ErrorDetails.ts:54-56 | the search by URL finds a known name after a slash, or there is none |
| ErrorDetails.EncodeErrorDetails | packages/nice-grpc-error-details/src/ErrorDetails.ts:67-84 | encoding succeeds exactly when every typed detail is of a known type |
| ErrorDetails.EncodedExactly | packages/nice-grpc-error-details/src/ErrorDetails.ts:67-84 | the URL and bytes of an encoded detail, and the error for an unknown type |
| ErrorDetails.FirstUnknown | packages/nice-grpc-error-details/src/ErrorDetails.ts:74-76 | the error names the first detail of an unknown type |
| ErrorDetails.DecodedExactly | packages/nice-grpc-error-details/src/ErrorDetails.ts:52-64 | an `Any` is decoded by a known type that its URL ends with, or left as it is if there is none |
| ErrorDetails.DispatchExact | packages/nice-grpc-error-details/src/ErrorDetails.ts:54-56 | the URL of an encoded detail selects exactly its type |
| ErrorDetails.RoundTrip | packages/nice-grpc-error-details/src/ErrorDetails.ts:52-84 | decoding what was encoded gives the same details exactly when no raw `Any` has the URL of a known type |
| ErrorDetails.RawComesBackTyped | packages/nice-grpc-error-details/src/ErrorDetails.ts:52-84 | a raw `Any` of a known type that comes back as a typed detail |
| Middleware.ComposeExtensional | packages/nice-grpc-common/src/server/composeServerMiddleware.ts:4-29 | a composition can again only use `next` by calling it |
| Middleware.ServerAssociative | packages/nice-grpc-common/src/server/composeServerMiddleware.ts:4-29 | grouping does not matter on the server |
| Middleware.ClientAssociative | packages/nice-grpc-common/src/client/composeClientMiddleware.ts:4-29 | grouping does not matter on the client |
| Middleware.ServerOrder | packages/nice-grpc/src/server/Server.ts:157-162 | on the server the first-attached middleware is outermost, for any list, even when requests are replaced or `next` is called repeatedly |
| Middleware.ClientOrder | packages/nice-grpc/src/client/ClientFactory.ts:82-89 | on the client the last-attached middleware is outermost |

## Left out

- Transports, channels, servers and timers: only the events they deliver and the calls made on them appear. The header
  conversion of the fetch and node transports depends on how the platform folds headers.
- The consumer of a call stopping early: calls are driven to completion. Aborts appear as what the transport throws.
- The call's own check of an already aborted signal, and the metadata it adds to the request.
- When a request error is recorded relative to the response: it is a parameter, present or absent when the call ends.
- Text outside ASCII, the conversion of a status text to a number, and a byte order mark before a metadata block.
- The order in which a store iterates over its keys: the codec theorem holds for every order instead.
- Changes a caller makes to an array after handing it to a store, or to one obtained from it. Lists shared between
  stores and keys are modelled.
- MetadataCodec.DecodeMetadata: works on the contents of the store it builds, not on a store object; nobody else can
  reach that object before it is returned.
- ServerStreaming.Drive: covers every finite list of answers and events; the loop of the source has no bound, since a
  generator may yield forever.
- Call.MakeCall: the closures are called with what the decoder delivered once it is done, not between deliveries; the
  decoder itself is told by a function of the deliveries which of them throws.
- ServerStreaming.CallDriver.OnYield: header metadata that the transport refuses to send is not covered, here or at the
  end of the call; nor are errors while the trailer is converted.
- ReadableIterable.RunInv: what Node.js guarantees about `readable`, `end`, `error` and `close` events is stated as the
  enabled steps of the stream; streams that never emit `close` after destruction are not part of this model.
- Several connectors: each has its own sockets, so one is modelled. A timeout of zero or less passes the attempt through.
- Retry.RetryLoop: is watched for any finite number of calls, because without a maximum it may never end.
- Rfc4648.CodecLawful: is about the encoding the RFC defines; the library the repository uses for it is not part of this
  model.
- Extension and file-name lookup in reflection, and reading descriptors from bytes: each file's bytes are given. Which
  files report an empty package name is up to the generated getter, which is not part of this model.
- Middleware is a function of the call it is given; a middleware that keeps state between calls is not covered.
- Health checks, deadlines, devtools, metrics, tracing, service-definition adapters and option plumbing: easy members.
