# Sidecar protocol and runtime

A Dafny model of the sidecar side of the adapter SDK, and proofs of what it promises. The
modules follow the program's structure:

- `Frame`, `Transport`, `Channel`: the 20-byte frame header, the Unix-socket server as a class
  over abstract socket outcomes, and what the two ends of a connection make together.
- `JsonScan`, `JsonGrammar`, `JsonTokens`, `JsonMembers`, `Utf8`, `JsonString`, `Escapes`,
  `JsonNumber`, `JsonPrint`, `Envelope`: the hand-written scanner, decoder and printer, against parse trees of
  RFC 8259, the looser trees the scanner reads, and the byte sequences of RFC 3629.
- `Outbox`, `Dispatcher`: the bounded send queue as a system of atomic steps, and as the object
  that is flushed into a connection.
- `Backend`, `ExecutionBackend`: one worker thread, its queue and the registry of abandoned
  threads, as a step system and as classes.
- `Host`, `HostRuns`, `Lifetime`, `Results`, `HostObject`: the host thread, any number of workers
  and the path of each command result; object lifetime and exactly-one-result over all
  interleavings.
- `Requests`, `Renderings`, `EndToEnd`, `Dialogue`: decoding a request frame however it was
  rendered; the host, its workers, the queue and the connection as one system; and that system
  with the peer's messages as the only source of its requests.
- `Budget`, `LogFilter`, `Color`, `ColorReference`, `Gamma`: the shutdown deadline, the compiled log
  filter, and the colour conversions over ideal reals.
- `Golden`: recorded wire texts, letter by letter.

How to read it. Code that loops or updates fields is a method or a class whose `ensures` ties it to
a function of its inputs or old state; the theorems are lemmas about those functions. Socket and
timing outcomes are parameters: a read or write script lists what each system call returns, and
every timed wait may end at any time, its branch being decided by what it finds. Each region under
a mutex, and each socket call, is one atomic step. One thread polls, and one controller (the host
thread) starts and stops backends.

Results worth knowing before relying on the code:

- Connection callbacks alternate in every run of the host, which never sends from inside a poll.
  At the level of the transport alone they do not: if a frame handler's own send closes the
  connection and a new client is accepted in the same poll, two connects come in a row.
  `RunKeepsExactly` is the exact condition over whole runs and `HandlerCloseThenAccept` the case.
- No worker touches a destroyed instance, except after a start that neither the start wait nor the
  stop wait outlasted: that rollback destroys the instance before its start hook has finished. `ObjectLifetime` is an if-and-only-if; `BlockedStartIsDestroyed` is the case.
- The two 50 ms floors cost nothing from exactly 123 ms per instance on; `InstancesFitExactly` is
  an if-and-only-if, and `StopFitsExactly` is one for the whole stop of the host.
- The scanner takes more than RFC 8259: a plus sign, leading zeros, and numbers such as `1.` and
  `e5`; the object parser ignores what follows the closing brace. `ScannerExact` and `ParserExact`
  say exactly what they take.
- A double that prints without point and exponent, such as 1.0, comes back as an integer of the
  same value. `ScalarRoundTrip` says when.
- The two gamma thresholds do not meet: a channel between 12.92 * 0.0031308 and 0.04045 comes back
  smaller. `GammaRoundTrip` is an if-and-only-if.
- A teardown comment speaks of a detached thread
  (src/sidecar.cpp:4063-4071); the code hands the thread to the registry instead
  (src/sidecar.cpp:393-409), and the model follows the code.

## Model

| member | source | states |
|---|---|---|
| `Frame.HeaderRoundTrip` | include/phi/adapter/v1/frame.h:26-37 | decoding the 20 little-endian bytes of a packed header gives every field back |
| `Frame.HeaderInverse` | include/phi/adapter/v1/frame.h:26-37 | any 20 bytes are the encoding of the header they decode to |
| `Frame.GuardIsExact` | include/phi/adapter/v1/frame.h:21-24 | a frame survives its own stream if and only if its payload is within the size limit |
| `Frame.ParseAppend` | src/linux/uds_epoll_transport.cpp:257-297 | parsing more bytes continues from the leftover; a bad header stays the end |
| `Frame.LeftoverIsShort` | src/linux/uds_epoll_transport.cpp:257-297 | what a parse leaves holds no further frame and is shorter than one maximal frame |
| `Frame.ParsePrefix` | src/linux/uds_epoll_transport.cpp:257-297 | any cut of an encoded stream parses to a prefix of its frames and never to a bad header |
| `Frame.WireLayout` | include/phi/adapter/v1/frame.h:26-37 | the bytes of a sent frame: `PHIA`, version 1, class, no flags, size and id least significant byte first, payload |
| `Frame.FirstFrame` | src/linux/uds_epoll_transport.cpp:257-286 | byte by byte: a header with other magic, version or more than 2097152 bytes is bad whatever follows, any other begins a frame of the class, id and size its bytes name |
| `Transport.GatherIsArrived` | src/linux/uds_epoll_transport.cpp:232-256 | what a batch brings is the bytes of the reads before the one that ends it, in the order read, signals bringing nothing; that read says why it ended |
| `Channel.ReadsThatEnd` | src/linux/uds_epoll_transport.cpp:242-254 | a peer that closes and a read that fails end the connection with nothing of the batch delivered; only the failure is an error |
| `Channel.ReadsOfBadHeader` | src/linux/uds_epoll_transport.cpp:266-271 | a foreign header ends the connection and is an error |
| `Channel.ReadsThatGoOn` | src/linux/uds_epoll_transport.cpp:257-300 | a batch that leaves more to come keeps the client, and is an error only for a bad header |
| `Transport.WriteFailsExactly` | src/linux/uds_epoll_transport.cpp:302-354 | a write fails if and only if, before its bytes were taken, a step fails, sends nothing, or finds the clock expired, a hang-up or a failed poll |
| `Transport.WriteStops` | src/linux/uds_epoll_transport.cpp:302-354 | a failed write leaves exactly the bytes reported until then on the wire |
| `Transport.WriteCompletes` | src/linux/uds_epoll_transport.cpp:302-354 | a write whose partial sends add up to its size succeeds with exactly those steps |
| `Transport.SendFailsExactly` | src/linux/uds_epoll_transport.cpp:356-387 | a send fails if and only if the header is given up, or the payload by the steps after those the header needed |
| `Transport.SendSucceeds` | src/linux/uds_epoll_transport.cpp:356-387 | a send whose steps all go on puts the whole frame on the wire and keeps the client |
| `Channel.SendAllSucceeds` | src/linux/uds_epoll_transport.cpp:356-387 | so do any number of sends, whatever the partial writes |
| `Transport.WriteOutcome` | src/linux/uds_epoll_transport.cpp:302-354 | a write succeeds if and only if every byte was taken, whatever the partial writes |
| `Transport.UdsEpollServer.WriteAll` | src/linux/uds_epoll_transport.cpp:302-354 | the loop appends exactly the accepted part of the data to the wire |
| `Transport.UdsEpollServer.Send` | src/linux/uds_epoll_transport.cpp:356-387 | header then payload; a torn frame closes the connection with a notice to come |
| `Transport.UdsEpollServer.FillBuffer` | src/linux/uds_epoll_transport.cpp:232-256 | reads append in order until the socket would block, ends or fails |
| `Transport.UdsEpollServer.DispatchFrames` | src/linux/uds_epoll_transport.cpp:257-286 | the cursor loop delivers the frames of one parse, stopping when a handler closes or a header is bad |
| `Transport.UdsEpollServer.Compact` | src/linux/uds_epoll_transport.cpp:288-297 | one compaction per batch drops exactly what the cursor passed |
| `Transport.UdsEpollServer.ReadClient` | src/linux/uds_epoll_transport.cpp:232-300 | cursor and batched compaction refine erasing each frame at the front |
| `Transport.UdsEpollServer.AcceptClient` | src/linux/uds_epoll_transport.cpp:185-230 | a new client replaces the old one, with its disconnect first; failed setup leaves none |
| `Transport.UdsEpollServer.CloseClient` | src/linux/uds_epoll_transport.cpp:389-401 | closing forgets buffer and pending notice and announces at once |
| `Transport.UdsEpollServer.CloseClientDeferred` | src/linux/uds_epoll_transport.cpp:403-415 | the deferred close leaves exactly one notice if a client was held |
| `Transport.UdsEpollServer.PollOnce` | src/linux/uds_epoll_transport.cpp:417-479 | pending notice first, then the events in order until one fails |
| `Channel.AcceptOutcomes` | src/linux/uds_epoll_transport.cpp:185-230 | only a connection that was set up takes the place of the old one, whose end is told first |
| `Channel.ClientOutcomes` | src/linux/uds_epoll_transport.cpp:417-479 | events for a descriptor no longer held change nothing; a hang-up ends the connection unread |
| `Channel.EventsStop` | src/linux/uds_epoll_transport.cpp:417-479 | events behind one that fails are not looked at |
| `Channel.PendingFirst` | src/linux/uds_epoll_transport.cpp:389-420 | a poll tells of a connection lost in a send before anything else, once |
| `Channel.RunIsClean` | src/linux/uds_epoll_transport.cpp:390-415 | over any run nothing buffered survives its connection |
| `Channel.ChunkInvariance` | src/linux/uds_epoll_transport.cpp:257-297 | however the stream is split into reads, frames and leftover are those of one parse |
| `Channel.WireIsFramesThenTorn` | src/linux/uds_epoll_transport.cpp:302-387 | whole frames, then at most one torn frame, after which no client is left |
| `Channel.ChannelIsFifo` | src/linux/uds_epoll_transport.cpp:232-415 | for any partial writes and any chunking the peer gets a prefix of the frames, intact and in order |
| `Channel.SendKeeps` | src/linux/uds_epoll_transport.cpp:356-415 | a failed send leaves no client, and callbacks stay in step |
| `Channel.PollKeepsExactly` | src/linux/uds_epoll_transport.cpp:417-479 | a poll keeps callbacks alternating if and only if no accept falls between a handler's close and its notice |
| `Channel.HandlerCloseThenAccept` | src/linux/uds_epoll_transport.cpp:185-230 | the input for which alternation fails |
| `Channel.RunKeepsExactly` | src/linux/uds_epoll_transport.cpp:356-479 | any run of polls and sends keeps callbacks in step if and only if none of its polls accepts a connection before it announced the end of the last; out of step is for good |
| `Channel.CallbacksAlternate` | src/linux/uds_epoll_transport.cpp:185-230 | over a session of the host callbacks alternate, one connect outstanding exactly while a client or notice is held |
| `JsonScan.SkipStringToken` | src/sidecar.cpp:511-535 | the loop succeeds exactly when a string token is there and stops after it; in bounds on any input |
| `JsonScan.SkipNumberToken` | src/sidecar.cpp:537-565 | likewise for numbers, sign, fraction and exponent |
| `JsonScan.SkipArrayToken` | src/sidecar.cpp:567-600 | likewise for arrays, recursively |
| `JsonScan.SkipObjectToken` | src/sidecar.cpp:602-645 | likewise for objects, recursively |
| `JsonScan.SkipValueToken` | src/sidecar.cpp:647-679 | the mutual recursion terminates in bounds on every input and agrees with its specification |
| `JsonScan.TrimView` | src/sidecar.cpp:500-509 | the two cursors find exactly the text without outer white space |
| `JsonGrammar.SkipNumberExact` | src/sidecar.cpp:537-565 | every number the scanner takes, RFC 8259's among them, is skipped to exactly its end |
| `JsonGrammar.SkipStringExact` | src/sidecar.cpp:511-535 | every RFC 8259 string is skipped to exactly its end |
| `JsonGrammar.SkipItemsExact` | src/sidecar.cpp:567-600 | every array body of such values is skipped to exactly its bracket |
| `JsonGrammar.SkipMembersExact` | src/sidecar.cpp:602-645 | every object body of such values is skipped to exactly its brace |
| `JsonGrammar.ScannerCompleteness` | src/sidecar.cpp:511-679 | every RFC 8259 value with any white space, before a stop, is skipped to exactly its end |
| `JsonGrammar.ScannerSoundness` | src/sidecar.cpp:511-679 | whatever the scanner skips is white space and one value of its grammar, as far as that goes |
| `JsonGrammar.ScannerExact` | src/sidecar.cpp:511-679 | the scanner skips from one place to another if and only if white space and one value of its grammar stand there |
| `Utf8.EncodeIsChar` | src/sidecar.cpp:702-723 | each encoded scalar value is one RFC 3629 character |
| `Utf8.CharIsEncode` | src/sidecar.cpp:702-723 | each RFC 3629 character is the encoding of the scalar value it decodes to |
| `Utf8.WellFormedIffEncoding` | src/sidecar.cpp:702-723 | bytes are well-formed UTF-8 if and only if they encode some scalar values |
| `JsonString.ParseHex4` | src/sidecar.cpp:681-700 | the loop reads four hexadecimal digits or fails |
| `JsonString.DecodeJsonString` | src/sidecar.cpp:725-797 | the decoding loop agrees with its specification on every token |
| `JsonString.DecodeIsDenotation` | src/sidecar.cpp:725-797 | the body between the quotes decodes to the UTF-8 of the code points it denotes, surrogate pairs combined as in section 2.2 of RFC 2781, or fails exactly when it denotes none |
| `JsonString.BodyHasItems` | src/sidecar.cpp:725-797 | every well-formed body that decodes is made of such characters and escapes |
| `JsonString.Utf8Preserved` | src/sidecar.cpp:725-797 | between the quotes, well-formed input that decodes gives well-formed output with no surrogate |
| `JsonTokens.TokenIsDenotation` | src/sidecar.cpp:725-797 | a token with its quotes and outer white space decodes to the UTF-8 of what it denotes, or fails exactly when that is nothing |
| `JsonTokens.TokenPreserved` | src/sidecar.cpp:725-797 | a well-formed text that decodes as a string token denotes code points and yields their well-formed UTF-8 |
| `Escapes.UnitDecodes` | src/sidecar.cpp:681-797 | every scalar value below 0x10000 written as one escape, digits in any case, decodes to its UTF-8 |
| `Escapes.PairDecodes` | src/sidecar.cpp:765-790 | every other scalar value written as its two UTF-16 units decodes to its UTF-8 |
| `Escapes.LoneUnitFails` | src/sidecar.cpp:765-790 | a surrogate unit without its other half is no string |
| `Escapes.ShortEscapes` | src/sidecar.cpp:725-797 | the eight short escapes of RFC 8259 section 7 decode to their characters, and no other letter does |
| `Escapes.PrintsClean` | src/sidecar.cpp:1272-1300 | only quotation marks, reverse solidi and control characters are escaped, and no control character is printed |
| `Escapes.EncodeKeepsOrder` | src/sidecar.cpp:702-723 | a smaller code point has the smaller encoding |
| `JsonString.JsonQuoted` | src/sidecar.cpp:1272-1300 | the printing loop produces the quoted form |
| `JsonString.QuotedRoundTrip` | src/sidecar.cpp:1272-1300 | the decoder inverts the printer on every byte string |
| `JsonMembers.MemberMap.InsertOrAssign` | src/sidecar.cpp:146-155 | overwrites in place or appends |
| `JsonMembers.MemberMap.Value` | src/sidecar.cpp:157-164 | finds the value of a key or nothing |
| `JsonMembers.AssignSpec` | src/sidecar.cpp:144-165 | assignment changes the lookup of its key and of no other, and keeps keys unique |
| `JsonMembers.LastMemberWins` | src/sidecar.cpp:136-165 | lookup gives the last member whose decoded key matches; keys are unique |
| `JsonMembers.ParseObjectMembers` | src/sidecar.cpp:799-862 | the walking loop fills the map with exactly the members of the object, or fails |
| `JsonMembers.TwoWalkersAgree` | src/sidecar.cpp:799-862 | the member parser accepts if and only if the skipper does and every escaped key decodes, ending at the same brace |
| `JsonTokens.CutValue` | src/sidecar.cpp:647-679 | scanning depends only on the slice up to the token's end |
| `JsonTokens.StoredValuesAreTokens` | src/sidecar.cpp:799-862 | each stored value slice is one complete value token |
| `JsonPrint.DecimalRoundTrip` | src/sidecar.cpp:907-935 | every 64-bit signed integer reads back from its decimal form |
| `JsonPrint.UnsignedRoundTrip` | src/sidecar.cpp:922-935 | every 64-bit unsigned integer reads back from its decimal form |
| `JsonNumber.DoublePrints` | src/sidecar.cpp:1344-1367 | a finite double prints as an RFC 8259 number |
| `JsonNumber.DoubleHasValue` | src/sidecar.cpp:1344-1367 | the number printed has the value of the double rounded to fifteen significant digits, in all four layouts |
| `JsonPrint.ScalarRoundTrip` | src/sidecar.cpp:992-1028 | every scalar reads back with its type, but a double printed without point and exponent as the integer of its value, and one that is not finite as nothing |
| `JsonPrint.AppendScalarJson` | src/sidecar.cpp:1369-1388 | appends exactly the printed scalar |
| `JsonPrint.AppendScalarListJson` | src/sidecar.cpp:1390-1401 | the loop appends exactly the printed list |
| `JsonPrint.AppendFieldPrefix` | src/sidecar.cpp:1302-1309 | a comma before every field but the first, then the quoted key |
| `JsonPrint.OpenEnvelope` | src/sidecar.cpp:1321-1327 | appends the head of an envelope without an id |
| `JsonPrint.OpenEnvelopeWithCmdId` | src/sidecar.cpp:1329-1337 | appends the head of an envelope with its id |
| `JsonPrint.BuildEnvelope` | src/sidecar.cpp:1302-1342 | opening, appending the fields in a loop and closing gives exactly the specified envelope |
| `Envelope.ParseArrayElements` | src/sidecar.cpp:864-900 | the loop yields the element tokens of an array, or fails |
| `Envelope.ParseObjectExact` | src/sidecar.cpp:799-862 | on any object of the scanner's grammar with decodable keys the parser yields its members, the last of a repeated key winning |
| `Envelope.ParserExact` | src/sidecar.cpp:799-862 | a text parses if and only if it opens with an object of the scanner's grammar whose keys all decode |
| `Envelope.ParserTakes` | src/sidecar.cpp:799-862 | what follows that object is ignored, and its members are the result |
| `Envelope.ParseArrayExact` | src/sidecar.cpp:864-900 | on any array of the scanner's grammar the parser yields its elements |
| `Envelope.ListRoundTrip` | src/sidecar.cpp:1390-1401 | a printed list parses to tokens that read back as its scalars do |
| `Envelope.PayloadRoundTrip` | src/sidecar.cpp:1302-1309 | a printed payload parses to one token per field, in order |
| `Envelope.EnvelopeRoundTrip` | src/sidecar.cpp:1311-1342 | any command, id and distinct-key fields come back from the printed envelope |
| `Requests.HandleRequestFrame` | src/sidecar.cpp:1886-1928 | decodes a frame as specified: bad JSON, bad command, wrong class, id with its fallback, payload |
| `Requests.RequestRoundTrip` | src/sidecar.cpp:1886-1928 | a command as the SDK prints it decodes to its command, id, target and every field value |
| `Requests.CommandsArrive` | src/sidecar.cpp:1886-1928 | from printer to decoder over any writes and reads: a prefix of the commands, each as sent |
| `Requests.RequestReachesHost` | src/sidecar.cpp:2007-2137 | the host is handed the command kind, target and id the sender meant |
| `Renderings.RenderingDecodes` | src/sidecar.cpp:1886-1928 | any RFC 8259 rendering of a command, whatever its white space, order, extra or repeated members and escapes, decodes to what its parse tree says |
| `Renderings.PrintedSays` | src/sidecar.cpp:1311-1342 | the SDK's own printed form is one of these renderings |
| `Renderings.MessagesReachHost` | src/sidecar.cpp:1886-2137 | for any renderings by any sender, any writes and any reads, the host is handed what a prefix of the messages mean, in order |
| `Renderings.NoObjectRefused` | src/sidecar.cpp:1886-1897 | a payload is refused as JSON if and only if it opens with no readable object |
| `Renderings.BadCommandRefused` | src/sidecar.cpp:1898-1905 | a command that is zero or more than sixteen bits is refused |
| `Renderings.WrongClassRefused` | src/sidecar.cpp:1906-1913 | a command in a frame of another class is refused |
| `Renderings.OtherIdFallsBack` | src/sidecar.cpp:1915-1922 | a `cmdId` that is no number leaves the frame's correlation id in force |
| `Golden.EnvelopeText` | src/sidecar.cpp:1311-1342 | the envelope letter by letter |
| `Golden.CommandCodes` | include/phi/adapter/v1/ipc_command.h:7-24 | the numbers of the commands that are answered, and of the three that are not |
| `Golden.ChannelInvoke` | tests/golden/in/cmd_channel_invoke.json:1 | the recorded channel invocation reaches the host as that command, for that instance, with that id |
| `Outbox.FirstLog` | src/sidecar.cpp:2225-2227 | the oldest log frame |
| `Outbox.FirstEvent` | src/sidecar.cpp:2229-2231 | the oldest event frame |
| `Outbox.ShedPolicy` | src/sidecar.cpp:2219-2244 | one frame at most, only when full, never a response, logs before events, oldest first; refusal exactly when all are responses |
| `Outbox.QueueBounded` | src/sidecar.cpp:2219-2249 | beyond 4096 frames the queue holds only responses, in every reachable state |
| `Outbox.QueueInOrder` | src/sidecar.cpp:2219-2249 | the queue is a subsequence of the submissions since the last flush, with all their responses |
| `Outbox.FramesConserved` | src/sidecar.cpp:2284-2347 | every accepted frame is in one place, the drop counter counts three of them, at most one failed head per flush |
| `Outbox.RefinesFifo` | src/sidecar.cpp:2215-2347 | step by step, the responses see an unbounded FIFO |
| `Outbox.ResponsesFifo` | src/sidecar.cpp:2215-2347 | without failed sends and stops every response comes out, in order |
| `Outbox.FramesInOrder` | src/sidecar.cpp:2284-2370 | without failed sends and stops, frames of every kind leave in the order they were accepted; only shed ones are missing |
| `Dispatcher.SidecarDispatcher.QueueOutboundFrame` | src/sidecar.cpp:2152-2282 | guards and shed policy under the lock, as one step of the queue |
| `Dispatcher.SidecarDispatcher.FindLog` | src/sidecar.cpp:2225-2227 | the search finds the oldest log frame |
| `Dispatcher.SidecarDispatcher.FindEvent` | src/sidecar.cpp:2229-2231 | the search finds the oldest event frame |
| `Dispatcher.SidecarDispatcher.FlushSendQueue` | src/sidecar.cpp:2284-2347 | puts whole frames on the wire in order, then part of one; the rest is dropped and counted only when the client is gone |
| `Dispatcher.FlushOutcome` | src/sidecar.cpp:2284-2370 | the frames handed over are sent in order, the next one failed, and those behind it are lost and counted as dropped |
| `Dispatcher.SidecarDispatcher.Start` | src/sidecar.cpp:1810-1819 | the runtime starts first; started exactly if it did, or already was |
| `Dispatcher.SidecarDispatcher.Stop` | src/sidecar.cpp:1821-1833 | clears the queue and leaves no client |
| `Backend.DrainsExactly` | src/sidecar.cpp:433-461 | once told to stop, the worker leaves after exactly the steps its queue needs |
| `Backend.AcceptedInOrder` | src/sidecar.cpp:323-352 | in every reachable state accepted is executed, then running, then queued |
| `Backend.StopFindsThread` | src/sidecar.cpp:373-380 | with one controller a started backend has its thread when a stop begins |
| `Backend.StopOutcome` | src/sidecar.cpp:382-422 | stop returning true means everything accepted ran exactly once; false means abandoned with a fresh state |
| `Backend.StoppingAcceptsNothing` | src/sidecar.cpp:338-347 | from the stop request until stop returns nothing is accepted |
| `Backend.AbandonedAccountedFor` | src/sidecar.cpp:223-283 | an abandoned worker stays in the registry until it left its loop with everything executed |
| `ExecutionBackend.SharedState.Turn` | src/sidecar.cpp:433-461 | one turn of the worker loop |
| `ExecutionBackend.DefaultInstanceExecutionBackend.Start` | src/sidecar.cpp:294-321 | accepts afterwards exactly when the thread was created |
| `ExecutionBackend.DefaultInstanceExecutionBackend.Execute` | src/sidecar.cpp:323-352 | appends exactly while started and not stopping |
| `ExecutionBackend.DefaultInstanceExecutionBackend.Stop` | src/sidecar.cpp:354-422 | true exactly when the wait outlasts the worker, then all executed; else adopted and replaced |
| `ExecutionBackend.AbandonedThreadRegistry.ReapFinished` | src/sidecar.cpp:265-280 | the loop removes exactly the entries whose worker has left |
| `ExecutionBackend.ReapPartitions` | src/sidecar.cpp:265-280 | reaping loses no entry |
| `ExecutionBackend.ReapJoinsExited` | src/sidecar.cpp:265-280 | nothing is joined before it left, nothing that left is kept |
| `Lifetime.StepKeeps` | src/sidecar.cpp:3742-4102 | every step keeps each instance's task history in the shape of its phase |
| `Lifetime.ObjectLifetime` | src/sidecar.cpp:3993-4078 | no worker runs a task of a destroyed instance, if and only if no rollback ends its waits before the start hook has finished |
| `Lifetime.UnfinishedIsBusy` | src/sidecar.cpp:3806-3845 | an instance being created has something to run exactly until its start hook has finished |
| `Lifetime.BlockedStartIsDestroyed` | src/sidecar.cpp:3834-3845 | the run for which the rollback destroys a busy instance |
| `Lifetime.TeardownTrace` | src/sidecar.cpp:3993-4078 | a destroyed instance executed start, callbacks in arrival order, stop, and all of it |
| `Lifetime.NothingAfter` | src/sidecar.cpp:4063-4078 | an instance that is done is given nothing more |
| `Lifetime.InsertIsNew` | src/sidecar.cpp:3856-3877 | the duplicate branch of registration is never taken |
| `Results.ExactlyOneRoute` | src/sidecar.cpp:4215-4380 | each request takes one route, never two and never none, and only to an instance it names |
| `Results.RoutedWhereAddressed` | src/sidecar.cpp:4215-4380 | the routing rule: answered on the spot if and only if the command is unknown or nobody it names can take it, else given to the instance named |
| `Results.AtMostOneResponse` | src/sidecar.cpp:3949-3991 | no request is answered twice |
| `Results.OneResponseEach` | src/sidecar.cpp:3949-3991 | once drained, with no reply refused and none cleared by a stop, the responses' correlation ids are the requests' ids, as often as they came |
| `HostRuns.ResultsAreFifo` | src/sidecar.cpp:3949-3990 | results are a FIFO: workers add theirs at the end, sending answers the oldest |
| `HostRuns.StartOutcome` | src/sidecar.cpp:3808-3877 | registered if and only if start() came back true and its hook finished in time, else told to stop |
| `HostRuns.RollbackOutcome` | src/sidecar.cpp:3808-3856 | a rollback never registers and gives the instance up whether or not its worker left |
| `HostRuns.JoinOutcome` | src/sidecar.cpp:4044-4071 | destroyed if and only if the worker has left, leaked otherwise |
| `HostRuns.NotifyReaches` | src/sidecar.cpp:3891-3902 | a callback goes last into the queue of the instance it is for, and into no other |
| `HostRuns.StoppingTakesNothing` | src/sidecar.cpp:3619-3642 | a host that stops takes no request, callback or new instance |
| `HostRuns.BusyHostWaits` | src/sidecar.cpp:3742-4071 | while the host waits for one thing it starts no other |
| `HostRuns.StopLosesResults` | src/sidecar.cpp:3635-3638 | results still queued when the factory has stopped are lost and counted |
| `HostRuns.WholeLife` | src/sidecar.cpp:3742-4071 | some run creates an instance, serves it a request, answers that once, and removes and destroys it, having run start, the request and stop |
| `HostObject.SidecarHost.CreateInstance` | src/sidecar.cpp:3744-3877 | registers exactly when the limit allows it, instance and backend were made, the thread was created and start() came back true in time; an instance made and not registered is handed to destroyInstance, even with its worker left to the registry |
| `HostObject.SidecarHost.RunTurn` | src/sidecar.cpp:433-461 | one worker turn, a finished command hook having queued its result |
| `HostObject.SidecarHost.QueueDeferredResult` | src/sidecar.cpp:3949-3958 | appends at the end of the result queue |
| `HostObject.SidecarHost.DrainDeferredResults` | src/sidecar.cpp:3960-3991 | the loop submits every result with an id, in order, and empties the queue |
| `HostObject.DrainedInOrder` | src/sidecar.cpp:3960-3991 | drained replies sit in the send queue in order behind the earlier responses |
| `HostObject.OnlyWithId` | src/sidecar.cpp:3969-3987 | draining submits responses with an id and nothing else; results without one are dropped |
| `HostObject.SidecarHost.ExecuteOnRuntime` | src/sidecar.cpp:3891-3902 | a task goes to the named instance and nowhere else |
| `HostObject.SidecarHost.StopAndDestroyInstance` | src/sidecar.cpp:3993-4078 | destroyed exactly when its worker left in time, with the stop hook last; otherwise leaked and adopted |
| `EndToEnd.PrintedIsResult` | src/sidecar.cpp:2349-2410 | every printed result envelope is recognised as a result by its command |
| `EndToEnd.RepliesAccepted` | src/sidecar.cpp:3949-3991 | in every run of host, workers, queue and connection together, the results accepted are the host's answers, in order, each with its request's id |
| `EndToEnd.EveryRequestAnswered` | src/sidecar.cpp:3673-3681 | if replies fit, nothing was stopped, the connection lives and nothing is under way, the peer has exactly one result per request among whatever else it was sent |
| `Dialogue.TalkIsSession` | src/sidecar.cpp:1886-2137 | a run in which the host is asked only what the frames it reads say is a run of the session |
| `Dialogue.AskedAsMeant` | src/sidecar.cpp:1886-2137 | once every frame read is handled, the host was asked what a prefix of the peer's messages mean, in order, and all sent whole once all is read |
| `Dialogue.EveryMessageAnswered` | src/sidecar.cpp:3673-3681 | whatever a peer sends, however rendered, written and read, in any interleaving: when all read is handled and nothing is under way, stopped or refused, it has exactly one result for each of its messages that is answered |
| `Budget.NextSlice` | src/sidecar.cpp:4098-4100 | the quotient the loop computes is the equal share of what is left, floored |
| `Budget.ShortWaits` | src/sidecar.cpp:3993-4071 | waits that end within their budgets take what they take |
| `Budget.LongWaits` | src/sidecar.cpp:3993-4071 | a wait that does not end takes its own budget: three fifths of the slice for the stop, the rest for the join, each at least 50 ms |
| `Budget.WaitsAdd` | src/sidecar.cpp:3993-4071 | each of the two waits counts on its own |
| `Budget.NothingUsed` | src/sidecar.cpp:4080-4102 | instances that stop at once take no time, and each is offered its share of all that was left |
| `Budget.SavedTimeIsKept` | src/sidecar.cpp:4080-4102 | what one instance saves never makes the next slice smaller |
| `Budget.ReserveIs` | src/sidecar.cpp:3619-3631 | the factory's reserve is a quarter of the budget, at most 500 ms |
| `Budget.StopsAtOnce` | src/sidecar.cpp:3619-3642 | a host whose instances and factory stop at once stops at once |
| `Budget.StopAndDestroyInstances` | src/sidecar.cpp:4080-4102 | the loop gives each instance the specified slice of what is left |
| `Budget.HostStop` | src/sidecar.cpp:3619-3642 | instances first, then the factory with what remains |
| `Budget.Fits` | src/sidecar.cpp:4080-4102 | with 123 ms each, slices never shrink, are at least the equal share, and end by the deadline |
| `Budget.InstancesFitExactly` | src/sidecar.cpp:4080-4102 | for any clock and deadline, teardown fits whatever the waits take if and only if each instance has 123 of the milliseconds left |
| `Budget.OverrunBound` | src/sidecar.cpp:3993-4000 | the overrun is at most 100 ms per instance |
| `Budget.WithinBudget` | src/sidecar.cpp:3619-3642 | the whole teardown stays within a budget of 200 ms or more that gives each instance 123 ms outside the reserve |
| `Budget.NoneLonger` | src/sidecar.cpp:4080-4102 | no schedule of waits takes longer than all of them taken in full |
| `Budget.StopFitsExactly` | src/sidecar.cpp:3619-3642 | whatever the waits take, the whole stop keeps the budget if and only if the longest teardown leaves the factory 50 ms |
| `Budget.LongestClosed` | src/sidecar.cpp:4080-4102 | from 123 ms each the longest teardown is what is left, below 85 ms each it is 100 ms each |
| `Budget.AlwaysBounded` | src/sidecar.cpp:3619-3642 | for any instances and budget: at most budget plus 100 ms each plus 50 ms |
| `LogFilter.ParseLogFilterConfig` | src/sidecar.cpp:1175-1232 | the parsed configuration is the direct reading of the text |
| `LogFilter.CompileCategories` | src/sidecar.cpp:1205-1230 | the category loop allows exactly the named categories, in any order, with any repeats |
| `LogFilter.SetBit` | src/sidecar.cpp:1240-1270 | setting one mask bit changes the test of that bit only |
| `LogFilter.BuildLogFilterCache` | src/sidecar.cpp:1234-1270 | the compiled filter decides every level and category as the configuration reads; errors always pass |
| `LogFilter.LevelDecides` | src/sidecar.cpp:1254-1270 | with every category allowed an entry below Error passes if and only if its level number is at least the minimum's |
| `LogFilter.RaisingPasses` | src/sidecar.cpp:1070-1085 | raising the level never turns a passing entry away |
| `LogFilter.PriorityKeepsOrder` | src/sidecar.cpp:1070-1085 | priorities order the levels as their numbers do, an unknown level counting as Info |
| `LogFilter.UnconfiguredPasses` | src/sidecar.cpp:1254-1259 | until a configuration arrives every entry passes |
| `LogFilter.DefaultReading` | src/sidecar.cpp:1175-1195 | without a readable configuration everything from Debug on passes |
| `LogFilter.LevelByName` | src/sidecar.cpp:1087-1113 | the level names, aliases included |
| `LogFilter.OtherLevel` | src/sidecar.cpp:1087-1113 | no other text names a level |
| `LogFilter.CategoryByName` | src/sidecar.cpp:1121-1166 | the category names, alias included |
| `LogFilter.CaseIsFree` | src/sidecar.cpp:1048-1055 | the case of letters in a name does not matter |
| `LogFilter.SeparatorsAreFree` | src/sidecar.cpp:1057-1068 | nor do underscores, hyphens, spaces and dots in a category's |
| `Golden.ConfigReads` | src/sidecar.cpp:1175-1232 | a metadata text that names a level and categories is read as that level and those names |
| `Golden.NamesAllow` | src/sidecar.cpp:1205-1230 | a category's name in the list allows it |
| `Golden.AllAllows` | src/sidecar.cpp:1205-1230 | `all` allows every category |
| `Color.WrapIsAngle` | include/phi/adapter/v1/color.h:68-74 | the wrapped hue is in one turn and differs by whole turns |
| `Color.ColorRoundTrip` | include/phi/adapter/v1/color.h:106-171 | every colour survives HSV exactly when grey or more than 1e-9 apart, else within 1e-9 |
| `Color.HsvRoundTrip` | include/phi/adapter/v1/color.h:106-171 | hue modulo 360, saturation and value are recovered if and only if the chroma exceeds 1e-9 or there was nothing to lose |
| `Color.SectorOfHue` | include/phi/adapter/v1/color.h:118-137 | the sector formula gives the colour in all six sectors, boundaries and ties included |
| `ColorReference.HsvClosedForm` | include/phi/adapter/v1/color.h:106-147 | the six sectors are the closed form v - v s max(0, min(k, 4 - k, 1)), channel by channel |
| `ColorReference.Primaries` | include/phi/adapter/v1/color.h:106-147 | the six primaries at their sixths of a turn |
| `ColorReference.StandardChromaticities` | include/phi/adapter/v1/color.h:226-299 | the sRGB standard's primaries and white point have their chromaticities |
| `ColorReference.SmallYIsGrey` | include/phi/adapter/v1/color.h:255-265 | a chromaticity y of at most 1e-6, and no other, is read as a grey of the brightness given |
| `Color.MatricesInvert` | include/phi/adapter/v1/color.h:226-248 | the two rounded matrices invert each other within 6.2e-5 per channel on the unit cube |
| `Color.LuminanceShare` | include/phi/adapter/v1/color.h:276-299 | chromaticity y of a non-black colour is at least 0.06, so the small-y guard is not taken |
| `Color.XyRoundTrip` | include/phi/adapter/v1/color.h:226-299 | the linear part: linear RGB survives xy and luminance within 6.2e-5, too dark inputs come back black; `Gamma.XyColorRoundTrip` has the whole way |
| `Gamma.GammaRoundTrip` | include/phi/adapter/v1/color.h:189-206 | decoding and encoding a channel gives it back if and only if it is not between the two thresholds, where it comes back smaller |
| `Gamma.CurveStep` | include/phi/adapter/v1/color.h:189-206 | the encoded channel moves at most 13.8 times as far as the light, across the threshold too |
| `Gamma.XyColorRoundTrip` | include/phi/adapter/v1/color.h:208-299 | every sRGB colour survives gamma, xy, luminance and back within 8.6e-4 per channel |

## Left out

- Socket, epoll, eventfd, chmod and signal calls: outcome scripts stand for them, and a client is a descriptor number or none.
- `JsonPrint.ScalarRoundTrip`: a double is what rounding to fifteen significant digits leaves of it, so what that rounding drops is not seen; a floating-point token is handed on as text, for the library to read.
- Embedded raw JSON (`metaJson`, schema text) and the per-entity serializers: they repeat the field printing that `Envelope` covers.
- `JsonMembers.MemberMap.Value`: keys and values are byte strings; that the source keeps views into the frame buffer, and owned copies of escaped keys, is not captured.
- Requests with `cmdId` 0: the source drops their results (src/sidecar.cpp:3969-3987), so `Results` speaks of requests with an id; an immediate answer without an id is one of the other submissions of `EndToEnd`.
- Sync commands: bootstrap, configuration and removal reach the host model as its create, notify and remove steps; the descriptor reply is one of the other submissions of `EndToEnd`.
- Unknown commands: answered at once, as in the source; the callback an instance gets first is a notify step of its own.
- Adapter hooks: a command hook is assumed to submit its result once before it returns, as the base-class defaults do.
- `Results.OneResponseEach`: whether the dispatcher takes a reply is an outcome there; `EndToEnd` ties it to the started flag and the size limit. Results still queued when the host stops are cleared by the source (src/sidecar.cpp:3635-3638) and counted as lost.
- `EndToEnd.EveryRequestAnswered`: speaks of one connection, held from the start; results and events take different routes to the send queue, so order is claimed per route and not across them.
- `Transport.UdsEpollServer.ReadClient`: bytes read in the same batch before an end of file are dropped unparsed, as in the source; reassembly is stated for batches that end with the socket drained.
- `Lifetime.ObjectLifetime`: backends other than the default one, and instances whose creation fails before their backend runs a task.
- `Gamma.XyColorRoundTrip`: results of `pow` are whatever satisfies the power law; floating-point rounding throughout `Color` and `Gamma`.
- Re-entry of the poll from a handler, the poll's wake-ups, rate-limited diagnostics, queue-depth statistics and message texts.
- Memory order and the mutexes themselves; the Qt layer, `src/runtime.cpp`, `src/sidecar_main.cpp` and the example.
