# russh-extra, modelled in Dafny

A model of the parts of russh-extra where bytes, ids and trust have to be right, with proofs of what
those parts promise. `dafny verify dfyconfig.toml` checks the whole project.

**SFTP version 3** (draft-ietf-secsh-filexfer-02).
`Codec`, `Attributes`, `Packets` and `Responses` are the packet formats, as functions from the bytes
ahead of the cursor to a value and the bytes behind it. `Layout` is the same format as tables of numbered
fields, and `Utf8` says which bytes are text. `Cursors` holds the same decoders with a
mutable cursor and loops. `Frames` is reassembly from arbitrary chunks. `SftpServer` is the server
runtime, `Answering` what it does with a request stream. `SftpClient` is the pipelined client as a
step system, `SftpClientTasks` the client as an object. `Pipeline` joins client and server by two byte
pipes, and `PipelineTheorem` proves that every interleaving and every chunking amounts to direct calls
of the handler. `SftpApi` reads the responses as the public methods do. `Exchange` is one call at a time
over the wire, within the packet limit and past it. `Transfer` and `Listing` are the whole-file loops
and the directory cursor on top; `MemoryFiles` is a handler, after the one of the integration tests,
that the transfer theorems apply to.

A server handler is a record of functions of the whole history of events it has seen, so it may keep
any state.

**Known hosts.** `KnownHosts` has verdicts and `add_entry`. `KnownHostsTrust` is trust on first use over
a store that connections share, with their looks and additions interleaved. `KnownHostsLoad` says what
each shape of line and file means. `KnownHostsText` and `KnownHostsRoundTrip` are the file format, its parser and
its printer. `KnownHostsStore` is the shared object.

**Exec** (sections 5.3, 6.5 and 6.10 of RFC 4254). `Exec` is the server's streaming pump, with the
handler as a concurrent process, and the one-shot response. `ExecClient` is `Session::command` and the
end-to-end theorems.

**Shell.** `Shell` has the two leftover-buffer readers.

## Conventions

- A Rust `String` on the wire is `Text`: bytes that satisfy a concrete UTF-8 predicate. In the
  known-hosts format it is a Dafny `string`.
- `as u32` casts are written as `% 0x1_0000_0000`; the id counter wraps in the same way.
- Error messages are dropped; error kinds are kept. Handler messages that travel in a STATUS packet
  are kept.
- Base64 is a parameter of the known-hosts format, with the contract `Faithful`:
  decoding undoes encoding, the text is of the alphabet, and only the empty text denotes no bytes.
- Whether a channel takes a write and whether the connection is found closed are inputs.

## Properties that the code does not have

Each is proved as an exact condition, with a case that fails.

- The server's answers depend on how the bytes are cut: a call that meets an invalid length throws
  away the complete frames it had cut before it. They are independent of the cutting exactly when no
  invalid length follows a complete frame (`ServerChunkingLaw`, `ServerDropsExample`).
- A NAME batch arrives whole exactly when it has 16 bytes per entry (`NameComplete`), although an
  entry can take 12. A batch cut down to nothing ends a listing early (`ListingComplete`,
  `ShortEntryEndsListing`, `ShortEntryExists`).
- A call can fail or hang although the handler refuses nothing. A request over the packet limit makes the
  server drop the channel without an answer, and an answer over it aborts the client's read task
  (`LongRequestHangs`, `LongAnswerAborts`). An upload hangs on every path of more than 262127 bytes; with
  a handler whose handle is the path, an upload of a full chunk hangs from 229356 bytes on, after the
  file has been emptied (`LongPathOpens`, `LongPathHangs`). With shorter paths and handles only a refusal
  can make it fail (`WriteAll`).
- The extensions of a version packet come back exactly when there are at most 128 (`VersionComplete`).
- Attributes with the EXTENDED flag do not survive a trip (`AttrsTrip`): the reader expects a count
  word that the writer never writes.
- A key accepted on first use can be lost. `PinLaw` says exactly when it is, after any interleaving of
  connections. `add_entry` on port 0 or 22 also drops the host's entries for other ports
  (`MixedPortsForget`). A store is looked up and added to under two locks, so two overlapping first
  contacts are both accepted and the later addition takes the first key away (`OverlapForgets`). Nothing
  else loses it (`TrustOnFirstUse`).
- The key accepted on first use is not the only one accepted afterwards: a key that cannot be serialised
  is accepted on every endpoint, even a revoked one (`TrustOnFirstUse`, `UnserialisableAccepted`).
- Saving and loading turns port 22 into "any port" (`LoadedVerdict`), and brings a store back if and
  only if each entry's host is not read as something else and its fields are words (`SaveLoad`,
  `CommaHostLost`).
- Request ids stay nonzero for exactly 2^32 - 10 calls and distinct for exactly 2^32 (`IdLaw`).

## Where the code and its documentation differ

The model follows the code.

- `StreamingExecContext::exit_status` says later writes fail. Writes that reach the queue before the
  pump closes it succeed and are ignored.
- `StreamingExecContext` says the channel is closed when the handler returns. If the handler has moved
  the context into a task of its own and no exit was sent, it stays open until the context is dropped.
- The SFTP handler of the integration tests treats WRITE or CREATE as TRUNCATE. `MemoryFiles` follows it;
  `OpenModes` says for which modes that is what the mode bits ask.
- `ShellHandle::read` is documented to return 0 only on a closed, drained channel. It also returns 0
  for an empty buffer and for an empty data message.
- `KnownHostsEntry::port` is documented as "0 when the line matches the default port". Port 0 matches
  every port.
- `SftpDir::read` is documented to return `None` at end of directory. It also does so after a batch
  that the entry cap cut down to nothing.

## Model

| member | source | states |
|---|---|---|
| Codec.PopU32 | crates/russh-extra/src/sftp/packet.rs:604-609 | a word is accepted unless fewer than four bytes are ahead, and what was accepted is exactly the push of the value |
| Codec.PopPushU32 | crates/russh-extra/src/sftp/packet.rs:569-571 | popping a pushed word gives it back and stops right after it |
| Codec.PopU64 | crates/russh-extra/src/sftp/packet.rs:611-616 | the same for 64-bit words: canonical, failing only on fewer than eight bytes |
| Codec.PopPushU64 | crates/russh-extra/src/sftp/packet.rs:573-575 | popping a pushed 64-bit word gives it back and stops right after it |
| Codec.PopBytes | crates/russh-extra/src/sftp/packet.rs:624-637 | an accepted byte string is at most 262144 long and the bytes consumed are its push |
| Codec.PopPushBytes | crates/russh-extra/src/sftp/packet.rs:581-584 | every byte string within the limit survives push and pop |
| Codec.PopString | crates/russh-extra/src/sftp/packet.rs:618-622 | the same for strings, which are valid UTF-8 |
| Codec.PopPushString | crates/russh-extra/src/sftp/packet.rs:577-579 | every string within the limit survives push and pop |
| Attributes.AttrsTrip | crates/russh-extra/src/sftp/packet.rs:586-669 | popping a pushed record gives its normal form (flagged fields filled with 0, unflagged ones dropped) and stops right after it, if and only if EXTENDED is clear; with it set, the exact outcome |
| Attributes.PopAttrsCanonical | crates/russh-extra/src/sftp/packet.rs:639-669 | what the reader accepts is the push of its result, plus a zero count word under EXTENDED |
| Attributes.BuildPacket | crates/russh-extra/src/sftp/types.rs:286-311 | the step-by-step record is one flag per group with pairs completed by 0 and times cut to 32 bits |
| Attributes.MetadataSettles | crates/russh-extra/src/sftp/types.rs:272-311 | metadata comes back unchanged if and only if its pairs are both set or both absent and times fit 32 bits; a second trip changes nothing |
| Attributes.DeliveredIs | crates/russh-extra/src/sftp/types.rs:272-311 | what one trip does to each field: a missing member of a pair becomes 0, times keep their low 32 bits, size and permissions stay |
| Attributes.MetadataTrip | crates/russh-extra/src/sftp/types.rs:272-311 | metadata written to the wire and read back is its delivered form, with nothing left over |
| Packets.RequestTrip | crates/russh-extra/src/sftp/packet.rs:64-199 | every request of types 3 to 20 is decoded to the id and fields it was encoded from, attributes in normal form |
| Packets.RequestCanonical | crates/russh-extra/src/sftp/packet.rs:320-472 | whatever a request decoder accepts is byte for byte the encoding of its result (EXTENDED apart) |
| Packets.EncodingInjective | crates/russh-extra/src/sftp/packet.rs:64-199 | two requests within the reader's limits have the same encoding if and only if they have the same id and the same normal form |
| Packets.SmallFrameFits | crates/russh-extra/src/sftp/packet.rs:560-567 | a request whose frame is within the packet limit has every string within the reader's limit |
| Packets.VersionTrip | crates/russh-extra/src/sftp/packet.rs:201-215 | a version packet with any extension pairs is decoded to its version and the first 128 pairs, the rest left unread |
| Packets.VersionComplete | crates/russh-extra/src/sftp/packet.rs:477-489 | extensions with distinct keys, listed in any order, come back if and only if there are at most 128 |
| Utf8.EncodedIsValid | crates/russh-extra/src/sftp/packet.rs:618-622 | every sequence of Unicode scalar values, encoded, is text |
| Utf8.ValidIsEncoded | crates/russh-extra/src/sftp/packet.rs:618-622 | and there is no other text: surrogates, overlong forms and values past 0x10FFFF are refused |
| Layout.WordRead | crates/russh-extra/src/sftp/packet.rs:604-609 | a word is read with its most significant byte first, in numbers |
| Layout.LongRead | crates/russh-extra/src/sftp/packet.rs:611-616 | a 64-bit word is read as two words, the high one first |
| Layout.StrRead | crates/russh-extra/src/sftp/packet.rs:624-637 | a string is what follows its length word, refused over 262144 bytes or past the end |
| Layout.AttrsLayout | crates/russh-extra/src/sftp/packet.rs:586-602 | flag bits 0x1, 0x2, 0x4 and 0x8 announce size, owner and group, permissions, access and modification time, in this order; EXTENDED is bit 0x80000000 |
| Layout.RequestLayout | crates/russh-extra/src/sftp/packet.rs:64-199 | every request of any id and fields is, byte for byte, its length and its row of the table of types 3 to 20 |
| Layout.RequestKinds | crates/russh-extra/src/sftp/packet.rs:320-472 | each type byte from 3 to 20 is read as its own request and no other |
| Layout.RequestRead | crates/russh-extra/src/sftp/packet.rs:320-472 | the bytes of a row are read back as that request |
| Layout.VersionLayout | crates/russh-extra/src/sftp/packet.rs:477-489 | version, count of pairs, then each name before its value |
| Layout.HandshakeBytes | crates/russh-extra/src/sftp/packet.rs:57-62 | the INIT and VERSION packets for version 3, as thirteen bytes each |
| Responses.EntriesTrip | crates/russh-extra/src/sftp/packet.rs:248-257 | reading n of the written entries gives the first n and leaves the rest unread |
| Responses.NamePrefix | crates/russh-extra/src/sftp/packet.rs:240-259 | decoding a batch of n entries in B bytes yields exactly the first min(n, B/16, 65536) |
| Responses.NameComplete | crates/russh-extra/src/sftp/packet.rs:240-259 | no entry is lost if and only if B >= 16n and n <= 65536 |
| Responses.FrameLimitBeatsEntryCap | crates/russh-extra/src/sftp/packet.rs:240-259 | in a frame within the limit the 65536 cap never decides |
| Responses.ResponseTrip | crates/russh-extra/src/sftp/packet.rs:491-536 | every response that fits is decoded to the id and response it was encoded from |
| Responses.ResponseCanonical | crates/russh-extra/src/sftp/packet.rs:226-266 | HANDLE, DATA and ATTRS payloads are accepted only in the form they are written |
| Responses.PacketConcernsItsId | crates/russh-extra/src/sftp/client.rs:451-503 | decoded or not, a packet of types 101 to 105 concerns the id in its first word, any other packet id 0 |
| Responses.DecodeEncoded | crates/russh-extra/src/sftp/client.rs:411-435 | the client decodes the body of an encoded response to that response under that id |
| Layout.ResponseLayout | crates/russh-extra/src/sftp/packet.rs:491-536 | every response of any id and contents is its length and its row of the table of types 101 to 105, a status ending with the tag "en" |
| Layout.ResponseKinds | crates/russh-extra/src/sftp/client.rs:411-503 | each type byte from 101 to 105 is read as its own response, and no other type as any |
| Layout.ResponseRead | crates/russh-extra/src/sftp/client.rs:411-503 | the bytes of a row are read as that response under its id |
| Layout.ErrorStatuses | crates/russh-extra/src/sftp/server.rs:549-579 | the status codes of refusals in numbers; a handler's own message is kept, another error's display text is the message |
| Layout.DefaultMessages | crates/russh-extra/src/sftp/server.rs:556-566 | the text that stands for an empty message, kind by kind |
| Layout.OtherStatuses | crates/russh-extra/src/sftp/server.rs:375-469 | success is 0, end of file and of directory are 1, each with its text |
| Layout.UnsupportedIs | crates/russh-extra/src/sftp/server.rs:343-347 | the answer to an unknown type is status 8 with its text |
| Layout.StatusCodes | crates/russh-extra/src/sftp/client.rs:152-302 | how each method reads every status code, in numbers |
| Layout.Readings | crates/russh-extra/src/sftp/client.rs:152-302 | what each method makes of each kind of response; the wrong kind, and an empty name list, is a protocol error |
| Layout.EntryFieldsKept | crates/russh-extra/src/sftp/types.rs:190-236 | which field of a directory entry goes where on the wire and back |
| Layout.MetadataFieldsKept | crates/russh-extra/src/sftp/types.rs:272-311 | which field and which flag bit of the wire record each metadata field sets, and back |
| Cursors.Cursor.U32 | crates/russh-extra/src/sftp/packet.rs:604-609 | the cursor form of the pop: same value, cursor at the bytes left, always inside the payload |
| Cursors.Cursor.U64 | crates/russh-extra/src/sftp/packet.rs:611-616 | the same for 64-bit words |
| Cursors.Cursor.Bytes | crates/russh-extra/src/sftp/packet.rs:624-637 | the same for byte strings |
| Cursors.Cursor.String | crates/russh-extra/src/sftp/packet.rs:618-622 | the same for strings |
| Cursors.Cursor.Attrs | crates/russh-extra/src/sftp/packet.rs:639-669 | the same for attributes, filled into a default record |
| Cursors.Cursor.Tail | crates/russh-extra/src/sftp/packet.rs:320-472 | the type-specific fields of every request |
| Cursors.Cursor.Entry | crates/russh-extra/src/sftp/packet.rs:249-256 | one name entry |
| Cursors.ReadRequest | crates/russh-extra/src/sftp/packet.rs:320-472 | the request decoders over a cursor compute the decoding function on every byte string |
| Cursors.ReadName | crates/russh-extra/src/sftp/packet.rs:240-259 | the capped loop computes the NAME decoding function on every byte string |
| Cursors.ReadStatus | crates/russh-extra/src/sftp/packet.rs:217-224 | the cursor form computes the STATUS decoding function on every byte string |
| Cursors.ReadHandle | crates/russh-extra/src/sftp/packet.rs:226-231 | the cursor form computes the HANDLE decoding function on every byte string |
| Cursors.ReadBytes | crates/russh-extra/src/sftp/packet.rs:233-238 | the cursor form computes the DATA decoding function on every byte string |
| Cursors.ReadAttrs | crates/russh-extra/src/sftp/packet.rs:261-266 | the cursor form computes the ATTRS decoding function on every byte string |
| Cursors.ReadPacket | crates/russh-extra/src/sftp/client.rs:411-503 | the five response decoders over a cursor, with the fallback id, compute the client's decoding function on every packet |
| Cursors.WriteName | crates/russh-extra/src/sftp/packet.rs:518-528 | the buffer-growing loop produces the encoding that the NAME laws speak about |
| Cursors.ReadVersion | crates/russh-extra/src/sftp/packet.rs:201-215 | the extension loop computes the version decoding function on every byte string |
| Frames.ParseIsSplit | crates/russh-extra/src/sftp/client.rs:373-400 | the reference parse splits a stream into whole valid frames and a remainder that starts with none |
| Frames.ParseIsOnlySplit | crates/russh-extra/src/sftp/client.rs:373-400 | there is only one such split |
| Frames.ParseResumes | crates/russh-extra/src/sftp/client.rs:371-401 | parsing resumed from the tail equals parsing the whole; after an invalid length nothing more is read |
| Frames.PrefixParse | crates/russh-extra/src/sftp/client.rs:373-400 | a prefix of a well-formed stream parses to the frames it holds in full |
| Frames.TailIsShort | crates/russh-extra/src/sftp/client.rs:374-396 | what is kept between chunks is a strict prefix of one frame, at most 262147 bytes |
| Frames.ReadTaskRefinesParse | crates/russh-extra/src/sftp/client.rs:368-400 | for every stream and every chunking the read task dispatches exactly the frames of the reference parse, aborts on exactly its invalid length and holds at most one partial frame |
| Frames.AcceptAllParses | crates/russh-extra/src/sftp/server.rs:265-289 | without an invalid length, the server dispatches the frames of the reference parse for every chunking |
| Frames.ServerChunkingLaw | crates/russh-extra/src/sftp/server.rs:265-289 | any two chunkings of a stream make the server dispatch the same packets if and only if no invalid length follows a complete frame; then they are those of the reference parse |
| Frames.OneChunkDropsAll | crates/russh-extra/src/sftp/server.rs:272-279 | a stream with an invalid length, delivered in one chunk, dispatches nothing |
| Frames.FramesThenRest | crates/russh-extra/src/sftp/server.rs:265-289 | cut right before an invalid length, the stream dispatches every frame ahead of it |
| Frames.ServerDropsExample | crates/russh-extra/src/sftp/server.rs:272-279 | a packet and a zero length: dispatched when cut between, lost in one piece |
| SftpServer.CutFrames | crates/russh-extra/src/sftp/server.rs:265-289 | the cutting loop computes the reference parse of the buffer |
| SftpServer.SftpServerRuntime.constructor | crates/russh-extra/src/sftp/server.rs:228-236 | a new runtime has no channels, version 3 and no events |
| SftpServer.SftpServerRuntime.RegisterChannel | crates/russh-extra/src/sftp/server.rs:239-242 | the channel gets an empty buffer, the two tables keep equal keys, nothing else changes |
| SftpServer.SftpServerRuntime.HandleChannelClose | crates/russh-extra/src/sftp/server.rs:312-315 | the channel leaves both tables, nothing else changes |
| SftpServer.SftpServerRuntime.NegotiateVersion | crates/russh-extra/src/sftp/server.rs:353-365 | INIT through the cursor decoder: undecodable or refused is unanswered, below 3 is answered by 3 without the handler, else the handler's choice raised to 3 is held and answered |
| SftpServer.SftpServerRuntime.HandleRequest | crates/russh-extra/src/sftp/server.rs:367-543 | decode with the cursor, one handler call, encode with the buffer-growing writer: the dispatch function for every request type |
| SftpServer.SftpServerRuntime.DispatchPacket | crates/russh-extra/src/sftp/server.rs:318-349 | the branch on the type byte, over the cursor decoders, gives the state and answer of the dispatch function that the order theorem speaks about; the channel tables are untouched |
| SftpServer.SftpServerRuntime.AnswerPackets | crates/russh-extra/src/sftp/server.rs:291-306 | packets are answered in order up to the first refused write |
| SftpServer.SftpServerRuntime.HandleData | crates/russh-extra/src/sftp/server.rs:253-309 | unregistered channel: error and no change; invalid length: channel dropped and nothing dispatched; else the complete frames are answered in order and the tail is kept; tables keep equal keys and buffers stay strict prefixes of a frame |
| Answering.DispatchIssue | crates/russh-extra/src/sftp/server.rs:318-349 | the packet of an issued request makes the handler see that request, and its answer carries the same id |
| Answering.ReceivePrefix | crates/russh-extra/src/sftp/server.rs:253-309 | a chunk answers exactly the requests it completes |
| Answering.ServerAnswersInOrder | crates/russh-extra/src/sftp/server.rs:253-309 | however a concatenation of requests is cut, the handler sees exactly those requests in order and one response frame each, same id, goes out in that order |
| Answering.ServeChunks | crates/russh-extra/src/sftp/server.rs:253-309 | the runtime object fed the chunks of a channel one by one ends in the state, buffer and answers that the order theorem speaks about; other channels untouched |
| Answering.UndecodableIgnored | crates/russh-extra/src/sftp/server.rs:318-349 | an empty packet and a request that does not decode are neither seen by the handler nor answered |
| Answering.RefusedWriteEnds | crates/russh-extra/src/sftp/server.rs:291-306 | a refused write ends the call with an error: the handler has seen the packet in question and those before it, nothing after it, and only the answers before it went out |
| Answering.TakenWritesGoOn | crates/russh-extra/src/sftp/server.rs:291-306 | without a refusal every packet is seen and every answer goes out, in order |
| Answering.UnknownTypeAnswered | crates/russh-extra/src/sftp/server.rs:318-349 | a packet of an unknown type reaches no handler, changes nothing, and its answer is read by the client as an unsupported status under id 0 |
| Answering.InitLaw | crates/russh-extra/src/sftp/server.rs:353-365 | INIT of any version with any extensions: below 3 the handler is not asked and 3 is answered; otherwise it is asked once, with the version and the first 128 extensions, and its choice raised to 3 is held and answered, or its refusal goes unanswered |
| Answering.BadInitIgnored | crates/russh-extra/src/sftp/server.rs:353-354 | an INIT that does not decode changes nothing and is not answered |
| Answering.HandshakeAgrees | crates/russh-extra/src/sftp/server.rs:353-365 | INIT is answered by a VERSION that the client accepts and that names the version the server then holds, the handler's choice raised to 3; a refusing handler leaves it unanswered |
| SftpClient.RunGrows | crates/russh-extra/src/sftp/client.rs:129-150 | over any run, calls are never forgotten and what a sender delivered is never taken back |
| SftpClient.StepKeepsSafe | crates/russh-extra/src/sftp/client.rs:124-150 | every step of callers, write task and read task keeps the table invariant |
| SftpClient.RequestTableSafety | crates/russh-extra/src/sftp/client.rs:124-150 | after every run of at most 2^32 - 10 calls ids are distinct and nonzero, and each inserted sender is either pending and unfired or gone and fired exactly once |
| SftpClient.IdLaw | crates/russh-extra/src/sftp/client.rs:99-127 | in every run, however long, the ids handed out are nonzero if and only if there are at most 2^32 - 10 calls, and distinct if and only if there are at most 2^32 |
| SftpClient.PacketFiresOwnId | crates/russh-extra/src/sftp/client.rs:411-449 | a packet fires the pending sender under the id in its bytes, with its response or with a protocol error if it does not decode, and leaves every other call alone |
| SftpClient.IgnoredPackets | crates/russh-extra/src/sftp/client.rs:415-434 | unknown types, late VERSION packets and packets too short for an id change nothing |
| SftpClient.DrainFailsAllPending | crates/russh-extra/src/sftp/client.rs:384-391 | a drain fails everything then pending, once, and nothing else, and empties the table |
| SftpClient.WriteExitFails | crates/russh-extra/src/sftp/client.rs:524-535 | the write task ends by failing everything pending with a channel error, once, and recording the reason |
| SftpClient.CloseCompletesNothing | crates/russh-extra/src/sftp/client.rs:402-405 | a channel close stops the read task and leaves every call as it is |
| SftpClient.NoReaderNoResults | crates/russh-extra/src/sftp/client.rs:363-408 | in every run after the read task has stopped, no call completes until the write task ends |
| SftpClient.WriteQueueBound | crates/russh-extra/src/sftp/client.rs:95-138 | in every run at most 256 packets wait for the write task, and one is held back only when 256 do |
| SftpClient.DispatchAllSettles | crates/russh-extra/src/sftp/client.rs:411-449 | one response per id, in any order, completes each pending id with its own response |
| SftpClient.ReorderingIsHarmless | crates/russh-extra/src/sftp/client.rs:411-449 | two orders of the same responses leave the same table and results; covering every pending id empties the table |
| SftpClientTasks.SftpClientRuntime.NextRequestId | crates/russh-extra/src/sftp/client.rs:124-127 | takes the next id, with wrap-around, for a new call |
| SftpClientTasks.SftpClientRuntime.InsertPending | crates/russh-extra/src/sftp/client.rs:130-133 | the insertion step of the step system |
| SftpClientTasks.SftpClientRuntime.SendToWriter | crates/russh-extra/src/sftp/client.rs:135-138 | the queueing step of the step system |
| SftpClientTasks.SftpClientRuntime.FireSender | crates/russh-extra/src/sftp/client.rs:438-447 | the sender under an id, if any, leaves the table and fires |
| SftpClientTasks.SftpClientRuntime.Dispatch | crates/russh-extra/src/sftp/client.rs:411-449 | one packet, decoded through the cursor, dispatched as in the step system |
| SftpClientTasks.SftpClientRuntime.DrainPending | crates/russh-extra/src/sftp/client.rs:387-390 | the drain loop, in any order, fails exactly the pending calls |
| SftpClientTasks.SftpClientRuntime.CutFrame | crates/russh-extra/src/sftp/client.rs:373-400 | one round of the inner loop is one step of the step system |
| SftpClientTasks.SftpClientRuntime.ReadData | crates/russh-extra/src/sftp/client.rs:371-401 | one Data message: every whole frame dispatched, then the tail kept or everything pending failed |
| SftpClientTasks.SftpClientRuntime.WriteTaskExit | crates/russh-extra/src/sftp/client.rs:524-535 | the write task's end fails everything pending and records the reason |
| SftpClientTasks.ClientChunkingIrrelevant | crates/russh-extra/src/sftp/client.rs:369-407 | for every stream and every cutting, aborts included, the client and all its results end as if the stream had come in one piece |
| SftpClientTasks.SftpClientRuntime.ReadAll | crates/russh-extra/src/sftp/client.rs:369-407 | the client object fed Data messages one by one ends as after their concatenation |
| SftpClientTasks.FinishUnrolls | crates/russh-extra/src/sftp/client.rs:373-400 | the closed form of the inner loop satisfies the loop's unrolling |
| SftpClientTasks.ReadDataIsRun | crates/russh-extra/src/sftp/client.rs:369-407 | an uninterrupted Data message is a run of the step system, so the safety theorems cover it |
| Pipeline.ModerateFits | crates/russh-extra/src/sftp/server.rs:451-469 | an answer within one frame and with 16 bytes per entry is one the client reads back unchanged |
| Pipeline.ServerTakes | crates/russh-extra/src/sftp/server.rs:253-309 | any chunk to the server makes the handler see some more of what was written, in order, whatever its answers |
| Pipeline.ServerKeepsFlow | crates/russh-extra/src/sftp/server.rs:253-309 | any chunk to the server moves requests to answers without losing, adding or reordering any, if the answers given so far fit |
| Pipeline.CutKeepsFlow | crates/russh-extra/src/sftp/client.rs:373-400 | the packet that the client cuts answers its oldest unanswered request |
| PipelineTheorem.StepKeepsInv | crates/russh-extra/src/sftp/client.rs:363-449 | every step of callers, tasks, server and pipes keeps the pipeline invariant, if the answers given by then fit |
| PipelineTheorem.PipelineRefinesDirectCalls | crates/russh-extra/src/sftp/client.rs:124-150 | in every history, any interleaving, any chunking both ways, up to 2^32 - 10 calls, whose own answers fit the protocol: at rest the handler has seen exactly the issued requests in wire order, every call has completed exactly once with the handler's answer to that very request, and the table is empty |
| PipelineTheorem.StepLowersRank | crates/russh-extra/src/sftp/client.rs:363-408 | every working step lowers a well-founded rank, so without new calls every schedule ends |
| PipelineTheorem.NeverStuck | crates/russh-extra/src/sftp/client.rs:363-408 | a world not at rest can take a working step |
| PipelineTheorem.RestIsReachable | crates/russh-extra/src/sftp/client.rs:363-408 | from the end of every history the calls already made can be brought to completion, if their answers fit in whatever order they reach the wire |
| SftpApi.ErrorsReported | crates/russh-extra/src/sftp/server.rs:549-579 | four handler error kinds survive the status code, the rest become a remote status, none becomes OK or EOF |
| SftpApi.InterpretedIsDirect | crates/russh-extra/src/sftp/client.rs:152-302 | each API method's reading of the response to its request is the handler's own result, with errors by kind and metadata as delivered |
| SftpApi.PipelinedApiIsDirect | crates/russh-extra/src/sftp/client.rs:216-357 | at rest every API call through the pipeline has returned what a direct call of the handler at that point would give, if the answers of this history fit |
| Exchange.FittingExchange | crates/russh-extra/src/sftp/client.rs:129-150 | from idle ends, however both directions are cut: a request and an answer within the packet limit leave the caller with exactly the handler's answer, the request seen once, and both ends idle |
| Exchange.LongAnswerAborts | crates/russh-extra/src/sftp/client.rs:373-391 | an answer over the packet limit: the handler has served the request, the caller gets a protocol error and the read task is gone |
| Exchange.LongRequestHangs | crates/russh-extra/src/sftp/server.rs:272-279 | a request over the packet limit: the handler never sees it, the server drops the channel and sends nothing, and the call stays pending |
| Exchange.RequestArrives | crates/russh-extra/src/sftp/server.rs:253-309 | the server's side of both, for every cutting of the request |
| Transfer.Session.Call | crates/russh-extra/src/sftp/client.rs:129-150 | a call over the wire, cut anywhere: over the packet limit it is never answered and changes nothing; if its answer is over it, an error and the end of the session; otherwise the direct call of the handler at this point of its history; the remote files change by its effect, and a refusal is counted |
| Transfer.Session.Open | crates/russh-extra/src/sftp/client.rs:216-222 | for every open mode: returns exactly when granted with a handle that fits, hangs exactly when the path is over 262127 bytes; the file is emptied only under TRUNCATE and created only under CREATE, and the handle stands for path and mode |
| Transfer.Session.Read | crates/russh-extra/src/sftp/client.rs:224-241 | empty exactly at or past the end, else any non-empty part of what follows the offset, at most a chunk; returns exactly when not refused and the request fits, hangs exactly when it does not fit |
| Transfer.Session.Write | crates/russh-extra/src/sftp/client.rs:243-247 | through a handle opened for writing: a positional write when granted; no change when refused or, exactly when handle and data do not fit, when it hangs |
| Transfer.Session.Metadata | crates/russh-extra/src/sftp/types.rs:64-66 | no size or the size of the file; changes nothing remotely; returns exactly when not refused and the request fits |
| Transfer.Session.Close | crates/russh-extra/src/sftp/client.rs:249-253 | files unchanged, and that handle and no other gone when granted |
| Transfer.ReadToVec | crates/russh-extra/src/sftp/mod.rs:164-182 | for every handler that serves files by position and honours READ, with any short reads: success returns exactly the file; it panics only for a file longer than a vector can be; it fails or hangs only with a refusal or a packet over the limit, which paths up to 262127 and handles up to 229355 bytes rule out; a handler that refuses nothing needlessly makes it succeed on every existing file; files unchanged |
| Transfer.WriteAll | crates/russh-extra/src/sftp/mod.rs:188-201 | succeeds exactly when no call is refused and every packet fits, and then the remote file, new or old, is exactly the data; otherwise the file is as it was or a whole-chunk prefix of the data; other files untouched; a path over 262127 bytes hangs, and below that with handles up to 229355 bytes it never does; a handler that refuses nothing needlessly makes it succeed |
| Transfer.UploadThenDownload | crates/russh-extra/src/sftp/mod.rs:164-201 | upload then download is the identity, unless a call is refused or a packet is over the limit; with a handler that refuses nothing needlessly it always succeeds |
| Layout.TransferOpens | crates/russh-extra/src/sftp/mod.rs:164-194 | the OPEN packets of a download and an upload carry 0x1 and 0x1A |
| MemoryFiles.InMemoryIsPositional | tests/tests/sftp_server.rs:50-152 | the in-memory handler serves files by position from any point of its history on, grants every call it should, and honours the modes that create and truncate when they write and only then, so the transfer theorems hold of it |
| MemoryFiles.OpenModes | tests/tests/sftp_server.rs:50-97 | these are exactly the modes it honours: it empties an existing file as the bits say if and only if TRUNCATE goes with WRITE or CREATE, and grants a missing one as they say if and only if CREATE goes with WRITE |
| MemoryFiles.WriteAtBytes | tests/tests/sftp_server.rs:129-152 | a positional write byte by byte: the data, the old bytes around it, zeros in a gap |
| MemoryFiles.InMemoryIsBrief | tests/tests/sftp_server.rs:50-97 | for paths up to 229355 bytes no packet of a transfer with the in-memory handler is over the limit |
| MemoryFiles.LongPathOpens | crates/russh-extra/src/sftp/mod.rs:189-194 | a longer path, up to 262127 bytes, is opened for replacing over the wire, with the path as its handle and the file emptied |
| MemoryFiles.LongPathHangs | crates/russh-extra/src/sftp/mod.rs:195-198 | the first full chunk written to such a handle is never answered |
| Listing.BatchReceived | crates/russh-extra/src/sftp/client.rs:280-302 | a batch, encoded, decoded and interpreted, is the first min(n, B/16) of its entries as delivered, or the handler's error |
| Listing.BatchComplete | crates/russh-extra/src/sftp/packet.rs:243-246 | nothing of a batch is lost if and only if it has 16 bytes per entry |
| Listing.SftpDir.Read | crates/russh-extra/src/sftp/types.rs:129-141 | hands out exactly the next entry of what is to come, or ends, or fails, with nothing lost or repeated |
| Listing.ListAll | crates/russh-extra/src/sftp/types.rs:129-141 | repeated reads yield exactly what is heard of the handler's batches |
| Listing.ListingComplete | crates/russh-extra/src/sftp/server.rs:451-469 | for every sequence of batches and errors, the listing is the batches up to the first empty one or the first error if and only if each of them has 16 bytes per entry |
| Listing.ShortEntryEndsListing | crates/russh-extra/src/sftp/packet.rs:243-246 | a lone entry under 16 bytes ends the listing unseen |
| Listing.ShortEntryExists | crates/russh-extra/src/sftp/packet.rs:248-257 | a one-letter name without attributes takes 13 bytes |
| KnownHosts.HostMatchesIsEquivalence | crates/russh-extra/src/known_hosts.rs:454-460 | host matching is an equivalence |
| KnownHosts.HostMatchesIsRecasing | crates/russh-extra/src/known_hosts.rs:454-460 | hosts match if and only if they have the same length and each character is the same or the same ASCII letter in the other case |
| KnownHosts.VerdictIsLeastUpperBound | crates/russh-extra/src/known_hosts.rs:254-290 | the verdict is the highest opinion of any entry, in the order NotFound, Changed, Match, Revoked |
| KnownHosts.VerdictMeans | crates/russh-extra/src/known_hosts.rs:254-290 | what each verdict says about the entries for the host, in any case, and the port or any port: one is revoked; none is and one has the key; there are some; there are none |
| KnownHosts.RecasedVerdict | crates/russh-extra/src/known_hosts.rs:254-290 | every recasing of a host gets the same verdict |
| KnownHosts.VerdictJoins | crates/russh-extra/src/known_hosts.rs:244-250 | a concatenated store gives the higher of the two verdicts |
| KnownHosts.VerdictIgnoresOrder | crates/russh-extra/src/known_hosts.rs:254-290 | neither order nor repetition of entries matters |
| KnownHosts.RetainIs | crates/russh-extra/src/known_hosts.rs:310-313 | exactly the displaced entries go |
| KnownHosts.AddEntryEffect | crates/russh-extra/src/known_hosts.rs:308-322 | every verdict after adding an entry, for every host, port and key: other hosts unchanged, the endpoint decided by the new key, other ports forgotten after port 22, else judged by entries with an explicit port |
| KnownHosts.PinSurvives | crates/russh-extra/src/known_hosts.rs:308-322 | a pinned endpoint keeps its verdicts through another addition if and only if that is for another host, or a port other than 0, 22 and its own, or the same key on its port or port 0 |
| KnownHosts.UnserialisableAccepted | crates/russh-extra/src/known_hosts.rs:254-259 | a key that cannot be serialised is accepted even where the store revokes every other key |
| KnownHosts.StrictDecision | crates/russh-extra/src/client.rs:559-593 | without accept-new exactly the keys known and revoked nowhere for the endpoint are accepted, and unknown endpoints rejected |
| KnownHostsTrust.AdditionsEffect | crates/russh-extra/src/known_hosts.rs:308-322 | every verdict after any sequence of additions to any store, as a fold over host, port and key of the additions |
| KnownHostsTrust.SharedVerdict | crates/russh-extra/src/client.rs:559-593 | every verdict at the end of every interleaving of looks and additions, from any store |
| KnownHostsTrust.PinLaw | crates/russh-extra/src/client.rs:559-593 | after any further interleaving an endpoint still has the key that a first contact added if and only if the fold of the later additions ends on that key |
| KnownHostsTrust.MoveKeepsPin | crates/russh-extra/src/known_hosts.rs:308-322 | a look never loses a pin, and an addition only as one of three kinds: for any port, for port 22 as another port, or another key from a connection that looked before the pin |
| KnownHostsTrust.TrustOnFirstUse | crates/russh-extra/src/client.rs:559-593 | in every interleaving without such an addition, once a contact has added its key, an attempt on the endpoint is accepted if and only if it presents that key or one that cannot be serialised, and refused as changed otherwise |
| KnownHostsTrust.OverlapForgets | crates/russh-extra/src/client.rs:560-577 | two overlapping first contacts are both accepted, and then the first key is refused as changed |
| KnownHostsTrust.MixedPortsForget | crates/russh-extra/src/known_hosts.rs:308-322 | with mixed ports the accepted key is forgotten and any other is accepted |
| KnownHostsText.ParseDecimal | crates/russh-extra/src/known_hosts.rs:116-125 | a printed port is read back |
| KnownHostsLoad.HostList | crates/russh-extra/src/known_hosts.rs:131-135 | a list of hosts separated by commas is exactly those hosts, in order, each for any port |
| KnownHostsLoad.InBrackets | crates/russh-extra/src/known_hosts.rs:115-122 | `[host:port]` is that host and port; anything else in brackets is a host for any port |
| KnownHostsLoad.AfterBrackets | crates/russh-extra/src/known_hosts.rs:123-129 | `[host]:port` is that host, less one closing bracket too many, and port; without a valid port it is all one host |
| KnownHostsLoad.OpenBracketOnly | crates/russh-extra/src/known_hosts.rs:129-130 | an opening bracket with neither ending is dropped |
| KnownHostsLoad.Ports | crates/russh-extra/src/known_hosts.rs:116-125 | a port is a decimal number below 65536 with an optional plus sign |
| KnownHostsLoad.NoPort | crates/russh-extra/src/known_hosts.rs:116-125 | a port text with any other character, or none, is no port |
| KnownHostsLoad.AsciiSpaces | crates/russh-extra/src/known_hosts.rs:66-81 | which ASCII characters separate fields |
| KnownHostsLoad.SplitSpread | crates/russh-extra/src/known_hosts.rs:66-81 | words separated by any white space are split into exactly those words |
| KnownHostsLoad.EntryLine | crates/russh-extra/src/known_hosts.rs:57-94 | a line gives one entry for each host of its pattern, in order, with its algorithm, decoded key, comment words and revoked marker, whatever white space separates or surrounds the fields |
| KnownHostsLoad.ListedVerdict | crates/russh-extra/src/known_hosts.rs:57-136 | so every listed host, in any case and on any port, gets the line's verdict |
| KnownHostsLoad.BlankLine | crates/russh-extra/src/known_hosts.rs:411-452 | a blank line gives nothing |
| KnownHostsLoad.OtherLines | crates/russh-extra/src/known_hosts.rs:411-437 | a comment gives nothing; a hashed host or a certificate authority gives exactly one warning with the line's number and text |
| KnownHostsLoad.UnparsableLine | crates/russh-extra/src/known_hosts.rs:439-448 | fewer than three fields, or a third that does not decode, after any markers, gives exactly one warning with the line's number and text |
| KnownHostsLoad.FileLines | crates/russh-extra/src/known_hosts.rs:411-452 | a file splits into its lines at line feeds, with or without carriage returns, the last one ended or not |
| KnownHostsLoad.FileRead | crates/russh-extra/src/known_hosts.rs:411-452 | entries and warnings are those of the lines in order, numbered from 1 |
| KnownHostsLoad.NoLeadingZero | crates/russh-extra/src/known_hosts.rs:353-357 | a port is printed without leading zeros |
| KnownHostsLoad.PrintedText | crates/russh-extra/src/known_hosts.rs:352-371 | `save` prints marker, host, algorithm, key and comment one space apart, with brackets for ports other than 0 and 22 |
| KnownHostsRoundTrip.BracketedHost | crates/russh-extra/src/known_hosts.rs:113-130 | a bracketed host and port are read back, for every host not ending in a bracket |
| KnownHostsRoundTrip.HostPartParses | crates/russh-extra/src/known_hosts.rs:113-136 | the printed host part of a printable entry is one host with its port, 22 read as 0 |
| KnownHostsRoundTrip.BodySplits | crates/russh-extra/src/known_hosts.rs:66-81 | the fields of a printed line are the host part unless it is empty, the algorithm, the key and the comment words |
| KnownHostsRoundTrip.LineParses | crates/russh-extra/src/known_hosts.rs:57-94 | the printed line of a printable entry reads back as that entry, without a warning |
| KnownHostsRoundTrip.LineParsed | crates/russh-extra/src/known_hosts.rs:57-94 | whatever the text, every entry read from a line has a host without white space, a one-word algorithm, a non-empty key and a single-spaced comment |
| KnownHostsRoundTrip.LineParsesIff | crates/russh-extra/src/known_hosts.rs:57-136 | a printed line reads back as its entry if and only if its host survives: no comma, bracket, marker, hash sign or bar where the parser would act on it, and not empty; otherwise the entry is not even among those read |
| KnownHostsRoundTrip.CommaHostLost | crates/russh-extra/src/known_hosts.rs:131-135 | an entry for host `a,b` does not come back |
| KnownHostsRoundTrip.GapStays | crates/russh-extra/src/known_hosts.rs:411-452 | once a saved store is read one entry behind, no later line closes the gap |
| KnownHostsRoundTrip.SaveLoad | crates/russh-extra/src/known_hosts.rs:352-371 | a saved store loads back, in order and with port 22 as 0, if and only if every entry is printable; then there are no warnings |
| KnownHostsRoundTrip.SecondSaveLoad | crates/russh-extra/src/known_hosts.rs:411-452 | a second save and load is the identity |
| KnownHostsRoundTrip.LoadedVerdict | crates/russh-extra/src/known_hosts.rs:353-357 | every verdict after loading: the old one joined with what the port 22 entries say |
| KnownHostsRoundTrip.LoadedVerdictUnchanged | crates/russh-extra/src/known_hosts.rs:353-357 | verdicts at port 22 never change, and none changes without a port 22 entry |
| KnownHostsStore.Store.CheckKey | crates/russh-extra/src/known_hosts.rs:254-290 | the early-returning loop computes the join of all opinions; an unserialisable key is not found |
| KnownHostsStore.Store.AddEntry | crates/russh-extra/src/known_hosts.rs:294-325 | the retained entries in order, then the new one without a comment and not revoked; an unserialisable key is an error and no change |
| KnownHostsStore.Store.Merge | crates/russh-extra/src/known_hosts.rs:244-250 | entries and warnings appended; no verdict goes down |
| KnownHostsStore.Store.CheckServerKey | crates/russh-extra/src/client.rs:554-593 | the decision is that of the store before the look; the store gets the other connections' additions between the two locks, then this one's if the key was not found |
| KnownHostsStore.Store.Print | crates/russh-extra/src/known_hosts.rs:350-371 | the print loop produces the text that the round trip speaks about |
| KnownHostsStore.Store.Load | crates/russh-extra/src/known_hosts.rs:411-452 | the line loop computes entries and numbered warnings of the content |
| KnownHostsStore.Store.SaveThenLoad | crates/russh-extra/src/known_hosts.rs:347-371 | a saved and reloaded store has the loaded entries if and only if they are printable, and then no warnings and the same verdicts at port 22 |
| Exec.PumpStepKeepsInv | crates/russh-extra/src/server.rs:2107-2183 | every step of handler and pump keeps the trace in line with the commands issued |
| Exec.StreamingTrace | crates/russh-extra/src/server.rs:2101-2183 | for every handler, ending and interleaving, also with a context that outlives the handler, the finished channel shows the confirmation, the outputs before the first exit in order, the first exit or 0 or 1, EOF and Close; it finishes only after an exit or when the context is gone |
| Exec.TraceShape | crates/russh-extra/src/server.rs:2114-2182 | a trace is the confirmation, one message per output before the first exit in the order issued, standard error as extended data of type 1, then the handler's exit, EOF and Close; the exit is left out if and only if the first exit is `Missing` |
| Exec.HandlerExitIs | crates/russh-extra/src/server.rs:2114-2182 | the exit reported is that of the first exit command, or else 0 or 1 by how the handler ended |
| Exec.RunPump | crates/russh-extra/src/server.rs:2114-2182 | the pump loop on the commands of an ended handler produces that trace |
| Exec.ResponseShape | crates/russh-extra/src/server.rs:3001-3034 | the messages of a one-shot response by case, standard error as extended data of type 1 |
| Exec.SendExecResponse | crates/russh-extra/src/server.rs:3001-3034 | the messages sent are accepted ones of the response in order, up to the first refusal; all of them exactly when none is refused |
| ExecClient.RunCommand | crates/russh-extra/src/client.rs:924-1016 | the message loop computes the collector fold, result and messages sent |
| ExecClient.CommandLaw | crates/russh-extra/src/client.rs:932-1016 | the command succeeds if and only if it is confirmed, not rejected, within limits, its reply goes out and the connection is not lost; then it returns all Data, all ExtendedData and the first exit before Close, having sent stdin, EOF and Close |
| ExecClient.FatalLaw | crates/russh-extra/src/client.rs:934-970 | which error a failing command returns and exactly what it has sent: a rejection and each limit close the channel, a failed send does not; nothing after that message matters |
| ExecClient.EndLaw | crates/russh-extra/src/client.rs:995-1008 | running out of messages on a lost connection is a disconnect; ending or closing before the confirmation is unconfirmed; with exactly what has been sent |
| ExecClient.FirstStop | crates/russh-extra/src/client.rs:932-985 | every message sequence is hopeful to its end or has a first message that closes or is fatal, so the three laws cover every run |
| ExecClient.SendsAndLimits | crates/russh-extra/src/client.rs:934-970 | at every moment the buffers are within the limits, nothing but a close is sent before the confirmation, and stdin and EOF are sent at most once in this order |
| ExecClient.StreamingEndToEnd | crates/russh-extra/src/server.rs:2101-2182 | for every handler and interleaving the client gets exactly the handler's stdout, stderr and exit if and only if the limits allow it |
| ExecClient.ResponseEndToEnd | crates/russh-extra/src/server.rs:3001-3034 | the same for the one-shot response |
| Shell.ShellHandle.Read | crates/russh-extra/src/shell.rs:151-214 | leftover then payload taken equals bytes returned then leftover; at most one leftover is non-empty; the last exit wins; nothing past the first payload or Close is taken; the bytes are as many as fit; exactly when 0 bytes are returned |
| Shell.ShellHandle.Wait | crates/russh-extra/src/shell.rs:174-213 | the message loop's part of it |
| Shell.ReadMany | crates/russh-extra/src/shell.rs:151-214 | any number of reads of any sizes returns, with the leftover, exactly the payloads taken in arrival order |
| Shell.ShellAsyncIo.Bridge | crates/russh-extra/src/shell.rs:875-951 | payloads pass in order and exits are recorded until Close or the end of the channel |
| Shell.ShellAsyncIo.PollRead | crates/russh-extra/src/shell.rs:814-840 | bytes ahead equal bytes returned then bytes still ahead, as many as fit; pending if and only if nothing is ahead and more may come |
| Shell.Drive | crates/russh-extra/src/shell.rs:813-841 | any interleaving of arrivals and polls returns, with the bytes still ahead, exactly the payloads that passed in order before Close or the end of the channel |

## Left out

- PipelineRefinesDirectCalls: is about histories whose answers each fit one frame and give NAME batches 16 bytes per entry; past the first that does not, the client loses entries or aborts, as `NameComplete` and `DrainFailsAllPending` say.
- RestIsReachable: is about a connection that stays up; after a channel close or a read abort calls stay pending, as `NoReaderNoResults` says.
- ServerAnswersInOrder: is about a session that takes every write; `AnswerPackets` says what a refused write does.
- The bytes that follow VERSION in the handshake's first read, which `connect` drops: the pipeline starts with none in flight.
- The abort reason that `send_and_await` reads when a sender is dropped unfired: under the call bound no sender is.
- The russh transport, key exchange, sockets, timeouts and task scheduling: channels are ordered message sequences and tasks are interleaved steps.
- Strings of 2 GiB and more, whose length words can wrap, in transfers: `Session.Call` is about shorter ones.
- The best-effort close that dropping an unclosed file spawns.
- Several SFTP subsystem channels per connection: each request replaces the runtime.
- File access, permissions and tilde expansion around the known-hosts file, and the text of error messages.
- The stdin side of streaming exec: the map of stdin senders and the data handler that feeds it.
- Signal names on the wire: a signal is its name, so a custom signal that spells a standard one is not told apart.
- `into_async_io` on a handle with leftover bytes: the async reader starts empty.
- Tunnels and remote-forward registries, endpoint text forms, credentials and session counters: no harder property than those above.
