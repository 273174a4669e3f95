# A verified model of motu-proxy

`motu-proxy` lets many HTTP clients and one background long-poller share a single USB control pipe to a
MOTU audio interface. This project models the parts of it that have to be right for that to work, and
proves what they promise. Check everything with `dafny verify dfyconfig.toml`.

The project follows the program's layers, from the wire up.

- `Bytes`, `Crc32`, `Frames`, `Requests`, `Utom`, `JsonContainer`: the wire codec and the scanners of
  `motu_proxy/parser.py` and `motu_proxy/protocol.py`. The CRC is the bitwise one of section 8 of RFC 1952; the
  scanners are compared with a grammar built from sections 2 and 7 of RFC 8259. The encoders and decoders of the
  device's side are here too, as partners of the host's.
- `Receive`: `MotuUsbDatastore`, one request and its response. The class keeps running totals; the specification
  (`Received`, `Ending`, `BooksOf`) looks only at the packets read so far and at an arbitrary environment: chunks,
  clock readings, cancellations and short writes.
- `Accounting`: the books of a request by what the parser and the sequence peek make of the packets alone: what a
  success has counted and written, and what each failure was for.
- `Intruders`: a response comes back whole among frames of other requests, device acks and unknown packets.
- `RoundTrip`: the whole way of a response, from parts over frames, padding and USB chunks on one stream back to the
  bytes, and exactly when a chunk of padding breaks it.
- `Session`: `ManagedDatastore`, the session manager. `Legal` says what a trace of events may look like, the class is
  proved to produce legal traces only, and the promises are proved of every legal trace.
- `Arbitration`, `Cache`, `Coordination`, `Coordinator`: `DatastoreCoordinator`. Each lock-hold segment is one atomic
  step. `Arbitration` is the step system of the I/O slot, `Cache` the ETag history and what a waiter is told from it,
  and `Coordination` puts both together with a changing device, any number of foreground threads, the poller with its
  early copy of the latest ETag, and clients that merge what they are given. `Coordinator` is the class itself: each
  method takes a step of the system, so the invariants hold after any sequence of calls by any threads.
- `OwnChanges`, `Provenance`, `AcrossSessions`, `ExampleRuns`: when a waiting client is woken for nothing but its own
  writes, when a 304 hides somebody else's change, when a recorded transition joins two sessions, what a client makes of
  a transition when sessions come and go, and runs in which these go wrong.
- `Handshake`: `UsbFsCancellableBulkRead`, where `read` and `cancel` race without a lock against a kernel that answers
  as it likes; every access to a flag and every ioctl is a step.

Where code and documentation differ, the model follows the code. The documented requirement "Long-poll client
filtering" (in the openspec directory) promises that a waiter is not woken solely for its own write. The code does not
keep that. `OwnChanges.WokenForOwnWritesExactly` says when it does: if every change of the device since the client's
ETag is the client's own, it is left waiting if and only if no publication under another name moved the latest ETag, it
wrote at most once, the poller brought no answer that it had asked for from the client's ETag, and the bounded history
still holds the client's own transition. `ExampleRuns.OwnChangeCanComeBack`, `ExampleRuns.TwoOwnWritesComeBack` and
`ExampleRuns.UnrefreshedWriteComesBack` are runs in which it is woken.

More properties one might expect turn out false and are treated alike: each has an input that fails and its exact
condition.

- A 304 can hide somebody else's change: `ExampleRuns.ForeignChangeIsAbsorbed`, `Provenance.HiddenChangesExactly`.
- A recorded transition can join two sessions: `ExampleRuns.SessionsAreMixed`, `Provenance.SessionsJoinedExactly`.
- A client whose copy is of another session drifts when it merges a transition, joined or not:
  `ExampleRuns.OldCopyDrifts`, `AcrossSessions.DriftExactly`.
- A `read` that ends can leave a completed URB with the kernel: `Handshake.UrbCanBeAbandoned`,
  `Handshake.UrbIsAccountedForExactly`.
- A padded response can fail to come back: `RoundTrip.PaddingChunkBreaksTheNextRead`,
  `RoundTrip.ZeroPaddedRoundTripExactly`.

## Model

| member | source | states |
|---|---|---|
| `Crc32.BurstIsDetected` | motu_proxy/protocol.py:38-39 | any change confined to four consecutive bytes of any message changes its CRC-32 |
| `Crc32.FeedSeparates` | motu_proxy/protocol.py:38-39 | two different bit strings of at most 32 bits never lead the same register to the same register |
| `Crc32.FeedKeepsDifference` | motu_proxy/protocol.py:38-39 | two registers that differ still differ after any common continuation |
| `Crc32.CrcIsRemainder` | motu_proxy/protocol.py:38-39 | the message with its first 32 bits complemented, followed by the complement of the CRC, is a multiple of the generator that section 8 of RFC 1952 gives by its exponents |
| `Frames.ParseOfEncode` | motu_proxy/parser.py:53-109 | every frame the device can encode, with any padding behind it, is parsed back exactly |
| `Frames.EncodeOfParse` | motu_proxy/parser.py:53-109 | the first `wrapper_len` bytes of every accepted packet are the encoding of the frame returned |
| `Frames.AcceptedIsEncoded` | motu_proxy/parser.py:53-109 | a packet is accepted if and only if it is the encoding of a frame with that sequence number, padded or not |
| `Frames.Encode` | tests/helpers.py:6-27 | the device's encoder; the length of what it writes is the wrapper length |
| `Frames.OneSequencePerPacket` | motu_proxy/parser.py:82-83 | a packet accepted for one sequence number is rejected, as another's, for every other |
| `Frames.PayloadGuardedByCrc` | motu_proxy/parser.py:91-94 | with the bytes around the payload unchanged, a payload with another CRC is rejected for its CRC |
| `Frames.CorruptionIsRejected` | motu_proxy/parser.py:91-94 | changing anything inside any four consecutive payload bytes of an accepted packet gets it rejected |
| `Frames.PeekAgreesWithParse` | motu_proxy/datastore.py:1461-1470 | the sequence number peeked from an accepted packet is the one it was accepted for, and the packet is no device ack |
| `Frames.PeekExactly` | motu_proxy/datastore.py:1461-1470 | what is peeked is the four bytes at 12, exactly for a response header whose announced length covers them |
| `Frames.PeekSurvivesDamage` | motu_proxy/datastore.py:1461-1470 | a frame damaged outside its length, header and sequence fields is still known by its sequence |
| `Frames.DeviceAckExactly` | motu_proxy/parser.py:41-42 | a device ack is exactly an empty wrapper of length 8, sent twice |
| `Frames.FirstFault` | motu_proxy/parser.py:117-125 | there is no fault if and only if every segment from there on has its index and the final flag is on the last one only |
| `Frames.Join` | motu_proxy/parser.py:112-127 | joining succeeds if and only if the frames are numbered from zero and only the last one is final |
| `Frames.JoinParsedFrames` | motu_proxy/parser.py:112-127 | the loop returns what `Join` says, including which error comes first |
| `Frames.JoinOfParts` | motu_proxy/parser.py:112-132 | any non-empty selection of the frames of one response joins if and only if it is the whole response in order, and then gives it back: a drop, duplicate or reorder is always rejected |
| `JsonContainer.IsSingleJsonContainer` | motu_proxy/parser.py:257-299 | true exactly for one derivation of the nesting grammar with JSON whitespace around it |
| `JsonContainer.CoreAcceptedIsContainer` | motu_proxy/parser.py:266-299 | the stack automaton accepts exactly the texts that the grammar derives |
| `JsonContainer.DeriveItems` | motu_proxy/parser.py:275-299 | an accepting scan yields a derivation for every open level of the stack |
| `JsonContainer.AcceptsThroughItems` | motu_proxy/parser.py:275-299 | scanning a derived text leaves the stack and the flags as they were |
| `JsonContainer.NothingFollows` | motu_proxy/parser.py:297-298 | a complete container with anything behind it is not a container |
| `JsonContainer.TrimmedTextIsCore` | motu_proxy/parser.py:260-265 | trimming leaves exactly one core to judge, wherever the whitespace is |
| `JsonContainer.TwoContainersRejected` | motu_proxy/parser.py:294-299 | two containers, with or without whitespace between, are never accepted |
| `JsonContainer.ExtractJsonBytes` | motu_proxy/parser.py:135-160 | the loop returns what `Extract` says: from the first opening brace to where its depth is back at zero |
| `JsonContainer.ObjectIsExtracted` | motu_proxy/parser.py:135-160 | an object of the grammar is cut out whole from behind any prefix without an opening brace and before any suffix |
| `JsonContainer.NothingWithoutBrace` | motu_proxy/parser.py:136-138 | nothing is extracted without an opening brace |
| `JsonContainer.NothingBeforeTheEnd` | motu_proxy/parser.py:142-160 | nothing is extracted from an object that is cut off anywhere |
| `JsonContainer.ObjectLengthItems` | motu_proxy/parser.py:142-159 | well-formed content inside an object, brackets and strings included, never ends the extraction |
| `Utom.ReadSizedStaysInside` | motu_proxy/parser.py:310-318 | a header read is a read of the metadata alone and never moves past its end |
| `Utom.ParseUtomResponse` | motu_proxy/parser.py:186-208 | the body is what follows the declared metadata whatever the headers hold, the ETag is that of the last ETag header read, and the loop takes at most (metadata length - 8) / 8 + 1 rounds |
| `Utom.ReadEtag` | motu_proxy/parser.py:198-207 | the header loop finds the last ETag header and takes no more rounds than the metadata has room for |
| `Utom.EtagIsFoundExactly` | motu_proxy/parser.py:205-206 | a header is an ETag exactly if its name spells it, in any case, with any spaces around it |
| `Utom.ValueIsStripped` | motu_proxy/parser.py:321-328 | a printable value comes back as its text without the outer spaces |
| `Utom.ValueIsLostExactly` | motu_proxy/parser.py:321-328 | a value is dropped exactly if it is not printable ASCII or blank |
| `Utom.HeadersOfEncoded` | motu_proxy/parser.py:200-207 | any encoded header list with words up to 4096 bytes is read back in order, even when more headers are announced |
| `Utom.FieldsOfEncoded` | motu_proxy/parser.py:186-208 | body, status and headers of an encoded response are recovered |
| `Requests.NextHostSeq` | motu_proxy/protocol.py:114-115 | the result is always in the host range |
| `Requests.HostSeqSuccessor` | motu_proxy/protocol.py:114-133 | stepping is counting modulo 32 from the start |
| `Requests.HostSequencer.Create` | motu_proxy/protocol.py:118-128 | a sequencer comes into being exactly for a start within the range |
| `Requests.HostSequencer.constructor` | motu_proxy/protocol.py:127-128 | begins with the start value and nothing taken |
| `Requests.HostSequencer.Take` | motu_proxy/protocol.py:130-133 | the k-th call hands out the k-th number after the start on a ring of 32 |
| `Requests.FieldsLenIsLength` | motu_proxy/protocol.py:85-111 | the predicted length of query fields is the length of their encoding |
| `Requests.PostBodyLimit` | motu_proxy/protocol.py:148-162 | the computed body limit is what the rest of the frame leaves of 65535 bytes |
| `Requests.PostFitsExactly` | motu_proxy/protocol.py:143-197 | for every path, client, header, sequence and body, a POST is built if and only if header and sequence are good and the frame, counted field by field, fits in 65535 bytes; its length and both length fields are then exact, and only the first size check can refuse it |
| `Requests.GetFitsExactly` | motu_proxy/protocol.py:180-218 | for every input, a GET is built if and only if header and sequence are good and the frame, counted field by field, fits in 65535 bytes; its length and length fields are then exact |
| `Requests.FrameFields` | motu_proxy/protocol.py:180-197 | every field of a built frame stands at its offset with its value |
| `Requests.DecodeOfFrame` | motu_proxy/protocol.py:180-240 | a device that reads any built frame recovers every part, with nothing left over |
| `Requests.DecodeOfPost` | motu_proxy/protocol.py:221-240 | every POST that can be built is read back as its own path, authorization, client and JSON body |
| `Requests.DecodeOfGet` | motu_proxy/protocol.py:200-218 | every GET that can be built is read back as its own path, ETag and query fields, client last |
| `Requests.DecodeOfAck` | motu_proxy/protocol.py:243-244 | an ack is read back as its sequence number, and is never taken for a request |
| `Requests.HeaderIsAscii` | motu_proxy/protocol.py:136-140 | the header strings are the bytes that stand in the frames |
| `Receive.ReadLogicalFrame` | motu_proxy/datastore.py:285-320 | the loop assembles what `Logical` says, fails as it says, and makes as many bulk reads as `Reads` says |
| `Receive.MotuUsbDatastore.constructor` | motu_proxy/datastore.py:205-216 | a datastore that has sent nothing, at the given sequences |
| `Receive.MotuUsbDatastore.SendAck` | motu_proxy/datastore.py:231-234 | one ack frame with the next host sequence; a short write is an error |
| `Receive.MotuUsbDatastore.HandlePacket` | motu_proxy/datastore.py:458-618 | a packet that names another request is acknowledged, counted as ignored, and leaves frames and bytes as they were; a damaged frame of this request, and no other packet, is fatal; every packet is booked and ends the loop as `Enter` and `StopOn` say |
| `Receive.KindIsSort` | motu_proxy/datastore.py:453-598 | the branches of the loop sort packets exactly by the parser, the peek and the shape of a device ack |
| `Receive.OthersAreSkipped` | motu_proxy/datastore.py:466-530 | a frame of another request, whole or damaged, is skipped; the loop can end on it only by a failed write or a limit |
| `Receive.MotuUsbDatastore.NextPacket` | motu_proxy/datastore.py:374-452 | cancellation, read limit, deadline and read errors, in that order of precedence |
| `Receive.MotuUsbDatastore.CollectResponse` | motu_proxy/datastore.py:345-664 | the whole loop: its packets, its end, its statistics, its acknowledgements with consecutive host sequences, at most `max_reads` reads |
| `Receive.MotuUsbDatastore.Finish` | motu_proxy/datastore.py:620-664 | no frames is no response, otherwise the joined response or the joining error, with statistics recorded |
| `Receive.MotuUsbDatastore.Exchange` | motu_proxy/datastore.py:261-270 | the message sequence moves on exactly when the frame was written in full, before the response is collected |
| `Receive.MotuUsbDatastore.Get` | motu_proxy/datastore.py:240-270 | a request that cannot be built or written in full fails with that error and changes no sequence; any other carries this request's sequences and returns what its own packets end in |
| `Receive.MotuUsbDatastore.Post` | motu_proxy/datastore.py:272-283 | the same for a POST |
| `Receive.BooksAreRight` | motu_proxy/datastore.py:361-369 | the running totals equal what counting and filtering the packets gives |
| `Receive.AcceptedMeansTagged` | motu_proxy/datastore.py:464-568 | the loop's branches accept a packet exactly when the parser accepts it for this request |
| `Receive.ResponseIsOwnFramesOnly` | motu_proxy/datastore.py:460-596 | whatever else came in, a response is the join of the frames tagged with the request's own sequence and of nothing else |
| `Receive.SequencesDiffer` | motu_proxy/datastore.py:225-229 | requests fewer than 2^32 apart have different message sequences |
| `Receive.NoPacketAnswersTwice` | motu_proxy/datastore.py:225-283 | no packet can be part of the answers to two written requests fewer than 2^32 apart |
| `Receive.ServeOne` | motu_proxy/datastore.py:240-283 | a request leaves an entry exactly when it was written in full, with the packets its environment gave it and the result they end in |
| `Receive.ServeAll` | motu_proxy/datastore.py:225-283 | over any run of requests, with any cancellations and any packets: the n-th answer is that of the n-th request, from the packets which that request itself read, and of them only its own frames; no packet serves two requests; every other answer is an error of building or writing |
| `Receive.ResponseIsWholeOrError` | motu_proxy/datastore.py:460-664 | if all frames under a sequence belong to one response, a successful request returns that response whole |
| `Accounting.CountsAddUp` | motu_proxy/datastore.py:452-598 | every packet falls into exactly one of the counted kinds |
| `Accounting.SuccessOnFinal` | motu_proxy/datastore.py:594-664 | success only ever comes with the final segment as the last packet, never from two quiet reads |
| `Accounting.SuccessAccounting` | motu_proxy/datastore.py:345-664 | on success, counting packets by the parser and the peek: reads = empty + device acks + ignored + accepted, ignored = naming another sequence + unknown, acks written = accepted + naming another sequence, none damaged, response length + 28 x frames <= bytes <= `max_bytes`, frames <= `max_response_frames`, reads <= `max_reads` |
| `Accounting.FailureHasItsReason` | motu_proxy/datastore.py:373-652 | each failure means what it says: which limit was exceeded and by what, which packet was damaged, that nothing or something had been accepted, which answer of the transport it was |
| `Accounting.GoesOnForAReason` | motu_proxy/datastore.py:453-618 | the other way round: when the loop goes on after a packet, every limit which that packet is held against is kept and its acknowledgement went out; it finishes exactly on the final frame or a second quiet read |
| `Accounting.EndsBeforeExactly` | motu_proxy/datastore.py:373-451 | when and how the loop ends before the next packet, by cancel, read limit, deadline and the read itself, in that order |
| `Accounting.QuietIsTrailing` | motu_proxy/datastore.py:453-458 | quiet reads are counted since anything last came in, empty slices before the deadline left out |
| `Accounting.StaleIsBooked` | motu_proxy/datastore.py:494-530 | the stale response under way is the whole frames of one other request since its last final one, with none of a third between |
| `Intruders.ResponseAmongIntruders` | motu_proxy/datastore.py:460-664 | a response in any parts, framed, padded and cut in any way, comes back whole however many frames of other requests, whole or damaged, device acks and unknown packets come in between, within the limits |
| `RoundTrip.ChunksReassemble` | motu_proxy/datastore.py:285-320 | however a padded frame is cut into non-empty chunks, the first of at least four bytes, it is read and parsed back; all chunks are read if and only if the frame ends in the last one |
| `RoundTrip.FrameBreaksOff` | motu_proxy/datastore.py:307-319 | a frame broken off by a cancel, an error or silence is no packet, and the read says which it was |
| `RoundTrip.FirstReadDecides` | motu_proxy/datastore.py:292-306 | silence is an empty packet, a cancel and an error are what they are, and a first chunk that cannot be a wrapper is no frame |
| `RoundTrip.SegmentsComeBack` | motu_proxy/datastore.py:285-664 | a response in any parts, each framed, padded and cut in any way and given to its round, comes back as the original bytes |
| `RoundTrip.RoundsMeetSegments` | motu_proxy/datastore.py:307-320 | on one stream, every round begins at its own segment as long as no chunk before was padding alone |
| `RoundTrip.WholeResponseRoundTrip` | motu_proxy/datastore.py:285-664 | the same from one stream of chunks, if no chunk before the last segment is padding alone |
| `RoundTrip.IdleChunkFails` | motu_proxy/datastore.py:300-304 | the first chunk of zeros alone is taken for a frame of its own, and the request fails on a short frame |
| `RoundTrip.ZeroPaddedRoundTripExactly` | motu_proxy/datastore.py:285-664 | with zeros for padding, whatever the loop reads on that stream, it returns the response if and only if no chunk before the last segment is padding alone |
| `RoundTrip.PaddingChunkBreaksTheNextRead` | motu_proxy/datastore.py:300-304 | two segments with four zeros in a chunk of their own between them: the request fails |
| `RoundTrip.OneEnd` | motu_proxy/datastore.py:373-664 | an environment determines what the loop reads and where it ends |
| `Session.DoublingIsBackoff` | motu_proxy/datastore.py:906-911 | clamped doubling steps through min(max, initial x 2^k) |
| `Session.ManagedDatastore.constructor` | motu_proxy/datastore.py:724-753 | delays are clamped to be non-negative and ordered; nothing has happened |
| `Session.ManagedDatastore.ScheduleRetry` | motu_proxy/datastore.py:906-911 | the next retry is put off by the present delay, which then doubles within its bounds |
| `Session.ManagedDatastore.ScheduleConfigurationErrorRetry` | motu_proxy/datastore.py:913-916 | the next retry is put off by the configuration delay; the backoff is untouched |
| `Session.ManagedDatastore.DiscardSession` | motu_proxy/datastore.py:893-904 | a held context is exited once; none is exited if none is held |
| `Session.ManagedDatastore.EnsureSession` | motu_proxy/datastore.py:838-882 | refuses when closed or before the retry is due, reuses a held session, and otherwise makes one attempt |
| `Session.ManagedDatastore.Open` | motu_proxy/datastore.py:852-882 | one attempt ends in a new generation with the backoff reset, or in a scheduled retry of the right kind |
| `Session.ManagedDatastore.Call` | motu_proxy/datastore.py:822-836 | from the fields and the environment as they were: the value is returned exactly if the operation reached a session and returned it, an exception is passed on exactly if it means no loss where it was raised, the device is unavailable exactly if closed, not yet due or lost, and a session is held afterwards exactly if the operation reached one and no loss was raised; the trace stays legal |
| `Session.CallAnswers` | motu_proxy/datastore.py:822-882 | that, of every trace |
| `Session.WhatEndsASession` | motu_proxy/datastore.py:703-714 | which exceptions end a session, which only keep one from being opened, and which are the caller's |
| `Session.ManagedDatastore.Operate` | motu_proxy/datastore.py:825-836 | the operation is delivered once; its value is returned exactly if it returns one; only a loss discards the session |
| `Session.ManagedDatastore.Close` | motu_proxy/datastore.py:798-802 | closed for good, with the held context exited |
| `Session.OneSessionAtATime` | motu_proxy/datastore.py:798-904 | over every run, contexts entered minus contexts exited is 1 exactly when a session is held, which between calls is exactly the state "available" |
| `Session.StateMeans` | motu_proxy/datastore.py:804-820 | what the reported state means: closed, available exactly while a session is held, configuration error exactly if the last attempt failed so, unavailable exactly before anything has come of a call |
| `Session.NothingAfterClose` | motu_proxy/datastore.py:798-842 | after `close` no session is attempted or opened and nothing is delivered, ever |
| `Session.AtMostOnce` | motu_proxy/datastore.py:822-836 | no operation is delivered more often than it was called: a loss is never answered by sending again |
| `Session.PostAndRefresh` | motu_proxy/datastore.py:1129-1145 | a coordinator's post is called once and reaches at most one session, once, exactly once if it returns; the refresh is called only then, and its failure does not change the answer |
| `Session.CallCounts` | motu_proxy/datastore.py:822-836 | a call delivers its own operation at most once, exactly once if it succeeds, and no other |
| `Session.OneAttemptPerCall` | motu_proxy/datastore.py:838-882 | over any stretch of any run, the opener is called at most once for each call |
| `Session.RetryDelayIsClosedForm` | motu_proxy/datastore.py:906-916 | in every legal trace, and so in every trace of the class, which only doubles and clamps, the k-th retry since the last successful open is put off by min(max, initial x 2^k), whatever configuration errors come between |
| `Session.DelaysAreWaited` | motu_proxy/datastore.py:844-849 | every scheduled delay is waited for by some attempt or is still due |
| `Session.AttemptsAreSpaced` | motu_proxy/datastore.py:838-916 | with a clock that does not run backwards, the opener is never called before any earlier scheduled delay has passed |
| `Arbitration.ExclusiveKept` | motu_proxy/datastore.py:1289-1336 | every step keeps: busy means exactly one holder, the owner names its kind, and the waiter count is the number of waiting threads on every exit path |
| `Arbitration.PreemptedKept` | motu_proxy/datastore.py:1289-1353 | every step keeps: an installed read is the poller's, and nobody waits behind it unless its cancel is requested |
| `Arbitration.HandedOnceKept` | motu_proxy/datastore.py:1338-1353 | every step keeps: each read is handed out at most once, and what was handed out was cancelled or is held by exactly one thread |
| `Arbitration.EveryRun` | motu_proxy/datastore.py:1078-1353 | all three hold in every reachable state |
| `Arbitration.PassEndsExactly` | motu_proxy/datastore.py:1289-1316 | in every run, a pass through the foreground acquire has the pipe if and only if it was free, gives up if and only if the poller had it, the budget is used up and the thread has a deadline, and otherwise waits; without the budget used up no thread gives up |
| `Arbitration.ForegroundGoesFirst` | motu_proxy/datastore.py:1318-1328 | the poller begins no tenure while a foreground thread waits |
| `Arbitration.WaiterIsServed` | motu_proxy/datastore.py:1289-1353 | a read someone waits behind has been cancelled, or one thread's next step is to cancel it |
| `Cache.LastForeign` | motu_proxy/datastore.py:1404-1410 | a transition from this ETag not made by the client, and none only if all of them are the client's own |
| `Cache.RecordKeeps` | motu_proxy/datastore.py:1384-1395 | one more transition keeps the history sound, ordered and bounded |
| `Cache.ForegroundPublishKeeps` | motu_proxy/datastore.py:1368-1396 | publishing a full read keeps the shelf sound, and the poller's copy usable |
| `Cache.PollerPublishKeeps` | motu_proxy/datastore.py:1211-1230 | publishing the poller's answer keeps it sound although the ETag it asked from was copied earlier |
| `Cache.CachedTransitionIsSound` | motu_proxy/datastore.py:1161-1169 | a client at the state of its ETag that merges a cached transition is at the device's state at the new ETag |
| `Cache.NothingIsHidden` | motu_proxy/datastore.py:1398-1415 | a waiter told nothing has every recorded transition from its ETag on as its own |
| `Cache.WaiterIsToldExactly` | motu_proxy/datastore.py:1398-1415 | a waiter gets the farthest foreign transition from its ETag, or waits if and only if there is no news, or reads afresh |
| `Cache.PublishedIsDelivered` | motu_proxy/datastore.py:1368-1415 | the next published change goes verbatim to a waiter at the latest ETag, and leaves its originator waiting |
| `Coordination.StructuredKept` | motu_proxy/datastore.py:1103-1232 | every move keeps: a response in hand belongs to the thread that holds the pipe |
| `Coordination.GenerationSafeKept` | motu_proxy/datastore.py:1355-1425 | every move keeps: the shelf is of one session, and responses in hand are of the present one |
| `Coordination.PublishKeepsGeneration` | motu_proxy/datastore.py:1355-1425 | resetting and publishing keep the shelf of one generation, bounded, without empty transitions, and only poll-path payloads change it |
| `Coordination.GenerationSafety` | motu_proxy/datastore.py:1103-1425 | over every run, with sessions lost and opened at any time, the latest ETag and every entry came from a response of the recorded generation |
| `Coordination.AllSoundKept` | motu_proxy/datastore.py:1103-1232 | every move within a session keeps shelf, poller copy, responses in hand and client copies sound |
| `Coordination.ClientsNeverDrift` | motu_proxy/datastore.py:1103-1232 | over every one-session run, every client that merges what it is given has exactly the device's state at its ETag |
| `Coordination.FreshReadIsHandedOver` | motu_proxy/datastore.py:1103-1127 | when a thread finishes a published read of the poll path, its client has the ETag of the response and the device's state at it; at every other move but the gift of a cached transition a client keeps what it has |
| `Coordination.ReadingAfreshCatchesUp` | motu_proxy/datastore.py:1147-1204 | a client told to read afresh ends up where the device was at its fetch, not behind what was the latest ETag then or when it was told |
| `Coordination.SessionIsPutOnRecord` | motu_proxy/datastore.py:1286-1287 | whoever notices a session or publishes puts it on record, and what was of another one is gone |
| `Coordination.NotModifiedHidesNothing` | motu_proxy/datastore.py:1158-1175 | over every one-session run, a 304 hides no recorded transition but the waiter's own |
| `Coordination.LatestOnlyGrows` | openspec/changes/archive/2026-06-30-add-datastore-http-api-compat/design.md:26 | over every one-session run the latest ETag never falls back |
| `OwnChanges.LeftAloneExactly` | motu_proxy/datastore.py:1368-1415 | over any stretch of publications, whoever makes them, a client that held the latest ETag is left waiting if and only if none under another name moved the latest ETag, it wrote at most once, no answer asked for from its ETag came in, and its own transition was not dropped |
| `OwnChanges.LeftWaitingExactly` | motu_proxy/datastore.py:1147-1232 | the same over every one-session run of the step system |
| `OwnChanges.WokenForOwnWritesExactly` | motu_proxy/datastore.py:1147-1232 | if all changes of the device since the client's ETag are its own, all it could be told of is its own, and it is woken for that exactly unless it is left alone in that sense |
| `Provenance.EverythingIsKnown` | motu_proxy/datastore.py:1103-1232 | in every run, with any sessions, the latest ETag, the poller's copy and every response in hand trace back to the fetch or the copy they came from, and to its session |
| `Provenance.WhereRecorded` | motu_proxy/datastore.py:1384-1395 | every entry of the history was recorded by one publication, found by how many entries stand behind it |
| `Provenance.HiddenChangesExactly` | motu_proxy/datastore.py:1129-1175 | a client left waiting behind the latest ETag has somebody else's change hidden from it if and only if the device was changed by somebody else between the fetch that brought its ETag and the refresh of its own post that brought the latest |
| `Provenance.SessionsJoinedExactly` | motu_proxy/datastore.py:1206-1232 | for every entry, the one publication that recorded it and the fetches that brought in its ends (a beginning of "0", from the poller's first read, was fetched by nobody): the ends are of different sessions if and only if the entry is the poller's and the session generation on record was another one when it copied the ETag than when it published |
| `Provenance.BackwardsMeansJoined` | motu_proxy/datastore.py:1206-1232 | a transition to a smaller ETag joins two sessions |
| `AcrossSessions.HistoryIsOfItsSession` | motu_proxy/datastore.py:1355-1425 | over every run, whatever sessions come and go, each entry that does not lead backwards is what changed between its ends on the device of the session on record |
| `AcrossSessions.DriftExactly` | motu_proxy/datastore.py:1161-1169 | over every run, a client that is given such an entry then has the device's state at its new ETag, in the session on record, if and only if its copy agreed with that session's state at its old ETag outside what the entry carries |
| `AcrossSessions.CauseOfDrift` | motu_proxy/datastore.py:1161-1232 | a client whose copy is of the session on record drifts only by an entry that the poller recorded with an ETag copied in another session |
| `ExampleRuns.OwnChangeCanComeBack` | motu_proxy/datastore.py:1206-1232 | a run in which the poller copies the ETag before a write, and its answer wakes the writer for nothing but that write |
| `ExampleRuns.TwoOwnWritesComeBack` | motu_proxy/datastore.py:1411-1412 | a run in which two own writes send the waiter to read them afresh |
| `ExampleRuns.UnrefreshedWriteComesBack` | motu_proxy/datastore.py:1134-1142 | a run in which a post's refresh raises, and somebody's read wakes the writer for nothing but its own write |
| `ExampleRuns.ForeignChangeIsAbsorbed` | motu_proxy/datastore.py:1132-1142 | a run in which a post's refresh brings a change that another client made, under the poster's name, and the poster is not told |
| `ExampleRuns.SessionsAreMixed` | motu_proxy/datastore.py:1211-1230 | a run in which the poller asks in a new session from the ETag it copied in the old one, and a client that merges the recorded transition has no state of the new device |
| `ExampleRuns.OldCopyDrifts` | motu_proxy/datastore.py:1161-1169 | a run in which both ends of the transition are of the new session, and a client whose copy is of the old one drifts by it |
| `Coordinator.DatastoreCoordinator.constructor` | motu_proxy/datastore.py:1011-1022 | an idle pipe, no thread anywhere, and an empty history of the present generation |
| `Coordinator.DatastoreCoordinator.RequestActivePollCancel` | motu_proxy/datastore.py:1349-1353 | the installed read is handed out, once |
| `Coordinator.DatastoreCoordinator.EnterForeground` | motu_proxy/datastore.py:1289-1316 | from the fields as they were: acquired exactly if the pipe was free, given up exactly if the poller had it, the budget is used up and there is a deadline, the read in the way cancelled exactly if nobody had; keeps the invariants; what it cancels nobody cancelled before |
| `Coordinator.DatastoreCoordinator.WakeForeground` | motu_proxy/datastore.py:1295-1316 | the same from one wait to the next |
| `Coordinator.DatastoreCoordinator.TryPoller` | motu_proxy/datastore.py:1318-1328 | keeps the invariants; the poller begins exactly when nobody holds the pipe, nobody waits for it and nothing is closed |
| `Coordinator.DatastoreCoordinator.ReleaseIo` | motu_proxy/datastore.py:1330-1336 | keeps the invariants; nobody holds the pipe, no read is installed, and the waiters are still counted |
| `Coordinator.DatastoreCoordinator.SetActivePollRead` | motu_proxy/datastore.py:1338-1347 | keeps the invariants; the new read comes back for cancelling exactly when somebody waits, and then only here |
| `Coordinator.DatastoreCoordinator.CloseLocked` | motu_proxy/datastore.py:1078-1085 | keeps the invariants; an installed read is being cancelled, and if it is handed out here, it is nowhere else |
| `Coordinator.DatastoreCoordinator.CancelHanded` | motu_proxy/datastore.py:1084-1085 | the cancel that follows outside the lock is the first and only one for that read |
| `Coordinator.DatastoreCoordinator.PublishPayload` | motu_proxy/datastore.py:1368-1396 | keeps the history bounded and of one session; the latest ETag moves exactly for recorded payloads |
| `Coordinator.DatastoreCoordinator.ResetIfSessionGenerationChanged` | motu_proxy/datastore.py:1417-1425 | nothing of another session is kept |
| `Coordinator.DatastoreCoordinator.PublishResponse` | motu_proxy/datastore.py:1355-1396 | a response of any session may be published, and the history is then of that session |
| `Coordinator.DatastoreCoordinator.FindWaitOutcome` | motu_proxy/datastore.py:1398-1415 | the backward walk finds what `WaitOutcome` defines by newest foreign and oldest own transition |
| `Handshake.InvKept` | motu_proxy/transports/usbfs.py:141-243 | every step keeps: a URB with the kernel, asked to be cancelled and not reaped, has had a discard tried or a thread is still ahead of its discard check; a failed discard's errno is written or its writer is about to; `read` goes on without its URB only after a cancel |
| `Handshake.EveryRun` | motu_proxy/transports/usbfs.py:141-243 | that holds in every interleaving of `read` with any number of successive `cancel` calls |
| `Handshake.BlockedReadIsDiscarded` | motu_proxy/transports/usbfs.py:215-227 | a `read` blocked in the kernel has had its URB discarded, or the cancelling thread is about to decide on that |
| `Handshake.UrbIsAccountedForExactly` | motu_proxy/transports/usbfs.py:167-243 | a `read` that ends without raising has taken its URB, or a last reap found nothing, or a discard failed with ENODEV, if and only if it did not look for the errno of a failed discard between the two writes of the cancelling thread (or that errno is ENODEV) |
| `Handshake.UrbCanBeAbandoned` | motu_proxy/transports/usbfs.py:179-227 | a run in which that happens: `read` ends as cancelled and its completed URB stays with the kernel |
| `Handshake.ClearWasSeen` | motu_proxy/transports/usbfs.py:149-155 | `read` judges the status only after it has found the cancel flag clear |
| `Handshake.DataIsOwnAndClean` | motu_proxy/transports/usbfs.py:141-159 | data is returned only for the read's own URB, taken from the kernel with status 0, without timeout and with no cancel seen |
| `Handshake.ReadEndsExactly` | motu_proxy/transports/usbfs.py:141-159 | how `read` ends, both ways: data exactly if its URB was taken with status 0, it had not timed out and found the cancel flag clear; empty exactly if it had timed out; interrupted exactly if it saw a cancel or the URB was completed as cancelled; raised exactly if it met an error |
| `Handshake.UndisturbedReadEnds` | motu_proxy/transports/usbfs.py:141-159 | a `read` that nothing disturbs ends by the status of its URB, with data for status 0 |
| `Handshake.ExpiredReadReturns` | motu_proxy/transports/usbfs.py:190-227 | a `read` whose deadline passes discards its URB, takes it back and returns empty |
| `Handshake.TimeoutHasItsReason` | motu_proxy/transports/usbfs.py:201-206 | nothing times out before its deadline |
| `Handshake.NoSecondDiscard` | motu_proxy/transports/usbfs.py:167-174 | a `cancel` that begins when the URB was reaped or its discard was made or has failed makes no ioctl |
| `Handshake.DiscardsWhatWasSubmitted` | motu_proxy/transports/usbfs.py:167-177 | nothing is discarded that was not submitted |

## Left out

- HTTP server, command line, device discovery, schema, path rules and JSON body checks (motu_proxy/http_server.py, motu_proxy/cli.py, motu_proxy/device.py, motu_proxy/schema.py, motu_proxy/paths.py, motu_proxy/json_body.py) are not modelled.
- Text-HTTP replies, capability discovery, status dictionaries, content types, log rate limiting and text rendering are not modelled.
- `init` and `_drain_quiet` of `MotuUsbDatastore`, `elapsed_ms` in the statistics, and the remembered response state of `ManagedDatastore`: no decision of the model depends on them.
- Real time: clock readings are arbitrary values, and a deadline is a comparison. How soon a cancel or `close` takes effect is not stated.
- Degraded mode: its refresh read is an ordinary foreground read of the poll path; when it is due is not modelled.
- Interruption of a thread by the interpreter itself, such as a keyboard interrupt between two statements.
- Locks: `DatastoreCoordinator` and `ManagedDatastore` are modelled at the grain of their lock-hold segments. `_closed` and the session cannot change inside `_ensure_session`, because `close` takes the same operation lock, so its second look is not modelled.
- Handshake.EveryRun: states the two-thread protocol on values, not on a shared object, because both threads change the same flags between any two steps; the wake-up pipe, the event and the poll are left out, so it says that a discard is tried, not when the reader wakes. `read` is called once on an object.
- Coordination.ClientsNeverDrift: the ETag is a counter with "0" for a client that knows nothing, a device counter starts above zero and keys are never removed, as the design documents it; the poll path is not the meters path, and its body does not depend on query fields.
- Coordination.ClientsNeverDrift: is stated within one session; what happens across sessions is `Coordination.GenerationSafety`, `Provenance.SessionsJoinedExactly` and `AcrossSessions.DriftExactly`.
- AcrossSessions.DriftExactly: does not cover a transition that leads backwards, because a device that is asked from an ETag which it has not reached may answer anything; `Provenance.BackwardsMeansJoined` says where such a transition comes from.
- Receive.MotuUsbDatastore.CollectResponse: keeps the response from which the last payload and ETag are parsed, not the parsed payload; the parsing is `Utom.ParseUtomResponse`.
- Receive.MotuUsbDatastore.constructor: demands a host sequence within the range; a start outside it is refused by `Requests.HostSequencer.Create`.
- Session.AttemptsAreSpaced: delays are real numbers, so rounding of floating-point times is not modelled.
