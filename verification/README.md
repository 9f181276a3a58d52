# Verified models of the Stellar streaming protocols

Dafny models of the parts of Stellar that other parts rely on to move bytes and to keep track of
work, with proofs of what they promise. `dafny verify dfyconfig.toml` checks everything.

Each concurrent piece is modelled twice. An interleaving model has one step per critical section,
channel operation or write, and the theorems about it speak of every run. Beside it stands a class
whose methods have the branches and updates of the source, running without interference; their
contracts tie them to the model or to functions about which the theorems are proved. What other parties
do - the reply to a request, the events that come meanwhile, the execution of a command, whether a
packet can be sent - is a parameter of these methods.

- **Multiplexer** (`Bytes`, `Framing`, `Connection`, `StreamReader`, `StreamSafety`,
  `StreamDelivery`, `StreamSharing`, `StreamWriter`, `MuxRun`, `MuxDelivery`, `MuxEnd`, `TornWrites`,
  `StreamIds`, `Multiplexer`): frames with an 8-byte header on one byte pipe, routed to streams that are
  read in arbitrary pieces. Framing is a codec with its exact domain; one stream is a machine of WriteData,
  Read, Close and error steps; both ends together are a machine from Write on many streams to Read on
  many streams.
- **Control plane** (`Packet`, `PendingRequests`, `BaseClient`, `ControlPlane`): length-prefixed
  packets on stream 0, the bounded queue, the table of pending requests and the event handler.
- **Compute runs** (`RunHandles`, `ComputeClient`, `RunStatus`, `ComputeServer`, `Utf8`,
  `LogForwarding`, `OutputForwarder`): handles completed once from many sources, run records with
  racing cancellations, and two forwarders that share a log.
- **Command lines** (`CommandLine`, `CommandBytes`, `ComputePage`): the printer and the parser of the
  server, on decoded units and on bytes, and the parser of the web page.
- **Files** (`FileTransfer`): uploads with a header line and downloads.
- **Environment** (`Environment`): the user's variables folded over the server's environment.
- **Circuit breaker** (`CircuitBreaker`): the breaker of the Python client around its retry loop.

## What the code does that a reader may not expect

Where a promise does not hold of the code, the code is modelled as it is and the failing family is
delimited by an if-and-only-if, with an input or a run that shows it.

- A payload of 0x47455420 bytes, or of 2^32 bytes and more, is written and not read back
  (`Framing.RoundTripIff`, `LostFrame`).
- A frame behind a stream's end-of-file marker, or one that arrives during a local Close, can be sent
  on a closed channel (`StreamSafety.ChannelSafetyIff`, `PanicBehindMarker`, `PanicByClose`). The field
  `eofReceived`, whose comment says it prevents new data, is never consulted. A write can slip behind the
  marker while the stream is being closed (`StreamWriter.WellEndedIff`, `WriteBehindMarker`).
- When the connection ends at a frame boundary, which is how the peer's `Multiplexer.Close` looks, since
  it closes the connection first and sends no markers, Read answers io.EOF as if the marker had come, even
  with frames still queued (`StreamDelivery.CutShortIff`, `EarlyEof`, `MuxEnd.CutShortIff`).
- A write that fails in the middle of a frame does not close the multiplexer, and every frame put behind
  the torn one is misread (`TornWrites.DecodesToWhatWasSentIff`, `Misread`).
- `readLoop` tells waiting readers of the end only if it was waiting for a header; cut off inside a
  payload or stopped by a guard, it leaves them waiting (`Multiplexer.Multiplexer.ReadLoop`,
  `MuxEnd.WaitsForeverIff`, `LeftWaiting`).
- Two Read calls at the same time on one stream can lose bytes: what the one has left of its frame is
  overwritten by the other (`StreamSharing.ScrambledIff`, `TwoReaders`).
- `WritePacket` accepts packets of more than 10 MiB, which `ReadPacket` refuses
  (`Packet.GetsThroughIff`, `OversizeIsRefused`).
- A run that ended can still be overwritten as canceled by a request that saw it running
  (`RunStatus.FinalIff`, `CompletedThenCanceled`), and the client may have been told that it completed.
- A process killed by a signal has exit code -1 and counts as completed
  (`RunStatus.OutcomeTellsExitCode`, `KilledIsCompleted`).
- Log entries hold text: a character split between two reads is replaced, so that only ASCII output is
  logged exactly whatever the reads (`LogForwarding.AlwaysLoggedIff`, `SplitCharacterIsLost`).
- Undecodable bytes of an argument come back as U+FFFD (`CommandBytes.RoundTripBytesIff`,
  `BadByteIsReplaced`).
- The page keeps a line break between words in the token, where the server splits
  (`ComputePage.SameTokensIff`, `TwoLines`).
- A download that ends early is not an error by itself; only the checksum stands guard
  (`FileTransfer.ReceiveDownload`, `EarlyEndsRefusedIff`, `ShortDownloadAccepted`). A failed upload destroys the file that was at
  its path before (`FileTransfer.UploadStoredIff`).
- On systems other than Windows a user variable named Path survives or not depending on the map order,
  because the server always sets PATH (`Environment.PathOfTheUser`, `TwoPaths`).
- A timeout is not counted by the breaker; during the trial call it leaves the circuit half open, and
  every later call gets through (`CircuitBreaker.NextAdmittedIff`, `TimeoutsGetThrough`).

## Model

| member | source | states |
|---|---|---|
| `Framing.RoundTripIff` | p2p/protocols/common/multiplexer/multiplexer.go:515-556 | a list of frames decodes to itself with nothing left over if and only if every payload is below 2^32 bytes, not 0x47455420 bytes long, and not HTTP-looking on stream 0 |
| `Framing.LostFrame` | p2p/protocols/common/multiplexer/multiplexer.go:586-594 | a frame of 0x47455420 zeros on stream 1 is written and not read back |
| `Framing.DecodeEncodeAll` | p2p/protocols/common/multiplexer/multiplexer.go:562-638 | decoding the frames written, followed by anything, gives those frames and then what the rest decodes to |
| `Framing.EncodeDecode` | p2p/protocols/common/multiplexer/multiplexer.go:562-638 | unless a guard stops the reader, encoding the decoded frames and adding the undecoded rest gives back every received byte; every decoded frame is one the format can carry |
| `Framing.DecodeAppend` | p2p/protocols/common/multiplexer/multiplexer.go:562-638 | chunking is irrelevant: decoding a first part and continuing with its rest plus later bytes is decoding everything at once; after a guard fired nothing more is delivered |
| `Framing.DecodePrefix` | p2p/protocols/common/multiplexer/multiplexer.go:562-638 | a prefix of the wire decodes to a prefix of the frames, plus a rest that is a proper beginning of the next frame |
| `Framing.ParseEncode` | p2p/protocols/common/multiplexer/multiplexer.go:515-533 | one encoded frame is parsed back, whatever follows it |
| `Connection.Conn.WriteFull` | p2p/protocols/common/multiplexer/multiplexer.go:523-546 | the short-write loop ends; on success exactly the given bytes went out, on failure a prefix of them, a proper one unless the connection reports errors after taking everything |
| `Connection.Conn.ReadFull` | p2p/protocols/common/multiplexer/multiplexer.go:577-599 | io.ReadFull takes exactly the next n bytes whatever the pieces, or all that is left and fails |
| `StreamReader.SoloIsARun` | p2p/protocols/common/multiplexer/multiplexer.go:93-222 | a Read call on its own is a run of the interleaving model, without Close and with one reader |
| `StreamReader.InvRun` | p2p/protocols/common/multiplexer/multiplexer.go:93-297 | in every run: the channel is closed exactly if it was closed once, only after the flag was set, and frames are queued, taken and dropped in the order they came |
| `StreamSafety.ClosedAtMostOnce` | p2p/protocols/common/multiplexer/multiplexer.go:169-178 | dataChan is closed at most once in every run of readLoop, any number of Read calls and Close calls |
| `StreamSafety.NoPanic` | p2p/protocols/common/multiplexer/multiplexer.go:224-267 | nothing is sent on the closed channel if nothing follows the marker and the stream is not closed locally |
| `StreamSafety.ChannelSafetyIff` | p2p/protocols/common/multiplexer/multiplexer.go:224-297 | the exact condition: frames can make WriteData send on a closed channel unless nothing follows the first zero-length frame and, where a local Close may happen, no frame arrives at all |
| `StreamSafety.PanicBehindMarker` | p2p/protocols/common/multiplexer/multiplexer.go:224-267 | a frame behind the marker can meet the channel closed between the check and the send |
| `StreamSafety.PanicByClose` | p2p/protocols/common/multiplexer/multiplexer.go:280-297 | so can a frame that arrives during a local Close |
| `StreamDelivery.Delivery` | p2p/protocols/common/multiplexer/multiplexer.go:93-267 | the bytes accepted for a stream are those returned by Read, held, buffered, queued, in transit and discarded, in this order, with local Close, late frames and transport errors allowed |
| `StreamDelivery.EofOnlyAfterEverything` | p2p/protocols/common/multiplexer/multiplexer.go:93-222 | without a local Close, an io.EOF that did not come out of errChan means that the marker came through and every byte before it was returned; unless the connection ends at a frame boundary there is no other io.EOF |
| `StreamDelivery.EofDrainsFirst` | p2p/protocols/common/multiplexer/multiplexer.go:103-165 | with a local Close too, a Read that decides on io.EOF leaves no queued frame unread, unless the connection ends at a frame boundary |
| `StreamDelivery.CutShortIff` | p2p/protocols/common/multiplexer/multiplexer.go:191-221 | the exact condition: a reader can be told io.EOF early, with the marker missing or bytes unread, if and only if the connection may end at a frame boundary and the frames are not just the marker |
| `StreamDelivery.EarlyEof` | p2p/protocols/common/multiplexer/multiplexer.go:191-221 | a run in which a byte that has arrived is passed over for the io.EOF of the connection |
| `StreamSharing.SharedDelivery` | p2p/protocols/common/multiplexer/multiplexer.go:93-222 | any number of callers get exactly the bytes accepted, in order, if their Read calls take turns, and also if they overlap but no frame longer than the smallest buffer has data behind it |
| `StreamSharing.ScrambledIff` | p2p/protocols/common/multiplexer/multiplexer.go:93-222 | the exact condition: with buffers of any size, bytes of these frames can be lost or misplaced if and only if Read calls may overlap and two of the frames have data |
| `StreamSharing.TwoReaders` | p2p/protocols/common/multiplexer/multiplexer.go:198-215 | a run in which the second of two callers overwrites what the first has left |
| `StreamWriter.WellEndedIff` | p2p/protocols/common/multiplexer/multiplexer.go:307-331 | for callers that write no empty data, nothing follows the marker if and only if in the order of the calls no successful Write comes behind a marker of Close that went out and before Close sets its flag |
| `StreamWriter.WriteBehindMarker` | p2p/protocols/common/multiplexer/multiplexer.go:307-331 | a run in which one does |
| `MuxDelivery.EndToEnd` | p2p/protocols/common/multiplexer/multiplexer.go:93-639 | in every run of both ends, failed writes included, in which nothing is put behind a torn frame, for every stream, the bytes written are those read, held, buffered, queued, in the loop and on the wire; the wire decodes without a guard firing |
| `TornWrites.DecodesToWhatWasSentIff` | p2p/protocols/common/multiplexer/multiplexer.go:547-554 | the exact condition: in every run, what was put on the connection decodes to the frames whose writes were not given up in the middle, and at most one torn frame, if and only if no frame was put behind a torn one |
| `TornWrites.Misread` | p2p/protocols/common/multiplexer/multiplexer.go:547-554 | a header that goes out alone makes the next frame, header and all, the payload of the wrong stream |
| `MuxDelivery.EndOfFile` | p2p/protocols/common/multiplexer/multiplexer.go:93-330 | in every such run no stream panics or drops a frame, and io.EOF comes only when the marker was the last frame written and everything before it has been read, or because the connection ended at a frame boundary |
| `MuxEnd.CutShortIff` | p2p/protocols/common/multiplexer/multiplexer.go:562-577 | a reader can be told io.EOF early if and only if the connection may end at a frame boundary |
| `MuxEnd.LeftWaiting` | p2p/protocols/common/multiplexer/multiplexer.go:596-604 | a run in which the connection ends inside a payload and a waiting reader has nothing left to wake it |
| `MuxEnd.WaitsForeverIff` | p2p/protocols/common/multiplexer/multiplexer.go:562-604 | the exact condition: over every run, once readLoop has stopped, a reader waiting for data waits forever if and only if the loop had read a whole header |
| `MuxDelivery.NeverStuck` | p2p/protocols/common/multiplexer/multiplexer.go:223-267 | while the connection holds, the transport can move, or a reader with queued frames can, or every frame sent was taken by its reader |
| `Multiplexer.Stream.Read` | p2p/protocols/common/multiplexer/multiplexer.go:93-222 | an undisturbed Read ends where the interleaving model ends for it, and returns what the model returned |
| `Multiplexer.Stream.WriteData` | p2p/protocols/common/multiplexer/multiplexer.go:224-267 | a frame for an open stream is queued, one for a closed stream is dropped |
| `Multiplexer.Stream.WriteError` | p2p/protocols/common/multiplexer/multiplexer.go:269-278 | an open stream without an error gets this one, io.EOF or another |
| `Multiplexer.Stream.CloseReader` | p2p/protocols/common/multiplexer/multiplexer.go:280-297 | the flag is set and the channel closed, once |
| `Multiplexer.Multiplexer.OpenStream` | p2p/protocols/common/multiplexer/multiplexer.go:362-385 | the search ends and picks the first free ID of the cyclic order; it answers 0 exactly if it starts at 0 and the control stream is missing; no other entry changes |
| `Multiplexer.Multiplexer.ControlStream` | p2p/protocols/common/multiplexer/multiplexer.go:388-403 | stream 0, created once |
| `Multiplexer.Multiplexer.OpenStreamWithID` | p2p/protocols/common/multiplexer/multiplexer.go:406-430 | each error exactly when the source reports it; otherwise a new stream under that ID and nothing else changed |
| `Multiplexer.Multiplexer.CloseStream` | p2p/protocols/common/multiplexer/multiplexer.go:444-458 | the stream leaves the map, its reader is closed, the marker goes out at most once, and no write is accepted behind it |
| `Multiplexer.Multiplexer.WriteData` | p2p/protocols/common/multiplexer/multiplexer.go:473-556 | a frame goes out completely or a prefix of it does; refused payloads and a closed multiplexer write nothing |
| `Multiplexer.Multiplexer.Write` | p2p/protocols/common/multiplexer/multiplexer.go:307-320 | a closed writer writes nothing; otherwise one frame with all the bytes |
| `Multiplexer.Multiplexer.Route` | p2p/protocols/common/multiplexer/multiplexer.go:620-638 | the frame reaches the stream with its ID, created if need be, and no other stream |
| `Multiplexer.Multiplexer.ReadFrame` | p2p/protocols/common/multiplexer/multiplexer.go:562-618 | the next frame of the byte stream, or why there is none |
| `Multiplexer.Multiplexer.NotifyAll` | p2p/protocols/common/multiplexer/multiplexer.go:562-576 | every open stream of the map is told of the error |
| `Multiplexer.Multiplexer.ReadLoop` | p2p/protocols/common/multiplexer/multiplexer.go:559-639 | an undisturbed loop delivers exactly the frames the received bytes decode to; readers are told of the end only if it was waiting for a header, and told io.EOF only if no byte of it had come |
| `Multiplexer.Multiplexer.Close` | p2p/protocols/common/multiplexer/multiplexer.go:642-686 | in any map order every stream is closed, and no marker goes out |
| `Multiplexer.RouteAllSeparates` | p2p/protocols/common/multiplexer/multiplexer.go:620-638 | after any frames each open stream gained exactly its own payloads in order, and a stream exists exactly if it did before or a frame came for it |
| `StreamIds.SearchEndsIff` | p2p/protocols/common/multiplexer/multiplexer.go:362-385 | the ID search ends if and only if some nonzero ID is free, or it starts at 0 and 0 is free |
| `StreamIds.IssuedClosedForm` | p2p/protocols/common/service/base_server.go:165-174 | the n-th ID handed out is n mod (2^32 - 1), plus 1 |
| `StreamIds.IssuedDistinct` | p2p/protocols/common/service/base_server.go:165-174 | IDs are never 0, and two are equal exactly if their calls are a multiple of 2^32 - 1 apart |
| `StreamIds.AllocationNeverCollides` | p2p/protocols/compute/service/server.go:189-220 | with a client that writes only on announced IDs, the next ID is not in the map, for the first 2^32 - 1 allocations and any interleaving of frames and closes |
| `Packet.WritePacket` | p2p/protocols/common/protocol/packet.go:83-109 | a successful write puts the two frames of the packet on the wire |
| `Packet.ReadPacket` | p2p/protocols/common/protocol/packet.go:112-160 | the outcome is a function of the bytes, however they are cut up |
| `Packet.Read` | p2p/protocols/common/protocol/packet.go:112-160 | every length accepted is at most 10 MiB, and exactly the packet is taken |
| `Packet.SmallPassesGuards` | p2p/protocols/common/protocol/packet.go:83-109 | no guard of the multiplexer rejects either frame of a packet of at most 10 MiB, and neither is empty |
| `Packet.GetsThroughIff` | p2p/protocols/common/protocol/packet.go:112-160 | a packet passes all guards and is read back if and only if its text is at most 10 MiB |
| `Packet.OversizeIsRefused` | p2p/protocols/common/protocol/packet.go:83-109 | a lawful codec and a text of 10 MiB and one byte that is written and refused |
| `Packet.ReadPrefix` | p2p/protocols/common/protocol/packet.go:112-160 | whatever part of a series of packets has arrived, those read are the first of the series |
| `Packet.ControlDelivery` | p2p/protocols/common/multiplexer/multiplexer.go:93-639 | over every run of the two ends that stays in step, what has been read from stream 0 parses as the first packets written, and as all of them once all was read |
| `PendingRequests.ExactlyOnce` | p2p/protocols/common/service/base_client.go:151-174 | in every interleaving of register, dispatch, cancel, send failure and failAllPending, IDs are unique, each request is in exactly one of four places, and Deliver never finds a channel full |
| `PendingRequests.EachPacketOnce` | p2p/protocols/common/service/base_client.go:296-334 | packets are dispatched in the order read, each to exactly one request, whose matcher accepts it or fails on it, or to the event handler, if every request then pending passes it over; a request takes at most one packet and is given exactly the answer to it |
| `PendingRequests.ReplyAnswersItsRequest` | p2p/protocols/compute/service/client.go:437-474 | over every run, a decodable packet that went to a request is the response that request asked for, and is what the request was given |
| `PendingRequests.OrderIndependenceIff` | p2p/protocols/compute/service/client.go:437-474 | for decodable packets the map order does not matter if and only if no two pending requests want the same kind of response for the same run |
| `PendingRequests.MalformedOrderIndependenceIff` | p2p/protocols/compute/service/client.go:437-474 | with undecodable payloads it does not matter if and only if no two pending requests want the same kind |
| `PendingRequests.GoesToEventsIff` | p2p/protocols/compute/service/client.go:437-474 | over every run, a decodable packet goes to the event handler if and only if no request then pending wants its kind for its run |
| `PendingRequests.ReachesTheAsker` | p2p/protocols/compute/service/client.go:437-474 | over every run, a response dispatched while its asker is pending, and alone in asking for it, goes to that request and is what it was given |
| `BaseClient.PendingRequest.Deliver` | p2p/protocols/common/service/types.go:24-29 | a full channel keeps what it has |
| `BaseClient.BaseClient.RegisterPending` | p2p/protocols/common/service/base_client.go:336-348 | a fresh request under the next ID |
| `BaseClient.BaseClient.DispatchPending` | p2p/protocols/common/service/base_client.go:315-334 | in any map order, the packet goes to some request that does not pass it over, and to none exactly if there is none |
| `BaseClient.BaseClient.CompletePending` | p2p/protocols/common/service/base_client.go:350-360 | a request still pending gets the error; an answered one keeps its answer |
| `BaseClient.BaseClient.FailAllPending` | p2p/protocols/common/service/base_client.go:362-369 | every pending request fails once and the table is empty |
| `BaseClient.GetOrCreateStream` | p2p/protocols/common/service/base_client.go:177-214 | the open stream of that ID or a new one in its place; never stream 0 |
| `ControlPlane.ControlPlane.Run` | p2p/protocols/common/control_plane/control_plane.go:100-128 | the reader neither invents nor moves a packet, loses one only if the context is canceled, and stops when the queue is full |
| `ControlPlane.ControlPlane.Next` | p2p/protocols/common/control_plane/control_plane.go:58-88 | the next packet in order, the error after all packets, or the cancellation of the caller |
| `ControlPlane.RunDispatcher` | p2p/protocols/common/service/base_client.go:296-313 | the packets dispatched are the first of the control stream, in order, and all of them if nothing is canceled, each to one request or the event handler; at the end each request pending at the start has been given exactly one response |
| `RunHandles.SingleCompletion` | p2p/protocols/compute/service/client.go:295-310 | in every interleaving each channel of a handle gets at most one value, both values from the same call, and is closed only after getting it; complete never blocks or panics |
| `RunHandles.CompleteNeverHangs` | p2p/protocols/compute/service/client.go:295-310 | a call of complete can always take a step, or the call it waits for can |
| `RunHandles.TerminalEventCompletes` | p2p/protocols/compute/service/client.go:66-97 | no terminal event is lost, even before Run returns: once it was looked up and the calls of complete returned, both values were sent and both channels closed, unless Run itself failed |
| `ComputeClient.CompletedInFourStages` | p2p/protocols/compute/service/client.go:295-310 | the object and the interleaving model complete a handle alike |
| `ComputeClient.CompletedTwice` | p2p/protocols/compute/service/client.go:295-310 | a second completion changes nothing |
| `ComputeClient.RawExecutionHandle.Complete` | p2p/protocols/compute/service/client.go:295-310 | the first call sends both values and closes both channels; later calls do nothing |
| `ComputeClient.RawExecutionHandle.CompleteFromStatus` | p2p/protocols/compute/service/client.go:277-293 | the outcome and exit code of each terminal status |
| `ComputeClient.EventsHandler.HandleEvent` | p2p/protocols/compute/service/client.go:66-97 | exactly a terminal status of a registered run completes its handle and unregisters it; everything else is left alone |
| `ComputeClient.EventsHandler.CompleteAll` | p2p/protocols/compute/service/client.go:49-64 | in any map order every registered handle is completed and all are forgotten |
| `ComputeClient.EventsHandler.HandleEvents` | p2p/protocols/compute/service/client.go:66-97 | of packets that come one after the other, each registered handle is completed by the first that ends its run, and unregistered; a handle without one stays as it is |
| `ComputeClient.EventsHandler.Run` | p2p/protocols/compute/service/client.go:159-232 | the handle is registered before anything is sent: the first event that ends the run completes it even if it comes before the reply, and it is registered afterwards exactly if Run succeeds and no such event came; other runs are completed by their own events only |
| `RunStatus.RunningIffNoEndTime` | p2p/protocols/compute/service/server.go:499-544 | in every run of the server, Running holds exactly when the end time is unset, and a completed or failed status agrees with an exit code the monitor learnt |
| `RunStatus.StatusesOnlyAge` | p2p/protocols/compute/service/server.go:317-338 | from any state on: no run becomes Running again, Canceled is final, and an ended run stays or becomes Canceled with its exit code kept |
| `RunStatus.EndedChangesOnlyByCancel` | p2p/protocols/compute/service/server.go:317-338 | only a cancel request that had seen Running changes an ended run |
| `RunStatus.FinalIff` | p2p/protocols/compute/service/server.go:317-338 | an ended status is final if and only if it is Canceled or no cancel request that saw Running is still on its way |
| `RunStatus.CompletedThenCanceled` | p2p/protocols/compute/service/server.go:317-341 | the race: a run reported completed and then recorded and reported canceled |
| `RunStatus.EndedIsReported` | p2p/protocols/compute/service/server.go:81-116 | however a run ended - by its exit, a cancel request or Close - an event about it is sent once every process has done its part |
| `RunStatus.KilledIsCompleted` | p2p/protocols/compute/service/server.go:518-526 | a run of a killed process, with exit code -1, that is reported as completed |
| `RunStatus.EventsAgree` | p2p/protocols/compute/service/server.go:540-544 | status events about a run are the same event, apart from cancellations; none says Running |
| `RunStatus.OutcomeTellsExitCode` | p2p/protocols/compute/service/client.go:277-293 | over every run, an event that tells of no cancellation carries what the monitor of its own run learnt; a handle completed by it reports success if and only if that is an exit code and not positive, which includes the -1 of a killed process, and failure otherwise |
| `ComputeServer.RunRecord.Finish` | p2p/protocols/compute/service/server.go:518-540 | the monitor ends a running run by its exit code and leaves an ended one alone |
| `ComputeServer.Server.NextStreamID` | p2p/protocols/common/service/base_server.go:165-174 | the counter skips 0 and wraps |
| `ComputeServer.FourIds` | p2p/protocols/compute/service/server.go:189-193 | the four IDs of a run are nonzero and distinct, also across the wrap-around |
| `ComputeServer.Server.OpenAll` | p2p/protocols/compute/service/server.go:195-220 | all four streams are opened or none stays |
| `ComputeServer.Server.HandleRun` | p2p/protocols/compute/service/server.go:167-297 | each rejection exactly under its condition, leaving runs and streams as they were; acceptance opens four new streams and stores a running record, which is forgotten again if the response cannot be sent |
| `ComputeServer.Server.HandleCancel` | p2p/protocols/compute/service/server.go:299-344 | without interference: the answer and the new record for each case |
| `ComputeServer.Server.MonitorExecution` | p2p/protocols/compute/service/server.go:499-544 | an unknown run is skipped, a known one finished, and its status reported |
| `ComputeServer.Server.Close` | p2p/protocols/compute/service/server.go:81-116 | in any map order exactly the running runs are canceled and reported; then the control plane is canceled and every stream closed |
| `Utf8.CoerceKeepsValid` | p2p/protocols/compute/service/server.go:547-563 | text in a JSON entry never gets shorter, and keeps its bytes, or its length, if and only if it is valid UTF-8 |
| `Utf8.CoerceIsValid` | p2p/protocols/compute/service/server.go:547-563 | what an entry holds is valid UTF-8 |
| `LogForwarding.LogIsMerge` | p2p/protocols/compute/service/server.go:269-285 | when the log closes, both outputs are closed, and unless an entry could not be written the entries of each kind are the chunks written on that stream, in order; their bytes are exactly the output if and only if every chunk is valid UTF-8 by itself |
| `LogForwarding.NothingAfterClose` | p2p/protocols/compute/service/server.go:281-285 | no entry and no output follows the close of the log |
| `LogForwarding.AlwaysLoggedIff` | p2p/protocols/compute/service/server.go:386-446 | an output is logged exactly however the reads cut it up if and only if it is ASCII |
| `LogForwarding.SplitCharacterIsLost` | p2p/protocols/compute/service/server.go:386-415 | valid output with one character beyond ASCII that some reads lose from the log |
| `LogForwarding.OutputReachesClient` | p2p/protocols/compute/service/server.go:386-446 | through the multiplexer the client reads a beginning of the output, and sees its end only after all of it and after the forwarder closed the stream, or because the connection ended at a frame boundary |
| `OutputForwarder.Forward` | p2p/protocols/compute/service/server.go:386-415 | the loop forwards and logs the chunks up to the first end, error or failed write, and closes the stream exactly when it returns |
| `OutputForwarder.TurnIsARun` | p2p/protocols/compute/service/server.go:386-446 | a turn of the loop is a run of the interleaving model |
| `CommandBytes.RoundTripBytes` | core/utils/cmdline.go:19-217 | for every non-empty command and all arguments, as byte strings, parsing the printed line returns them, with every byte that begins no valid character replaced by U+FFFD |
| `CommandBytes.RoundTripBytesIff` | core/utils/cmdline.go:19-217 | parsing the print gives back exactly the byte strings printed if and only if all of them are valid UTF-8 and an empty command has no arguments |
| `CommandBytes.BadByteIsReplaced` | core/utils/cmdline.go:166-200 | the byte 0xFF comes back as U+FFFD |
| `CommandBytes.JoinDecodes` | core/utils/cmdline.go:203-217 | a printed line decodes to the decoded pieces it was put together from |
| `CommandLine.RoundTrip` | core/utils/cmdline.go:19-217 | the round trip on decoded units |
| `CommandLine.RoundTripIff` | core/utils/cmdline.go:19-217 | its exact condition on decoded units |
| `CommandLine.Reparse` | core/utils/cmdline.go:19-217 | printing and re-parsing a parsed line with a non-empty first token changes nothing |
| `CommandLine.ParseTokens` | core/utils/cmdline.go:41-162 | the loop computes the tokenizer function |
| `CommandLine.ParseCommandLine` | core/utils/cmdline.go:19-38 | first token and the others |
| `CommandLine.QuoteArg` | core/utils/cmdline.go:166-200 | the loops compute the quoting function |
| `CommandLine.JoinCommandLine` | core/utils/cmdline.go:203-217 | the loop computes the printed line |
| `ComputePage.ParseCommandLine` | frontend/src/pages/Compute.tsx:81-208 | the loop computes the page's tokenizer function |
| `ComputePage.AlwaysWellQuoted` | frontend/src/pages/Compute.tsx:96-183 | in both tokenizers the quote flags exclude each other and the literal-backslash branch is dead |
| `ComputePage.SameStates` | frontend/src/pages/Compute.tsx:96-197 | without loose line breaks, which are those outside quotes and not escaped, the two go through the same states |
| `ComputePage.SameTokensIff` | frontend/src/pages/Compute.tsx:81-208 | on every ASCII line the two give the same non-empty tokens if and only if the trimmed line has no loose line break |
| `ComputePage.SameTokens` | frontend/src/pages/Compute.tsx:81-208 | in particular on every ASCII line without line breaks |
| `ComputePage.TwoLines` | frontend/src/pages/Compute.tsx:169-183 | but not on two words on two lines |
| `ComputePage.PageReadsPrintedLine` | frontend/src/pages/Compute.tsx:81-208 | the page reads a printed ASCII line as the command and its non-empty arguments if and only if the line has no loose line break |
| `FileTransfer.UploadStoredIff` | p2p/protocols/file/service/server.go:306-437 | an upload is stored, as exactly the announced number of bytes, if and only if they arrived and have the announced checksum; otherwise nothing is |
| `FileTransfer.UploadRoundTrip` | p2p/protocols/file/service/client.go:206-248 | a file that does not change meanwhile arrives as it is |
| `FileTransfer.UploadPrefix` | p2p/protocols/file/service/server.go:322-436 | all or nothing when the upload is cut off anywhere |
| `FileTransfer.UploadOverMux` | p2p/protocols/file/service/server.go:322-436 | the same through the multiplexer, however the frames are cut and mixed, also when the connection ends; otherwise io.EOF means that the whole upload was there |
| `FileTransfer.ReadLine` | p2p/protocols/file/service/server.go:324-354 | the byte-wise scan finds the first line and leaves the rest |
| `FileTransfer.CopyN` | p2p/protocols/file/service/server.go:387-407 | copies the bytes announced, or reports the shortage or failure; a negative size copies nothing |
| `FileTransfer.ReceiveFile` | p2p/protocols/file/service/server.go:306-437 | before the file is created the path is untouched; after that it holds the announced bytes with the announced checksum or nothing, unless a removal fails; no other path changes |
| `FileTransfer.SendUpload` | p2p/protocols/file/service/client.go:205-248 | header line, then the file in non-empty chunks, a beginning of it on failure; the stream is closed in any case |
| `FileTransfer.ReceiveDownload` | p2p/protocols/file/service/client.go:112-154 | success means the announced checksum; with a checksum that tells the content from its parts and nothing failing, success if and only if all of it arrived; failure leaves no file, unless the removal fails |
| `FileTransfer.EarlyEndsRefusedIff` | p2p/protocols/file/service/client.go:126-154 | the exact condition: the checksum gives every early end of a download away if and only if it tells the content from each of its proper beginnings |
| `FileTransfer.ShortDownloadAccepted` | p2p/protocols/file/service/client.go:127-154 | a checksum and a file of which a part is accepted for the whole |
| `Environment.EveryOrder` | p2p/protocols/compute/service/executor.go:143-164 | for keys without = and not both PATH and Path, every iteration order gives the base entries not overridden, in order, then one entry for each user variable |
| `Environment.AppliedIff` | p2p/protocols/compute/service/executor.go:143-164 | the override is right in every order if and only if the user did not set both PATH and Path |
| `Environment.TwoPaths` | p2p/protocols/compute/service/executor.go:149-156 | PATH=/a and Path=/b is an instance where it is not |
| `Environment.ChildPath` | p2p/protocols/compute/service/env_helpers.go:35-62 | the child's PATH is the server's directory, the user's PATH and the base PATH, in this order |
| `Environment.PathOfTheUser` | p2p/protocols/compute/service/env_helpers.go:35-62 | with the server's directory known, the override is right in every order if and only if the user did not set Path |
| `Environment.ApplyUserEnvironment` | p2p/protocols/compute/service/executor.go:143-164 | the loop follows some iteration order; under the condition above it does not matter which |
| `Environment.RemoveEnvVar` | p2p/protocols/compute/service/executor.go:192-200 | the loop removes exactly the entries of that variable |
| `Environment.GetPathFromEnv` | p2p/protocols/compute/service/env_helpers.go:81-93 | the value of the first PATH entry |
| `Environment.SetPathInEnv` | p2p/protocols/compute/service/env_helpers.go:96-104 | PATH and Path entries make way for the new one |
| `Environment.MergePaths` | p2p/protocols/compute/service/env_helpers.go:108-120 | directories and existing path joined |
| `CircuitBreaker.CountIsFailures` | stellar-client/stellar_client/utils/circuit_breaker.py:40-67 | over every run the count is the number of failures since the last success or reset, and the circuit is closed exactly if it is below the threshold |
| `CircuitBreaker.RateBound` | stellar-client/stellar_client/utils/circuit_breaker.py:40-67 | a call let through an open circuit after m counted failures starts more than m + 1 timeouts after the opening |
| `CircuitBreaker.RateBoundCounted` | stellar-client/stellar_client/utils/circuit_breaker.py:40-67 | with counted failures only, the k-th such call starts later than t0 + k * recovery_timeout |
| `CircuitBreaker.NextAdmittedIff` | stellar-client/stellar_client/utils/circuit_breaker.py:42-54 | after a trial call the next one gets through at once if and only if the trial did not end with a counted failure |
| `CircuitBreaker.TimeoutsGetThrough` | stellar-client/stellar_client/utils/circuit_breaker.py:42-54 | an open circuit lets every call through from the first trial that times out, as long as they all do |
| `CircuitBreaker.CircuitBreaker.Request` | stellar-client/stellar_client/utils/socket_client.py:307-314 | a call let through makes at most max_retries + 1 attempts, one refused makes none, and the breaker moves by the last attempt |
| `CircuitBreaker.RetryPolicy.Execute` | stellar-client/stellar_client/utils/retry.py:32-50 | every attempt but the last was retried and followed by one sleep; the last ended otherwise or was the last allowed |

## Left out

- libp2p, discovery, relays, the HTTP interface, the pages other than `parseCommandLine`, whitelists,
  proxies and configuration: behaviour of libraries, or easy updates of lists and maps.
- Conda operations: `HandleRun` stops where they begin; their second status write is not modelled.
- JSON and SHA-256 are parameters: a codec whose decoder inverts its encoder, whose texts start with
  `{` and have no raw line break, and any function as checksum. For file headers the first of these
  leaves out names that are not valid UTF-8.
- Timeouts and sleeps are steps that may happen at any time; only the breaker has a clock, which is
  real-valued, so floating-point rounding is not modelled. Log timestamps are left out.
- Two-ended runs (`MuxRun`) have no local Close and no reopening of an ID: a late frame would create a
  removed stream again. Local Close on one stream is in `StreamSafety` and `StreamDelivery`. That nothing
  is written behind a marker is assumed there; `StreamWriter` says when it holds.
- The wait of `Multiplexer.Close` for the end of `readLoop`.
- MuxRun: a write that reports an error after all its bytes went out, which `Connection` allows, counts
  as sent there; in the source its caller takes it for failed.
- End-of-file order is stated for one reader a stream; with several concurrent Read calls on one stream
  delivery (`StreamSharing`), `ClosedAtMostOnce` and `ChannelSafetyIff` are. Two-ended runs have one.
- Stream.Read: the classes run without interference; what other goroutines may do between the critical
  sections is in the interleaving models only.
- OpenStream: requires that the search can end; without a free ID the loop of the source does not.
- ExactlyOnce: needs fewer than 2^64 requests. A request registered after the dispatcher has exited
  waits until its context ends; nothing is claimed about it.
- A Status request outstanding for a run takes its terminal event (`PendingRequests.GoesToEventsIff`);
  `RunHandles` assumes there is none, and that run IDs are distinct and events come only for runs that
  were asked for.
- Run: the request itself, how the reply reaches the caller (`PendingRequests`) and the four streams
  (`BaseClient.GetOrCreateStream`) are one parameter; other calls that complete handles at the same time
  are in `RunHandles` only.
- File requests that are outstanding at the same time on one client: their matchers look at the packet
  type only, so the routing results do not apply.
- Status events are sent as best effort: `RunStatus` counts the attempt, not its success.
- ReceiveFile: a copy that goes on after its timeout is taken to write to the removed file only.
- ParseBytes: white space is trimmed from the decoded line, where the source trims the bytes and decodes
  what is left.
- ApplyUserEnvironment: for keys that contain `=` the result may depend on the order; nothing is claimed.
  Windows is not modelled.
- SameTokensIff: characters beyond ASCII, which JavaScript counts in UTF-16 units.
- The breaker and the retry loop run one call at a time; the asynchronous retry loop is not modelled.
