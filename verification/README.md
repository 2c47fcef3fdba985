# Verification of the mini RPC stack and the streaming-softmax kernels

This project models, in Dafny, the two computational cores of the repository and proves what
they promise.

**The RPC stack** (`2026-06-23_cpp_learning_projects`) is modelled in layers. `Bits`, `Varint` and
`Codec` are the protobuf wire codec, with the source's loops, OR and shifts; `CodecTheorems`
proves its laws (Protocol Buffers Encoding guide, sections "Base 128 Varints", "Message Structure"
and "Last One Wins"), and `WireFormat` says which bytes are which field. `Framing` is the length
prefix and the draining of a receive buffer. `SessionModel` is the connection state machine on
values, with the kernel as an adversary: finite scripts of `recv` and `send` results, an exhausted
script meaning "would block". `Session` is the class with the source's fields and loops, each
method proved to do what the state machine says. `SessionTheorems` has the invariants of every run
and `SessionOutcomes` the exact outcome of each operation, read off the script, the queue and the
bytes. `Link` joins two endpoints, each a session with its loop's task queue, into a full-duplex
pair, and `LinkProgress` says what such a pair can always still do. `Client` is the
pending-request protocol with caller threads and the loop thread interleaved, and `ClientOutcomes`
tells from a run's history what becomes of every call and message. `EventLoop` is the task queue
and the eventfd wakeup protocol as atomic steps of any number of threads. `Server` is the
ownership of file descriptors under reuse, and `Demo` the demo handler's reply sizes.

**The kernels** are modelled over exact reals, with `expf` as a parameter `E` that is positive,
maps 0 to 1 and sums to products. `Folds` has the halving trees and the strided partition for
any commutative monoid, `Softmax` the meaning of a row softmax and the naive kernel, `BlockSoftmax`
the block kernel, `Reduction` the stage-1 sum, `Attention` the meaning of the online softmax, and
`FlashAttention` the simple and the tiled kernel. Barrier phases and warp steps are simultaneous
updates. Threads between two barriers run one after another where none touches a cell another
writes. The one stretch where that is not so, lines 37 to 45 of the block softmax, is modelled with
warps in lockstep, taken in an order that is a parameter: cell 0 is the only shared cell that one warp
writes and another reads there, and each reads it once, so such orders give every outcome.

## How to read the results

The headline is `Link.DeliveryIsPrefix` with `Link.DeliveryIsComplete`: for every split of writes
and reads, every interleaving of posts with loop steps, and every failure or close, what one
side's handler sees is a prefix of what the other side's `send` accepted. Its proof goes through
the codec's round trip, the framing laws, the write queue as a byte stream and chunk independence.
That nothing need get stuck on the way is `LinkProgress.EverythingCanBeDelivered`, and for tasks
`EventLoop.EveryTaskCanRun`.

Results that differ from what a reader might expect of the code:

- A message with a negative status encodes but never decodes (`CodecTheorems.RoundTrip`), so the
  receiver closes at the first one; the end-to-end prefix stops there.
- A field number above 32 bits is taken for the field its low 32 bits name
  (`WireFormat.FieldNumbersWrap`).
- A stop issued before `run()` is lost, because `run()` clears the flag
  (`EventLoop.StopBeforeRunIsLost`); a stop works if and only if it comes after
  (`EventLoop.LeavesIffStoppedDuringRun`, over whole histories).
- The block softmax has no barrier between reading the maximum from cell 0 and thread 0's writing its
  sum there, so a warp that runs late takes a sum for the maximum. Every order of the warps gives the
  softmax if and only if there is a single warp or at most 32 columns
  (`BlockSoftmax.EveryOrderIsRightIff`; `BlockSoftmax.LateWarpIsWrong` is the failing family).
- A 404 reply repeats a name of the request, so it can exceed the frame limit although the request
  did not (`Demo.RefusalCanOverflow`); `Demo.RefusalFitsIff` says exactly when.
- The command line of the reduction accepts any block size, but the sum is right for all inputs if and
  only if it is a power of two (`Reduction.BlockIsExactIff`, for sizes from 64 up); the same holds of the
  block softmax's trees (`Folds.TreeIsExactIff`). Below 64 the last warp reads past the shared array, and
  only then (`Reduction.LastWarpInBoundsIff`).
- What arrives in the same read as an end of file or an error is dropped, whole frames included
  (`SessionTheorems.WholeFrameIsLost`), which is why delivery is a prefix. A read delivers every complete
  message it has if and only if it meets neither before it would block, or has none
  (`SessionTheorems.ReadDeliversIff`).

## Model

| member | source | states |
|---|---|---|
| Bits.ShiftOr | 2026-06-23_cpp_learning_projects/src/protobuf_wire.cpp:169 | OR-ing a chunk shifted left in 64 bits into a value whose bits all lie below the shift is addition modulo 2^64 |
| Varint.ReadVarint | 2026-06-23_cpp_learning_projects/src/protobuf_wire.cpp:163-177 | the OR/shift loop succeeds exactly when one of the first ten bytes ends a varint, and then returns the base-128 sum modulo 2^64 and the position just after that byte |
| Varint.WriteVarint | 2026-06-23_cpp_learning_projects/src/protobuf_wire.cpp:143-149 | appends exactly the canonical base-128 bytes of the value |
| Varint.ReadWritten | 2026-06-23_cpp_learning_projects/src/protobuf_wire.cpp:143-177 | whatever follows, reading what was written gives the value back and stops at its end |
| Varint.Uint64Length | 2026-06-23_cpp_learning_projects/src/protobuf_wire.cpp:143-149 | a 64-bit value takes 1 to 10 bytes |
| Varint.WrittenIsShortest | 2026-06-23_cpp_learning_projects/src/protobuf_wire.cpp:143-177 | no byte string that reads as a value is shorter than the bytes written for that value |
| Varint.ReadAgree | 2026-06-23_cpp_learning_projects/src/protobuf_wire.cpp:163-177 | a successful read depends only on the bytes it consumed |
| Codec.WriteTag | 2026-06-23_cpp_learning_projects/src/protobuf_wire.cpp:151-153 | the OR of shifted field number and wire type is written as the tag 8 * field + wire |
| Codec.Encode | 2026-06-23_cpp_learning_projects/src/protobuf_wire.cpp:17-52 | writes the non-default fields in order, a negative status as its 32-bit two's complement |
| Codec.SkipField | 2026-06-23_cpp_learning_projects/src/protobuf_wire.cpp:179-208 | accepts an unknown field exactly when it is complete and of wire type 0, 1, 2 or 5, and moves just past it |
| Codec.DecodeField | 2026-06-23_cpp_learning_projects/src/protobuf_wire.cpp:67-137 | one switch iteration: accepts, consumes and applies exactly the record the tag announces |
| Codec.Decode | 2026-06-23_cpp_learning_projects/src/protobuf_wire.cpp:54-141 | the loop computes the record-by-record decoding, or nothing if any record is malformed |
| CodecTheorems.RoundTrip | 2026-06-23_cpp_learning_projects/src/protobuf_wire.cpp:17-141 | for every message, decoding its encoding returns it when the status is not negative and fails when it is |
| CodecTheorems.EncodingDecodes | 2026-06-23_cpp_learning_projects/src/protobuf_wire.cpp:17-141 | decoding an encoded message in front of any bytes lays its non-default fields over those so far; a negative status fails the whole decode |
| CodecTheorems.ConcatIsMerge | 2026-06-23_cpp_learning_projects/src/protobuf_wire.cpp:54-141 | decoding two encodings one after the other gives the second's non-default fields over the first's |
| CodecTheorems.DecodeConcat | 2026-06-23_cpp_learning_projects/src/protobuf_wire.cpp:58-138 | if the first part decodes, decoding the concatenation continues on the second part from its message |
| CodecTheorems.EncodingIsShortest | 2026-06-23_cpp_learning_projects/src/protobuf_wire.cpp:17-141 | bytes that decode to a message are never fewer than its encoding, and the message survives re-encoding |
| CodecTheorems.LastRecordWins | 2026-06-23_cpp_learning_projects/src/protobuf_wire.cpp:67-137 | in any sequence of records each field ends as its last record says |
| CodecTheorems.OrderAndUnknownsDoNotMatter | 2026-06-23_cpp_learning_projects/src/protobuf_wire.cpp:58-138 | the records of a message in any order and multiplicity, with any well-formed unknown fields between them, decode to it |
| CodecTheorems.PrefixDecodes | 2026-06-23_cpp_learning_projects/src/protobuf_wire.cpp:58-138 | a prefix of a decodable string decodes if and only if the cut lies between records |
| CodecTheorems.ParseAgree | 2026-06-23_cpp_learning_projects/src/protobuf_wire.cpp:58-138 | a record parses the same whatever follows it |
| WireFormat.EncodingBytes | 2026-06-23_cpp_learning_projects/src/protobuf_wire.cpp:17-52 | the bytes of an encoded message, tag bytes spelt out: 8, 16, 26, 34, 42, 48, 58 before the values, defaults left out, a negative status plus 2^32 |
| WireFormat.NumberFields | 2026-06-23_cpp_learning_projects/src/protobuf_wire.cpp:67-131 | any varint is taken for the id whole, for the kind modulo 2^32, and for the status if below 2^31, else the message is refused |
| WireFormat.TextFields | 2026-06-23_cpp_learning_projects/src/protobuf_wire.cpp:90-117 | a text field takes its length and exactly that many bytes |
| WireFormat.UnknownFieldIsSkipped | 2026-06-23_cpp_learning_projects/src/protobuf_wire.cpp:179-208 | a complete value of any wire type the source knows, under an unknown number, is stepped over exactly and changes nothing |
| WireFormat.UnknownFieldIsRefused | 2026-06-23_cpp_learning_projects/src/protobuf_wire.cpp:179-208 | an unknown field of another wire type, or cut short, refuses the message |
| WireFormat.TooLongIsRefused | 2026-06-23_cpp_learning_projects/src/protobuf_wire.cpp:97-103 | so does a length beyond the bytes there are, known field or not |
| WireFormat.WrongTypeIsRefused | 2026-06-23_cpp_learning_projects/src/protobuf_wire.cpp:67-131 | and a known field of another wire type than its own |
| WireFormat.FieldNumbersWrap | 2026-06-23_cpp_learning_projects/src/protobuf_wire.cpp:64 | field numbers are cut to 32 bits: two that agree there are taken for the same field |
| Framing.DecodeFrameSize | 2026-06-23_cpp_learning_projects/include/minirpc/framing.hpp:23-28 | the OR of the four shifted bytes is the big-endian number they spell |
| Framing.FrameSizeRoundTrip | 2026-06-23_cpp_learning_projects/include/minirpc/framing.hpp:14-28 | every 32-bit size survives the header |
| Framing.PopFrame | 2026-06-23_cpp_learning_projects/include/minirpc/framing.hpp:30-63 | a framed payload of at most 4 MiB in front of anything pops to itself and leaves the rest |
| Framing.FramePopsIff | 2026-06-23_cpp_learning_projects/include/minirpc/framing.hpp:30-63 | a framed payload of any size pops to itself if and only if it is at most 4 MiB |
| Framing.PopPartial | 2026-06-23_cpp_learning_projects/include/minirpc/framing.hpp:45-57 | no proper prefix of a frame pops, or fails |
| Framing.OversizedIsRefusedAtOnce | 2026-06-23_cpp_learning_projects/include/minirpc/framing.hpp:45-57 | a frame is refused as too large as soon as its four header bytes are there, exactly when they say more than 4 MiB |
| Framing.PopIsFrame | 2026-06-23_cpp_learning_projects/include/minirpc/framing.hpp:45-63 | whatever pops was a frame of that payload, within the limit |
| Framing.PopExtends | 2026-06-23_cpp_learning_projects/include/minirpc/framing.hpp:45-63 | bytes arriving later never change a decision already made |
| Framing.DrainAppend | 2026-06-23_cpp_learning_projects/src/session.cpp:135-155 | draining a buffer, then more bytes behind its leftover, is draining all of them at once |
| Framing.ChunksDoNotMatter | 2026-06-23_cpp_learning_projects/src/session.cpp:112-156 | draining chunk by chunk gives the messages, outcome and leftover of draining all the bytes at once |
| Framing.DrainLeavesNoFrame | 2026-06-23_cpp_learning_projects/src/session.cpp:135-140 | after a drain without failure the leftover holds no complete frame |
| Framing.DrainStream | 2026-06-23_cpp_learning_projects/src/session.cpp:135-155 | draining any prefix of a stream of framed messages gives a prefix of them up to the first negative status; all of it without failure gives all of them and leaves nothing |
| Framing.DrainStreamIsFine | 2026-06-23_cpp_learning_projects/src/session.cpp:135-155 | if no status is negative, no prefix of the stream makes the receiver fail |
| SessionClass.Session.constructor | 2026-06-23_cpp_learning_projects/src/session.cpp:18-22 | a new session is open, unregistered and empty |
| SessionClass.Session.Start | 2026-06-23_cpp_learning_projects/src/session.cpp:31-38 | registers for reading only |
| SessionClass.Session.Send | 2026-06-23_cpp_learning_projects/src/session.cpp:40-62 | posts the framed message, or refuses it exactly when its encoding exceeds 4 MiB |
| SessionClass.Session.RunTask | 2026-06-23_cpp_learning_projects/src/session.cpp:51-67 | the whole new state is that of SessionModel.RunTask, whose outcome SessionOutcomes.TaskOutcome pins down |
| SessionClass.Session.HandleEvents | 2026-06-23_cpp_learning_projects/src/session.cpp:89-110 | the whole new state is that of SessionModel.HandleEvents, whose outcome for every combination of events SessionOutcomes.EventOutcome pins down |
| SessionClass.Session.AsyncRead | 2026-06-23_cpp_learning_projects/src/session.cpp:112-156 | for every script of recv results, the whole new state is that of SessionModel.AsyncRead, whose outcome SessionOutcomes.ReadOutcome pins down |
| SessionClass.Session.ParseBuffer | 2026-06-23_cpp_learning_projects/src/session.cpp:135-155 | the parse loop delivers, in order, what draining the buffer gives, and fails as it does |
| SessionClass.Session.AsyncWrite | 2026-06-23_cpp_learning_projects/src/session.cpp:158-191 | for every script of send results, the whole new state is that of SessionModel.AsyncWrite, whose outcome SessionOutcomes.WriteOutcome pins down |
| SessionClass.Session.UpdateEvents | 2026-06-23_cpp_learning_projects/src/session.cpp:193-203 | arms write readiness exactly while something is queued, if registered and open |
| SessionClass.Session.CloseFromLoop | 2026-06-23_cpp_learning_projects/src/session.cpp:205-234 | on the first call only: deregister, close the fd, complete the queue as not connected, close handler, in this order |
| SessionClass.Session.FailAndClose | 2026-06-23_cpp_learning_projects/src/session.cpp:236-245 | completes every queued frame with the error, then closes |
| SessionOutcomes.WriteOutcome | 2026-06-23_cpp_learning_projects/src/session.cpp:158-191 | one write, from the queue and the script: the bytes the kernel takes before it would block or fail go out, the frames they finish complete with success, and the session closes if and only if an error comes first while bytes remain, with that error, which the frames left are told |
| SessionOutcomes.ReadOutcome | 2026-06-23_cpp_learning_projects/src/session.cpp:112-156 | one read: what it delivers, keeps and receives; it closes if and only if it meets an end of file or error or the drain fails, with that error and these last effects in order |
| SessionOutcomes.EventOutcome | 2026-06-23_cpp_learning_projects/src/session.cpp:89-110 | one batch of events, per bit: bytes out, frames finished, messages delivered; and the session closes if and only if there is an error, a hangup, a peer close, a closing read or a failing write, with the error of the first |
| SessionOutcomes.TaskOutcome | 2026-06-23_cpp_learning_projects/src/session.cpp:51-67 | one posted task: a close closes, a send on a closed session completes as not connected, on an open one it joins the queue, which is written at once |
| SessionOutcomes.CloseIs | 2026-06-23_cpp_learning_projects/src/session.cpp:205-234 | closing says, in order: deregister, close the fd, every queued frame not connected, close handler |
| SessionOutcomes.FailIs | 2026-06-23_cpp_learning_projects/src/session.cpp:236-245 | failing says: every queued frame the error, then deregister, close the fd, close handler |
| SessionTheorems.SmallStep | 2026-06-23_cpp_learning_projects/src/session.cpp:89-245 | every elementary step of a session keeps the stream, close and receive invariants, and answers for every send it took in |
| SessionTheorems.PathKeeps | 2026-06-23_cpp_learning_projects/src/session.cpp:89-245 | so does every sequence of them |
| SessionTheorems.LastReadIsDropped | 2026-06-23_cpp_learning_projects/src/session.cpp:115-133 | a read that meets an end of file or an error after its data delivers nothing |
| SessionTheorems.ReadDeliversIff | 2026-06-23_cpp_learning_projects/src/session.cpp:112-156 | a read delivers every complete message it then has if and only if it meets no end of file or error before it would block, or there are none |
| SessionTheorems.WholeFrameIsLost | 2026-06-23_cpp_learning_projects/src/session.cpp:115-133 | the witness: a whole frame in the same read as the end of file is not delivered |
| SessionTheorems.ReadsAreOneDrain | 2026-06-23_cpp_learning_projects/src/session.cpp:112-156 | however the bytes are split into chunks and reads, the read loop delivers, fails and keeps what draining them all at once does |
| SessionTheorems.EventsSettle | 2026-06-23_cpp_learning_projects/src/session.cpp:89-203 | after handling events an open session watches for writability exactly while its queue is non-empty |
| SessionTheorems.TaskSettles | 2026-06-23_cpp_learning_projects/src/session.cpp:51-67 | the same after a posted task |
| Link.DeliveryIsPrefix | 2026-06-23_cpp_learning_projects/src/session.cpp:40-191 | end to end, both directions, every run: the messages delivered are a prefix of those accepted, in order, never past the first with a negative status |
| Link.DeliveryIsComplete | 2026-06-23_cpp_learning_projects/src/session.cpp:40-191 | they are all of them once everything is written and read and both ends are open |
| Link.CompletionExactlyOnce | 2026-06-23_cpp_learning_projects/src/session.cpp:40-62 | every send is in exactly one of: posted, queued, completed, refused; and after close with no task left, completed or refused once |
| Link.SuccessMeansWritten | 2026-06-23_cpp_learning_projects/src/session.cpp:158-174 | a write handler was called with success if and only if all bytes up to the end of its frame went to the kernel |
| Link.SentIsStreamPrefix | 2026-06-23_cpp_learning_projects/src/session.cpp:158-191 | the bytes sent are a prefix of the accepted messages' frames laid end to end, all of it when open and idle |
| Link.BetweenOperations | 2026-06-23_cpp_learning_projects/src/session.cpp:112-234 | in every reachable state: close effects all or none, once and in order; write interest exactly while queued; while open, or closed by a parsing failure, delivered exactly what draining all the received bytes gives, and failed with the error they call for |
| Link.ValidStreamsAreAccepted | 2026-06-23_cpp_learning_projects/src/session.cpp:135-155 | in every reachable state, if no accepted message has a negative status, the other side has not failed to parse |
| Link.StepKeeps | 2026-06-23_cpp_learning_projects/src/session.cpp:40-245 | every operation of an endpoint keeps its invariant |
| LinkProgress.AcceptedAreTheFittingSends | 2026-06-23_cpp_learning_projects/src/session.cpp:40-62 | in every run the messages accepted are the sends whose encoding fits a frame, in order; so what is received is a prefix of those |
| LinkProgress.EverythingCanBeDelivered | 2026-06-23_cpp_learning_projects/src/session.cpp:40-191 | from every reachable pair, both ends open, no close posted and no negative status, running what is posted, one write and one read deliver every accepted message and complete every such send with success |
| LinkProgress.RequestedCloseCloses | 2026-06-23_cpp_learning_projects/src/session.cpp:64-67 | after a close was asked for, once the posted tasks have run the session is closed, with its close effects in order |
| Client.RpcClient.NextId | 2026-06-23_cpp_learning_projects/src/client.cpp:101 | ids are issued once each, in increasing order |
| Client.RpcClient.Insert | 2026-06-23_cpp_learning_projects/src/client.cpp:109-112 | registers a call |
| Client.RpcClient.WriteHandler | 2026-06-23_cpp_learning_projects/src/client.cpp:113-118 | forgets the call on an error, and only then |
| Client.RpcClient.DispatchMessage | 2026-06-23_cpp_learning_projects/src/client.cpp:143-163 | a response to a pending call goes to its handler and removes it, anything else goes to the general handler: ClientOutcomes.ResponseReachesItsCall says which, from the history |
| Client.RpcClient.CloseHandler | 2026-06-23_cpp_learning_projects/src/client.cpp:79-83 | clears the table |
| Client.EachIdInOnePlace | 2026-06-23_cpp_learning_projects/src/client.cpp:93-163 | every id issued is in exactly one of: unregistered, pending, answered, removed; answers are responses with that id, one each |
| Client.RemovalsHaveCauses | 2026-06-23_cpp_learning_projects/src/client.cpp:79-163 | an id removed by a failed write has a send of its own that was refused or whose failure was handled; one removed by the close has seen the close handler; every answer was delivered by the session |
| Client.FateIsFinal | 2026-06-23_cpp_learning_projects/src/client.cpp:79-163 | how an id left the table never changes, and it never returns |
| Client.WireIdsAreRegistered | 2026-06-23_cpp_learning_projects/src/client.cpp:109-118 | no request is given to the session before its id is registered |
| Client.NothingPendingAfterClose | 2026-06-23_cpp_learning_projects/src/client.cpp:79-120 | once the session is closed, its handlers have run and no call or send task is in between, nothing is pending, also for calls registered after the clear |
| Client.ActKeeps | 2026-06-23_cpp_learning_projects/src/client.cpp:79-163 | every interleaved step of callers and loop thread keeps the invariant |
| ClientOutcomes.FateIsFirstCause | 2026-06-23_cpp_learning_projects/src/client.cpp:79-163 | in every run a call ends as the first cause after its registration says: a response with its id delivered, its own send failed or refused, or the close handler; without one it is pending |
| ClientOutcomes.ResponseReachesItsCall | 2026-06-23_cpp_learning_projects/src/client.cpp:143-163 | a delivered message goes to a call if and only if it is a response whose id was registered and has met no such cause, and that call is then answered for good; else it goes to the general handler |
| ClientOutcomes.EachDeliveryHandedOnce | 2026-06-23_cpp_learning_projects/src/client.cpp:143-163 | answers and general messages together are the deliveries handled, each once |
| ClientOutcomes.CallGoesOut | 2026-06-23_cpp_learning_projects/src/client.cpp:93-120 | with the session open, the four steps of a call register a fresh id and post its request under it, touching nothing else |
| ClientOutcomes.CloseEndsEveryCall | 2026-06-23_cpp_learning_projects/src/client.cpp:79-120 | after close is called and all tasks and handlers have run, the session is closed and no call is pending |
| EventLoop.NoLostWakeup | 2026-06-23_cpp_learning_projects/src/event_loop.cpp:92-165 | if the loop could block on the eventfd while a task waits or the history has a stop after the last beginning of a run, some thread has yet to write the eventfd |
| EventLoop.TasksInOrder | 2026-06-23_cpp_learning_projects/src/event_loop.cpp:92-98 | executed, local batch and queue are together the posted sequence: no task is lost, repeated or reordered |
| EventLoop.ReturnRunsAllPosted | 2026-06-23_cpp_learning_projects/src/event_loop.cpp:100-130 | whatever was posted at any moment before run's last batch, as when a stop is issued, has run when run returns |
| EventLoop.EveryTurnRunsItsTasks | 2026-06-23_cpp_learning_projects/src/event_loop.cpp:104-106 | whatever was posted before a turn's swap has run when the loop next waits |
| EventLoop.EveryTaskCanRun | 2026-06-23_cpp_learning_projects/src/event_loop.cpp:100-165 | from every state of a run before its last batch, the loop's own steps alone run everything posted and then wait, or return if it was stopped |
| EventLoop.WakeupIsConsumed | 2026-06-23_cpp_learning_projects/src/event_loop.cpp:147-151 | a handled wakeup leaves the eventfd empty unless it is written again |
| EventLoop.LeavesIffStoppedDuringRun | 2026-06-23_cpp_learning_projects/src/event_loop.cpp:100-137 | in every history that brings the loop to its test, it leaves if and only if some stop in the history has no beginning of a run after it |
| EventLoop.StopBeforeRunIsLost | 2026-06-23_cpp_learning_projects/src/event_loop.cpp:100-104 | a stop completed before run has no effect |
| EventLoop.StepKeeps | 2026-06-23_cpp_learning_projects/src/event_loop.cpp:92-165 | every atomic step of posters, stoppers and the loop keeps the protocol invariant |
| EventLoop.Loop.Post | 2026-06-23_cpp_learning_projects/src/event_loop.cpp:92-98 | appends the task and leaves the eventfd signalled |
| EventLoop.Loop.DrainTasks | 2026-06-23_cpp_learning_projects/src/event_loop.cpp:153-165 | runs exactly the tasks queued at the swap, in order; what they post waits for the next drain |
| Server.EventsReachTheirOwner | 2026-06-23_cpp_learning_projects/src/event_loop.cpp:114-126 | every event is given to the handler of the owner its fd had when the batch was collected, under fd reuse |
| Server.FdsHaveOneOwner | 2026-06-23_cpp_learning_projects/src/server.cpp:94-124 | each session closes at most once; open sessions have distinct, open, registered fds; every open fd has an owner; the registry holds only open ones |
| Server.AcceptOutcome | 2026-06-23_cpp_learning_projects/src/server.cpp:94-124 | every descriptor accepted before the kernel would block becomes one session, in order, with the next id, its socket, its handler and its registry entry; nothing else changes |
| Server.DispatchOutcome | 2026-06-23_cpp_learning_projects/src/event_loop.cpp:114-126 | in every run, an event does what its owner at collection makes it do: a listener's accepts, a session's closes that session or leaves all as it is |
| Server.CloseTaskOutcome | 2026-06-23_cpp_learning_projects/src/session.cpp:205-234 | a posted close closes its session if it is still open: descriptor, handler and registry entry are gone, all others untouched |
| Server.EachEventOnce | 2026-06-23_cpp_learning_projects/src/event_loop.cpp:106-126 | every event the kernel reports is dispatched once, in the order reported |
| Server.StopClosesEverything | 2026-06-23_cpp_learning_projects/src/server.cpp:42-53 | after a stop, once no posted close is left, every session is closed and only the wakeup descriptor is open |
| Server.AcceptAllKeeps | 2026-06-23_cpp_learning_projects/src/server.cpp:94-124 | accepting any number of connections keeps ownership |
| Server.CloseKeeps | 2026-06-23_cpp_learning_projects/src/session.cpp:205-234 | so does closing a session whose fd has no event left in the batch |
| Server.TcpServer.AcceptLoop | 2026-06-23_cpp_learning_projects/src/server.cpp:94-124 | for every script of accept results, the server ends in the state of Server.AcceptAll, whose outcome Server.AcceptOutcome pins down |
| Demo.EchoAndUpperRepliesFit | 2026-06-23_cpp_learning_projects/examples/server_main.cpp:25-43 | the reply to any echo or upper request that came in a frame is no longer than the request's own bytes, so it fits a frame |
| Demo.ReplyComesBack | 2026-06-23_cpp_learning_projects/examples/server_main.cpp:25-50 | the reply's bytes decode to a response with the request's id: echo returns the payload, upper raises its letters, time gives the clock's text, anything else is 404 and names what is unknown |
| Demo.RefusalFitsIff | 2026-06-23_cpp_learning_projects/examples/server_main.cpp:32-50 | a 404 reply fits a frame if and only if a sum computed from the lengths of the request's names does |
| Demo.RefusalCanOverflow | 2026-06-23_cpp_learning_projects/examples/server_main.cpp:32-36 | a concrete request that fits while its refusal does not |
| Folds.TreeReduce | 2026.6.27 demo项目 打卡/softmax-profile-card/kernels/softmax_block.cu:31-36 | for any number of cells, the stride-halving loop leaves in cell 0 what the tree of pairwise passes gives |
| Folds.TreeIsFold | 2026.6.27 demo项目 打卡/softmax-profile-card/kernels/softmax_block.cu:31-36 | on a power of two of cells the tree combines every cell once |
| Folds.TreeIsExactIff | 2026.6.27 demo项目 打卡/softmax-profile-card/kernels/softmax_block.cu:48-53 | the tree sums every input if and only if the block size is a power of two |
| Folds.StridedPartition | 2026.6.27 demo项目 打卡/softmax-profile-card/kernels/softmax_block.cu:25-27 | what the strided threads accumulate combines to the fold of the whole row |
| Folds.EachIndexOnce | 2026.6.27 demo项目 打卡/softmax-profile-card/kernels/softmax_block.cu:25-27 | the strided threads visit every index once and no other |
| Softmax.Naive | 2026.6.27 demo项目 打卡/softmax-profile-card/kernels/softmax_naive.cu:20-34 | writes the softmax of the row |
| BlockSoftmax.Block | 2026.6.27 demo项目 打卡/softmax-profile-card/kernels/softmax_block.cu:24-58 | for every power-of-two block size and every order of the warps: each column ends as its exponential, relative to what its thread read in cell 0, over the sum of all; which is the softmax of the row with one warp, or with at most 32 columns |
| BlockSoftmax.SumPhase | 2026.6.27 demo项目 打卡/softmax-profile-card/kernels/softmax_block.cu:37-46 | between the barriers, on the one shared array: each thread's columns hold their exponentials relative to what its warp read in cell 0 (the maximum before warp 0, its first sum after), and each cell the sum of its thread's |
| BlockSoftmax.EveryOrderIsRightIff | 2026.6.27 demo项目 打卡/softmax-profile-card/kernels/softmax_block.cu:35-46 | for a strictly increasing E and a power-of-two size: every order of the warps writes the softmax of every row of that many columns if and only if there is one warp or at most 32 columns |
| BlockSoftmax.LateWarpIsWrong | 2026.6.27 demo项目 打卡/softmax-profile-card/kernels/softmax_block.cu:35-46 | the failing family: on a row of zeros of more than 32 columns, with at least 64 threads and the warps in ascending order, what is written is not the softmax |
| BlockSoftmax.DivideStrided | 2026.6.27 demo项目 打卡/softmax-profile-card/kernels/softmax_block.cu:54-58 | the strided last loops of all threads together divide every column once |
| Softmax.LocalMax | 2026.6.27 demo项目 打卡/softmax-profile-card/kernels/softmax_block.cu:24-27 | a thread's maximum is that of the columns it visits |
| Softmax.LocalSum | 2026.6.27 demo项目 打卡/softmax-profile-card/kernels/softmax_block.cu:39-44 | a thread writes the exponentials of exactly its own columns, and sums them |
| Softmax.SoftmaxIsDistribution | 2026.6.27 demo项目 打卡/softmax-profile-card/kernels/softmax_block.cu:54-58 | the entries are positive and sum to 1 |
| Softmax.SoftmaxIsPlain | 2026.6.27 demo项目 打卡/softmax-profile-card/kernels/softmax_naive.cu:20-34 | subtracting the maximum first gives the plain softmax |
| Reduction.WarpStep | 2026_6_25_topo_slowrank_bandwidth/bandwidth-roofline-mini/src/reduction.cu:54-62 | one unrolled lockstep step, for any block size: refused exactly when a lane would read past the shared array; from 64 up it halves the cells that matter and keeps their sum |
| Reduction.LastWarpInBoundsIff | 2026_6_25_topo_slowrank_bandwidth/bandwidth-roofline-mini/src/reduction.cu:54-62 | every shared cell the last warp reads is in bounds if and only if the block has at least 64 threads |
| Reduction.LastWarp | 2026_6_25_topo_slowrank_bandwidth/bandwidth-roofline-mini/src/reduction.cu:54-62 | its six steps leave the sum of the first 64 cells, or stop out of bounds, exactly below 64 threads |
| Reduction.HalveTo64 | 2026_6_25_topo_slowrank_bandwidth/bandwidth-roofline-mini/src/reduction.cu:45-51 | for any block size, the loop leaves what its passes down to a stride of 32 give |
| Reduction.BlockIsExactIff | 2026_6_25_topo_slowrank_bandwidth/bandwidth-roofline-mini/src/reduction.cu:45-66 | for block sizes from 64 up, a block sums what it loaded for all inputs if and only if the size is a power of two |
| Reduction.WrongElement | 2026_6_25_topo_slowrank_bandwidth/bandwidth-roofline-mini/src/reduction.cu:45-66 | for every other block size, an element that is lost or counted twice |
| Reduction.LoadedSum | 2026_6_25_topo_slowrank_bandwidth/bandwidth-roofline-mini/src/reduction.cu:32-42 | the two reads a thread cover the block's slice of the input |
| Reduction.ReduceBlock | 2026_6_25_topo_slowrank_bandwidth/bandwidth-roofline-mini/src/reduction.cu:24-67 | for any block size: out of bounds exactly below 64 threads, else the partial is what the passes make of the loaded cells, the sum of its slice when the size is a power of two |
| Reduction.ReduceStage1 | 2026_6_25_topo_slowrank_bandwidth/bandwidth-roofline-mini/src/reduction.cu:24-67 | for any block size and input: out of bounds exactly below 64 threads on a non-empty input, else one partial a block; for powers of two the partials sum to the input's sum |
| Reduction.EveryIndexIsReadOnce | 2026_6_25_topo_slowrank_bandwidth/bandwidth-roofline-mini/src/reduction.cu:30-40 | each input index is read by exactly one block at one place of its two reads, within the grid |
| FlashAttention.WarpReduceSum | 2026-06-25_cpu_only_inference_and_practical_kernel/practical_kernel/tiled_flash_attention_stand_hpc.cu:58-69 | after the shuffles and the broadcast every lane holds the sum of all lanes |
| FlashAttention.WarpDot | 2026-06-25_cpu_only_inference_and_practical_kernel/practical_kernel/tiled_flash_attention_stand_hpc.cu:258-271 | the lanes' shares reduce to the full dot product, for every D up to 128 |
| FlashAttention.WarpUpdate | 2026-06-25_cpu_only_inference_and_practical_kernel/practical_kernel/tiled_flash_attention_stand_hpc.cu:298-305 | each dimension is rescaled and updated exactly once |
| FlashAttention.LoadTile | 2026-06-25_cpu_only_inference_and_practical_kernel/practical_kernel/tiled_flash_attention_stand_hpc.cu:205-226 | the cooperative load fills the tile with the global rows, zero past the sequence |
| FlashAttention.SimpleRow | 2026-06-25_cpu_only_inference_and_practical_kernel/practical_kernel/flash_attention_simple_stand.cu:54-122 | one warp writes exactly its query row, with the state after the visible keys in order |
| FlashAttention.TiledRow | 2026-06-25_cpu_only_inference_and_practical_kernel/practical_kernel/tiled_flash_attention_stand_hpc.cu:101-346 | one warp of a block writes the same row from the same state; an invalid row writes nothing |
| FlashAttention.ScanTile | 2026-06-25_cpu_only_inference_and_practical_kernel/practical_kernel/tiled_flash_attention_stand_hpc.cu:241-312 | a tile advances the state over exactly its visible keys, in order |
| FlashAttention.SimpleKernel | 2026-06-25_cpu_only_inference_and_practical_kernel/practical_kernel/flash_attention_simple_stand.cu:38-123 | every query row holds its attention, and nothing else of the output changes |
| FlashAttention.TiledKernel | 2026-06-25_cpu_only_inference_and_practical_kernel/practical_kernel/tiled_flash_attention_stand_hpc.cu:72-347 | the same, from the tiled loops |
| Attention.ScanMeaning | 2026-06-25_cpu_only_inference_and_practical_kernel/practical_kernel/flash_attention_simple_stand.cu:64-112 | after any keys m is the running maximum, l the sum of E(score - m), acc the matching weighted sum of values |
| Attention.DenominatorBounds | 2026-06-25_cpu_only_inference_and_practical_kernel/practical_kernel/flash_attention_simple_stand.cu:96-111 | for scores at least -FLT_MAX: m is the maximum score and l is between 1 and the number of keys |
| Attention.RowIsSoftmaxAttention | 2026-06-25_cpu_only_inference_and_practical_kernel/practical_kernel/flash_attention_simple_stand.cu:64-122 | a written row is the softmax of the scores over the visible keys applied to their values, within their range |
| Attention.RowIsMaskedAttention | 2026-06-25_cpu_only_inference_and_practical_kernel/practical_kernel/flash_attention_simple_stand.cu:64-122 | the same told from the mask: over all keys of the sequence, values weighted by the exponential of the scaled dot product, a masked key weighing zero |

## Left out

- Sockets, epoll, eventfd and errno values: replaced by scripted or nondeterministic results; a `send` that returns 0 for a non-empty buffer, which no kernel does, is not modelled.
- C++ memory-model races: `open_` and `session_` are read atomically, and a client has one session; the reset of `session_` by the close handler while a caller uses it is not modelled.
- Exceptions: a failing `epoll_ctl`, `eventfd` write or `accept4`, and `call_async` on an unconnected client, end the run modelled.
- Message and write handlers that are empty: every handler is taken to be set, so a response to a pending call always goes to its handler.
- Reconnecting, `start()` racing with the session's own sends, and destructors: a session is started before anything else happens to it.
- Wrap-around of session ids, request ids and tokens: counters are unbounded.
- LinkProgress.EverythingCanBeDelivered: a schedule that delivers always exists; that the network and the scheduler follow one is not claimed. The same holds of EventLoop.EveryTaskCanRun.
- EventLoop.NoLostWakeup: is about the eventfd; other descriptors and the one-second timeout of `epoll_wait` can only wake the loop earlier.
- Server.EventsReachTheirOwner: callbacks only send or close, one event per fd per batch, and the server is stopped between batches.
- Codec string parameters written through a reference (`out`, `pos`, `value`) and the buffer erased in place by `try_pop_frame`: in-out values, so sharing between them is not modelled.
- FlashAttention.TiledRow: the eight warps of a block run one after another, each with the tiles its block loads, since no tile depends on the warp; the reuse of one copy by all warps is a matter of speed.
- Reduction.ReduceStage1: a grid size that does not fit an int; and what a block below 64 threads computes from the cells it reads out of bounds.
- BlockSoftmax.Block: a block size that is no power of two, for which `Folds.TreeIsExactIff` says what its trees do; and the lanes of one warp leaving lockstep (independent thread scheduling).
- Floating-point rounding, NaN, the accuracy of `__expf` and `rsqrtf`, and 32-bit overflow of tensor indices: exact reals and unbounded integers.
- The formatting of the clock for `time`, logging, name resolution, connecting, binding, benchmark drivers, reports and the Python code: input and output, or easy arithmetic.
- The unfinished kernel `tiled_flash_att_mine.cu` and the copies of the bandwidth demo and of the softmax kernel.
