# sdpf: the event loop and RPC library, modelled and proved

This project models the parts of sdpf that carry protocol or state logic and proves properties of them for all
inputs and all runs. Code that changes state in place is a class whose methods are proved equal to a function of
the old state; interleavings are event systems over those functions, and every result about them is for every
list of events, in any order.

- `Base`, `MsgPack`, `Dispatcher`: bytes, the MessagePack encodings in use (MessagePack specification, int, str, bin
  and array format families), packet metas, and the `Msg_Echo`/`Msg_Notify` body.
- `IOBufs`: the bounded, compacting buffer, as a byte queue between everything written and everything consumed.
- `Framing`, `Printing`, `Receiving`: what a byte stream means, `parse` and `send_packet`, and the receiving half of a
  connection fed with arbitrary chunks.
- `SendQueue`: the sending half, with callbacks that send from inside callbacks.
- `Scheduler`: posting tasks from any thread to the loop.
- `ThreadPool`: `BlockingQueue` and its workers, with the threads' places modelled one by one.
- `Handshake`: the synchronous call, `RpcController` with its mutex and condition variable.
- `Requests`, `Protocol`, `Channel`: the request tables of both peers; the two peers with messages in flight, every
  mutex-held section a step; and the channel code over the same table functions.
- `History`: where every call, answer and completion of a run comes from among its events, and that the events of an
  undisturbed call, registration or notification do complete it.
- `Marking`: the moment in which `process_response` has a notify mark down, which `Protocol` passes over in one step.

Layers meet in values. A send has three outcomes everywhere (`Requests.Sending`): accepted, declined, or queued
although its wake-up signal failed, which the caller is told is a failure. `Receiving` delivers the packets of a stream in order and whole; `Protocol` takes messages as
units and allows them to be lost and to overtake each other, which covers what a connection and a full send queue
can do to them. In the event systems an event that is not possible in a state changes nothing.

## Where the code falls short of its intent

Each of these is stated exactly, with the inputs for which the intent holds.

- `ensure_writable` adds in 64-bit `size_t`: a request that wraps into the first 4096 values is granted without room
  (`IOBufs.EnsureObeysGrowthLaw`, `IOBufs.WrappedRequestIsGranted`).
- `parse` sums the packet length in 16 bits: from 65536 on it takes incomplete frames for complete, and a length of
  exactly 65536 dispatches a packet again and again without consuming it (`Framing.ParseIsFirst`,
  `Framing.DispatchedNotConsumed`).
- The message bodies are copied without a terminator (`Dispatcher.TextArrives`).
- A refused `uv_write` stops the send queue for good (`SendQueue.EveryRunFlows`, `SendQueue.RefusalIsFinal`).
- A failed `uv_async_send` leaves its task behind exactly if the loop has not been told otherwise and no later signal
  gets through (`Scheduler.LostSignalStrandsIff`, `Scheduler.LostSignalStrands`); else it runs although `post` reported
  a failure. So a notify call can fail, withdraw its entry, and still be registered: its service then notifies nobody
  any more (`Protocol.NotifyAgreement`, `Protocol.LostSignalLeavesDeadRegistration`, `Protocol.DeadRegistrationStays`).
- A notify call that the server rejects, or never sees, keeps its entry until the close and blocks every further one
  for that name (`Protocol.HeldUntilClose`, `Protocol.NotifyIsCompletedInPlace`).
- The wait of a synchronous call has no predicate: it returns 0 unanswered exactly if a spurious wake-up let the
  caller go before anything was filled in (`Handshake.ReturnsUnansweredIff`, `Handshake.SpuriousReturnsUnanswered`).
- While `process_response` shows a notify callback code 0, the mark is down: a call for that name made then gets a
  second marked entry, and a failing call that unmarks its own entry then leaves it behind
  (`Marking.OneMarkAfterGapIff`, `Marking.RetryGetsInIff`, `Marking.WithdrawalUndone`).
- An asynchronous call can return an error although its callback has been called (`Protocol.AfterTheError`,
  `Protocol.CompletedAndFailed`).
- Whether a frame of 3074 to 4096 bytes finds room depends on how the stream is cut, and a longer one never does
  (`Receiving.LimitIsExact`, `Receiving.NeverArrives`).
- Nothing empties the receive buffer between two connections (`Receiving.NextConnection`,
  `Receiving.LeftoverByteStopsNext`).
- A second variable `ret` hides the result of a synchronous call: a failed send or a time-out returns 0 and leaves the
  entry in the table (`Channel.ClientChannel.CallMethod`, `Protocol.FailedSendWithdrawsIffAsync`).
- `find_svc` compares a prefix, and the request carries at most 63 bytes of a name: a service is out of reach behind
  one whose name begins with those (`Requests.FindSvcFindsItself`, `Requests.ShadowedService`,
  `Requests.CutNameReachesOther`).
- Ids repeat from the 2^32 + 1st call on (`Protocol.FreshId`).

## Model

| member | source | states |
|---|---|---|
| MsgPack.IntRoundTrip | src/Dispatcher.cpp:42-49 | an int or uint32 packed in its shortest form is read back, whatever follows |
| MsgPack.PackIntIsShortest | src/Dispatcher.cpp:42-49 | no byte string that decodes to a number, with nothing left, is shorter than its encoding |
| MsgPack.ArrayRoundTrip | src/Dispatcher.cpp:58-65 | `msgpack_unpack_next` inverts packing for every array of ints, strings and binaries, with any bytes behind |
| Dispatcher.MetaRoundTrip | src/Dispatcher.cpp:28-111 | every meta is read back as written, for all ids, codes and NUL-free names of at most 63 bytes |
| Dispatcher.UnknownTypeRefused | src/Dispatcher.cpp:105-107 | a packed meta of any other type is refused with -2 |
| Dispatcher.MetaPrefixFree | src/Dispatcher.cpp:28-56 | no meta's wire form begins another's |
| Dispatcher.RequestInBytes | src/Dispatcher.cpp:28-56 | the bytes of every request meta with small fields: array of four, type 1, id, service, method, in this order |
| Dispatcher.ResponseInBytes | src/Dispatcher.cpp:28-56 | and of every response meta with small fields: type 2, id, code, text |
| Dispatcher.MetaLength | src/Dispatcher.cpp:28-56 | a request meta takes at most 137 bytes, a response meta at most 77, never 0 |
| Dispatcher.MetaLengthTight | src/Dispatcher.cpp:28-56 | both bounds are reached |
| Dispatcher.MetaRpc.Serialize | src/Dispatcher.cpp:28-56 | writes exactly the wire form at the given place, nothing else, and returns its length; -1 and no byte for another type |
| Dispatcher.MetaRpc.Deserialize | src/Dispatcher.cpp:58-111 | fills a zeroed struct with the decoded meta, or returns the error code |
| Dispatcher.TextRoundTrip | src/Dispatcher.cpp:116-163 | log id and raw bytes of a message body, up to 64, are read back |
| Dispatcher.ScalarBodyRefused | src/Dispatcher.cpp:145-149 | a body that is a single number, string or binary is refused with -2, not -1 |
| Dispatcher.MapBodyRefused | src/Dispatcher.cpp:145-149 | so is a map, whatever follows it |
| Dispatcher.TextLength | src/Dispatcher.cpp:116-130 | a body takes at most 71 bytes |
| Dispatcher.TextInBytes | src/Dispatcher.cpp:116-130 | the bytes of every message body with a small log id |
| Dispatcher.TextArrives | src/Dispatcher.cpp:158-158 | the received string equals the sent one exactly when the target held a NUL right behind it |
| Dispatcher.TextMessage.Serialize | src/Dispatcher.cpp:116-130 | writes exactly the encoding of log id and C string |
| Dispatcher.TextMessage.Deserialize | src/Dispatcher.cpp:178-210 | on success the raw bytes overwrite the front of `msg` and nothing behind; on failure the target is unchanged |
| IOBufs.EnsureObeysGrowthLaw | src/IOBuf.cpp:167-208 | success iff n + readable <= max(capacity, 4096), room for n, growth to the least multiple of 1024, no change on failure: all this exactly when the size_t sum does not wrap small |
| IOBufs.WrappedRequestIsGranted | src/IOBuf.cpp:188-194 | a concrete request near 2^64 is granted with no room |
| IOBufs.IOBuf.HasReaded | src/IOBuf.cpp:91-99 | consumes exactly the first n readable bytes, or fails and changes nothing |
| IOBufs.IOBuf.HasReadAll | src/IOBuf.cpp:101-103 | everything written counts as consumed |
| IOBufs.IOBuf.Read | src/IOBuf.cpp:105-116 | copies and consumes the first n readable bytes; error codes otherwise |
| IOBufs.IOBuf.HasWritten | src/IOBuf.cpp:126-133 | appends the n bytes stored at the write pointer to the queue, or fails |
| IOBufs.IOBuf.Write | src/IOBuf.cpp:135-146 | appends exactly the data to the queue, or fails with the shape and contents unchanged |
| IOBufs.IOBuf.EnsureWritable | src/IOBuf.cpp:167-175 | reshapes the buffer as the growth law says and keeps the queue |
| IOBufs.IOBuf.MakeSpace | src/IOBuf.cpp:188-208 | the growing branch of the law, queue kept |
| IOBufs.IOBuf.MoveReadableData | src/IOBuf.cpp:210-220 | the readable bytes end up at index 0, intact although source and target overlap |
| Framing.ReadAllExtends | src/RpcChannel.cpp:321-425 | reading a stream in two pieces, carrying the rest over, is reading it in one |
| Framing.FramesWithinSplits | src/RpcChannel.cpp:396-399 | a bound on the frames of a stream passes to every part and to the carried rest |
| Framing.RestIsShort | src/RpcChannel.cpp:367-399 | the unread rest is shorter than the longest frame |
| Framing.ParseIsFirst | src/RpcChannel.cpp:367-425 | `parse` agrees with the exact reference iff the announced length fits 16 bits, or not even the wrapped length has arrived, or the meta is bad |
| Framing.DispatchedNotConsumed | src/RpcChannel.cpp:396-424 | a frame of 65536 bytes is dispatched early and nothing is consumed |
| Framing.DrainLeavesSuffix | src/RpcChannel.cpp:321-331 | on any bytes the loop ends and leaves a suffix of its input |
| Framing.DrainIsReadAll | src/RpcChannel.cpp:321-425 | with bounded frames the 16-bit loop dispatches exactly the reference reading, whatever lies behind the buffer |
| Framing.StreamRoundTrip | src/RpcChannel.cpp:593-639 | the frames of any packet list read back as that list with nothing left |
| Framing.FrameLength | src/RpcChannel.cpp:593-630 | a frame with a body of at most 71 bytes has at most 220 bytes |
| Framing.FrameInBytes | src/RpcChannel.cpp:593-630 | mark, lengths in network order, type, mode, version and reserve of every frame |
| Framing.HeaderByteMatters | src/RpcChannel.cpp:383-391 | one header byte changed, lengths apart: the frame is refused if it is of mark, mode or version, and read as before if it is type or reserve |
| Printing.SendPacket | src/RpcChannel.cpp:593-639 | the buffer handed to the connection holds exactly the frame, 16-bit lengths included; return codes in order |
| Receiving.ChunkingIndependence | src/TcpConnection.cpp:358-395 | for frames of 16-bit lengths and any cut whatever: dispatched packets, error, and residue are those of a one-shot reading, and nothing is dispatched after an error |
| Receiving.EndToEnd | src/RpcChannel.cpp:321-425 | printed packets, of any length the header can announce, arrive in order and whole under every cut, and the buffer ends up empty |
| Receiving.SpaceNeverRunsOut | src/TcpConnection.cpp:358-384 | for frames of at most 3073 bytes and any reads that fit: at every alloc the residue is at most 3072, the request succeeds, 1024 bytes are offered, the capacity is a multiple of 1024 up to 4096 |
| Receiving.NextConnection | src/TcpConnection.cpp:308-356 | what one connection left unread is read in front of the next one's stream |
| Receiving.LeftoverByteStopsNext | src/TcpConnection.cpp:308-356 | with one such byte the next connection stops at its first frame, under every cut |
| Receiving.SpaceBetween | src/TcpConnection.cpp:358-370 | between reads, with frames below the limit, the buffer has room for 1024 more |
| Receiving.RoomExactly | src/TcpConnection.cpp:366-369 | room for 1024 more iff the residue is below 3073; an empty offer iff it is not and the buffer is full behind it |
| Receiving.LimitIsExact | src/TcpConnection.cpp:358-395 | for every third frame of 3074 to 4096 bytes behind two suitable ones, one cut into reads that fit ends with an empty offer and bytes to come, and another delivers the whole stream |
| Receiving.NeverArrives | src/IOBuf.cpp:188-194 | under every cut into reads that fit, what has been dispatched of a printed stream is its beginning, all of it in frames of at most 4096 bytes |
| Receiving.Receiver.OnAlloc | src/TcpConnection.cpp:358-370 | the buffer is reshaped and all writable space offered; nothing when not connected |
| Receiving.Receiver.OnRead | src/TcpConnection.cpp:372-395 | appends the bytes and drains, or stops on an error, or ignores the read when not connected |
| Receiving.Receiver.OnRecv | src/RpcChannel.cpp:321-331 | terminates on arbitrary bytes and does what `Drain` says; stops the connection on a refusal |
| Receiving.Receiver.Parse | src/RpcChannel.cpp:367-425 | header and meta checks, 16-bit length, dispatch |
| SendQueue.EveryRunFlows | src/TcpConnection.cpp:289-306 | in every run: accepted = completed + queue, at most 64 queued, the write in flight is for the front, none in flight with a non-empty queue iff `uv_write` refused, the request never reused in flight, one close callback at most |
| SendQueue.EveryBufferIsAccounted | src/TcpConnection.cpp:289-415 | in every run each buffer handed in while connected, nested sends included, is accepted or dropped, as often as handed in, and those reported as written are those whose writes succeeded, in order |
| SendQueue.SentByCases | src/TcpConnection.cpp:289-306 | below 64 queued the buffer goes behind the others, and is written at once if alone; from 64 on it and all its callback sends are dropped, in order |
| SendQueue.WrittenByCases | src/TcpConnection.cpp:397-415 | a successful write reports the buffer it was for and starts the next; a failed one stops the connection |
| SendQueue.StopCloses | src/TcpConnection.cpp:267-287 | after a stop the close callback comes once and the queue is empty |
| SendQueue.NestedSends | src/TcpConnection.cpp:397-415 | sends from inside the write callback only lengthen the queue behind its front |
| SendQueue.FullDropsAll | src/TcpConnection.cpp:294-299 | with a full queue a send and all sends of its callback, nested to any depth, only drop |
| SendQueue.RefusalIsFinal | src/TcpConnection.cpp:425-437 | after a refused write nothing is written again until the stop |
| SendQueue.Sender.OnSend | src/TcpConnection.cpp:289-306 | guard, drop with callback, or enqueue and start if idle |
| SendQueue.Sender.OnWrite | src/TcpConnection.cpp:397-415 | callback first, then pop and restart, or stop on an error |
| SendQueue.Sender.SendBuf | src/TcpConnection.cpp:425-437 | starts a write of the front through the one request |
| SendQueue.Sender.OnStop | src/TcpConnection.cpp:267-287 | effective once; closes the handle or finishes the close |
| SendQueue.Sender.OnClose | src/TcpConnection.cpp:417-423 | empties the queue and reports the close |
| SendQueue.Sender.ClearBuf | src/TcpConnection.cpp:439-443 | pops until the queue is empty |
| Scheduler.EveryRunHandsOver | src/IOScheduler.cpp:125-180 | in every interleaving posted = executed + batch + queue in order, and a queued task always has a wake-up on its way |
| Scheduler.DrainingIsBounded | src/IOScheduler.cpp:135-180 | for every schedule of internal steps, in any order and with any signals failing: the steps with an effect are at most `Measure`, the queue is noticed at the end iff it was at the start or a signal got through, and is untouched until then |
| Scheduler.DrainsIffNoticed | src/IOScheduler.cpp:135-180 | every schedule that runs until nothing can happen, with any signals failing, has executed all that was posted iff the queue was empty, the loop had been told, or a signal given in it got through |
| Scheduler.EveryStateSettles | src/IOScheduler.cpp:170-180 | from every state such a schedule exists, with at most `Measure` steps |
| Scheduler.LostSignalStrandsIff | src/IOScheduler.cpp:135-141 | a post whose signal fails: the queue is empty, the loop has been told, or another thread's signal still gets through, and everything runs; or else it stays untouched through every schedule |
| Scheduler.NextPostRescues | src/IOScheduler.cpp:125-142 | whatever was stranded, the next post with a good signal gets it run, in order, before its own task |
| Scheduler.LostSignalStrands | src/IOScheduler.cpp:135-141 | the shortest run that strands a task |
| Scheduler.BatchInOrder | src/IOScheduler.cpp:177-179 | a swapped batch is executed exactly and in order; what is posted while it runs queues up behind in order |
| Scheduler.IOScheduler.Post | src/IOScheduler.cpp:125-142 | push then signal, with the return codes |
| Scheduler.IOScheduler.Dispatch | src/IOScheduler.cpp:144-156 | inline on the loop thread, ahead of the queue; posted otherwise |
| Scheduler.IOScheduler.OnAsync | src/IOScheduler.cpp:170-180 | one swap, then the whole batch in order; the queue holds exactly what was posted meanwhile |
| ThreadPool.NoLostWakeups | include/BlockingQueue.hpp:35-70 | with any workers, barging and spurious wake-ups: FIFO, bounded, and queued tasks never outnumber woken workers while one sleeps |
| ThreadPool.EveryTaskIsRunOnce | src/ThreadPool.cpp:107-119 | in every run each task accepted is queued, in a worker's hands or returned, as often as it was pushed; tasks start in push order; nobody leaves before the exit |
| ThreadPool.PoppedAreHanded | include/BlockingQueue.hpp:57-70 | the tasks taken are those that workers were seen to start, in the same order |
| ThreadPool.PushedAreOffered | include/BlockingQueue.hpp:35-44 | the tasks accepted are those the push events offered, less those a full queue refused |
| ThreadPool.PushByCases | include/BlockingQueue.hpp:35-44 | a push is refused exactly at a non-zero bound |
| ThreadPool.CheckByCases | include/BlockingQueue.hpp:57-70 | a ready worker leaves after the exit, starts the head of the queue if there is one, and sleeps otherwise |
| ThreadPool.ShutdownIsBounded | include/BlockingQueue.hpp:127-131 | after the exit no task is popped and workers take at most `Measure` more steps |
| ThreadPool.ShutdownNeverBlocks | src/ThreadPool.cpp:107-119 | after the exit every worker still in `run` has an effective step |
| ThreadPool.ThreadPool.Start | src/ThreadPool.cpp:53-64 | refused without threads or when running; otherwise a fresh queue and all workers entering |
| ThreadPool.ThreadPool.Append | include/BlockingQueue.hpp:35-55 | bounded push that wakes one waiting worker |
| ThreadPool.ThreadPool.PopLocked | include/BlockingQueue.hpp:57-70 | one evaluation of the wait predicate: sleep, leave, or run the front |
| ThreadPool.ThreadPool.NotifyAll | include/BlockingQueue.hpp:127-131 | raises the exit flag and wakes everyone |
| ThreadPool.ThreadPool.Join | src/ThreadPool.cpp:72-76 | terminates with the thread out of `run`, whichever workers move and whatever is pushed meanwhile |
| ThreadPool.ThreadPool.Stop | src/ThreadPool.cpp:66-79 | returns, all threads joined, no task taken since the exit; tasks pushed meanwhile stay in the queue |
| Handshake.NoReplyIsLost | src/RpcChannel.cpp:229-245 | in every interleaving `notify` signals a reply only to a caller that has entered the wait, or whose send only seemed to fail, with code in place; no signal, for a reply or a close, leaves the caller asleep |
| Handshake.ReplyGetsThrough | src/RpcController.cpp:115-138 | from every state with the caller asleep and the loop idle, a reply filled in and notified lets the caller return 0 with that very code |
| Handshake.CloseGetsThrough | src/RpcChannel.cpp:346-355 | and so does a close, with 1006 |
| Handshake.CallerByCases | src/RpcChannel.cpp:229-245 | what lock, send, wait, time-out and return do from every state, mutex included |
| Handshake.SignalWakes | src/RpcController.cpp:134-138 | the signal ends the wait of a sleeping caller without a time-out, and changes nothing for any other |
| Handshake.CodeIsTheFilledOne | src/RpcChannel.cpp:535-543 | in every run the code in place is that of a reply filled in, or 1006 after a close |
| Handshake.UnansweredWakeIff | src/RpcController.cpp:123-132 | in every run, as long as nothing has been filled in, the wait is over without a time-out iff a spurious wake-up hit the sleeping caller |
| Handshake.ReturnsUnansweredIff | src/RpcController.cpp:123-132 | in every run, the wait returns 0 with no code in place iff a spurious wake-up came and the caller got out before anything was filled in |
| Handshake.SpuriousReturnsUnanswered | src/RpcController.cpp:123-132 | the shortest such run |
| Handshake.RpcController.Notify | src/RpcController.cpp:134-138 | lock, unlock, wake |
| Requests.FindSvcFindsItself | src/RpcChannel.cpp:655-663 | a call reaches the service it names iff no earlier name begins with the first 63 bytes of that name |
| Requests.ShadowedService | src/RpcChannel.cpp:655-663 | two concrete services, one out of reach |
| Requests.CutNameReachesOther | src/RpcChannel.cpp:194-194 | two names of 64 bytes that differ in the last only, neither beginning with the other: calls for the second reach the first |
| Requests.InsertRefusesOnlyRepeats | src/RpcChannel.cpp:199-217 | an entry is refused exactly if it is marked and some marked entry has its name; otherwise the table changes at its id only |
| Requests.DecisionByCases | src/RpcChannel.cpp:427-510 | for every request: 1001, 1002, registration, 1003, 1007, or execution by the first service whose name begins with the name asked for |
| Protocol.FreshId | src/RpcChannel.cpp:193-193 | the next id is new iff fewer than 2^32 calls were made |
| Protocol.PendingPartition | src/RpcChannel.cpp:199-253 | in every run a call without notify completes at most once, and is in the table exactly while neither completed nor withdrawn |
| Protocol.FailedSendWithdrawsIffAsync | src/RpcChannel.cpp:219-253 | a failed send takes its entry out iff the call has a callback |
| Protocol.ResponseCorrelation | src/RpcChannel.cpp:427-574 | a completion shows the one answer the server gave to the very request this call sent, in any order of answers, its code replaced by 1004 only if it has a body that was not decoded; never a notification for a plain call |
| History.RequestsAreAsAsked | src/RpcChannel.cpp:189-225 | in every run each request at or on its way to the server is what the caller of that number asked for: names cut to 63 bytes, message unchanged |
| History.CallsAreAsBegun | src/RpcChannel.cpp:167-197 | in every run the n-th call has the n-th id and keeps what its caller gave |
| History.EverythingHasItsEvents | src/RpcChannel.cpp:427-591 | in every run each answer has the result with which that request was finished or rejected, each completion the code and body of a response handled, 1004 only for a body that does not decode, each notification the body the service gave, each network error a close |
| History.CallCompletes | src/RpcChannel.cpp:167-574 | from every state with the id taken and the method known: insert, send, serve, finish and handle complete the call with the service's verdict and message |
| History.NotifyRegisters | src/RpcChannel.cpp:449-465 | from every state with the name free on both sides: insert, send and serve register the call |
| History.NotificationArrives | src/RpcChannel.cpp:256-287 | a notification for a held registration calls its callback with the service's message, and the entry stays |
| History.PlainCallGetsIn | src/RpcChannel.cpp:199-217 | a call without notify gets its entry in, whatever the table holds |
| History.NotifyCallGetsInIff | src/RpcChannel.cpp:199-217 | a notify call does iff no marked entry has its name |
| History.SentByCases | src/RpcChannel.cpp:219-246 | a send succeeds iff connected and accepted, and puts exactly the call's request on the wire iff the connection has it |
| History.ServedByCases | src/RpcChannel.cpp:427-510 | what each request leaves at the server and on the wire, case by case |
| History.ClosedSidesAreDeaf | src/RpcChannel.cpp:342-365 | a closed side handles nothing |
| Protocol.AnswerCompletesPendingCall | src/RpcChannel.cpp:512-558 | the answer to a pending call completes it, removes its entry, and touches no other |
| Protocol.CloseCompletesPendingCalls | src/RpcChannel.cpp:342-365 | the close completes exactly the entries of the table, once each, and in every run behind it no call is completed any more |
| Protocol.NotifyAgreement | src/RpcChannel.cpp:449-465 | in every run each registration is for a notify call of that service, one per service on both sides; while the client is open it holds the marked entry iff it has not given the call up after a lost signal |
| Protocol.NotifyAgreementWithSignals | src/RpcChannel.cpp:449-465 | in every run whose sends lose no signal, every registration is a marked entry the open client holds |
| Protocol.PushCompletesItsOwn | src/RpcChannel.cpp:256-287 | a push completes at most one controller, one registered for that service; it does, and the entry stays, iff the call was not given up |
| Protocol.NotifyIsCompletedInPlace | src/RpcChannel.cpp:512-558 | a response to a standing notify call, a push or the server's rejection, is shown to the callback and changes nothing in the table |
| Protocol.HeldUntilClose | src/RpcChannel.cpp:199-217 | a notify entry once sent, for a known service or not, stands, marked, through every run until the close, and every later notify for that name is refused |
| Protocol.LostSignalLeavesDeadRegistration | src/RpcChannel.cpp:222-252 | from every state with the entry in and nobody registered for the service: after a lost signal the call has withdrawn its entry and the server registers it |
| Protocol.DeadRegistrationStays | src/RpcChannel.cpp:270-278 | in every run until the server closes, such a registration stays the only one for its service, and a response to it changes nothing at the client |
| Protocol.NotifyOnTheWire | src/RpcChannel.cpp:194-195 | the truncated method name is "notify" only for notify calls |
| Protocol.UndisturbedCall | src/RpcChannel.cpp:167-254 | run without interference, the sections of a call leave the table and return the code that `CallResult` says |
| Protocol.AfterTheError | src/RpcChannel.cpp:219-253 | once an asynchronous call has returned its error, its callback is never called again in any run; a call without notify has been completed before exactly if its withdrawal found no entry |
| Protocol.CompletedAndFailed | src/RpcChannel.cpp:219-253 | from every state with a send failed and the entry still in: a close before the withdrawal completes the call, which returns -4 all the same |
| Marking.OneMarkAfterGapIff | src/RpcChannel.cpp:535-557 | after a completion with other calls' sections in between, names have one marked entry each iff the code was not 0 or no notify call for that name got in and stayed |
| Marking.GapMakesNoDifference | src/RpcChannel.cpp:535-557 | unless a notify call for that name comes in between, the table is that of a completion in one step followed by the other sections |
| Marking.RetryGetsInIff | src/RpcChannel.cpp:201-213 | a repeated notify made inside the gap is accepted iff the code shown is 0 |
| Marking.WithdrawalUndone | src/RpcChannel.cpp:248-252 | an entry unmarked by its own failing call inside the gap is marked again, nameless, and survives its withdrawal |
| Channel.ClientChannel.HasNotify | src/RpcChannel.cpp:201-210 | the scan finds a live notify entry of that name iff there is one |
| Channel.ClientChannel.InsertEntry | src/RpcChannel.cpp:199-217 | refuses exactly a marked controller whose name another marked one has, otherwise adds the entry |
| Channel.ClientChannel.Meanwhile | src/RpcController.cpp:126-126 | whichever way the wait ends, what the loop leaves: the table, the code shown to the sleeper, nobody else touched by a reply |
| Channel.ClientChannel.AwaitReply | src/RpcController.cpp:123-132 | the held mutex is given up, and at the return it is free again and the caller awake, with the reply or close in between completed exactly once; -1 iff timed out |
| Channel.ClientChannel.SendAndWait | src/RpcChannel.cpp:229-245 | lock, send, unlock or wait: the mutex is free on every path, -4, -5 or 0 |
| Channel.ClientChannel.CallMethod | src/RpcChannel.cpp:167-254 | every return code with the table it leaves and the codes it shows; without notify never -3 when connected; a synchronous call returns 0 whatever happens after insertion |
| Channel.ClientChannel.RemoveRequest | src/RpcChannel.cpp:641-653 | returns the controller; erases it unless marked |
| Channel.ClientChannel.CompleteByResponse | src/RpcChannel.cpp:520-557 | one completion: 1004 iff there is a body, an object to fill, and decoding fails, else the code; mark restored |
| Channel.ClientChannel.ProcessResponse | src/RpcChannel.cpp:512-558 | completes the addressed controller once and no other, erases it unless marked |
| Channel.ClientChannel.OnClose | src/RpcChannel.cpp:342-365 | completes every controller in the table once with the network error |
| Channel.ServerChannel.FindService | src/RpcChannel.cpp:655-663 | the loop returns the first service the name is a prefix of |
| Channel.ServerChannel.FindId | src/RpcChannel.cpp:270-282 | the scan finds an id registered for the service iff there is one |
| Channel.ServerChannel.ProcessRequest | src/RpcChannel.cpp:427-510 | which requests are rejected with which code, registered, or executed, in terms of services and request; the table and the error response |
| Channel.ServerChannel.Done | src/RpcChannel.cpp:561-574 | sends the response under the request's id with code 0 or the method error |
| Channel.ServerChannel.Notify | src/RpcChannel.cpp:256-287 | sends under an id registered for the service, or one of three error codes |
| Channel.ServerChannel.OnClose | src/RpcChannel.cpp:342-365 | forgets registrations and services, completes nothing |

## Left out

- libuv, sockets, threads and mutexes themselves: what they may do is in the events (a write completes once, a pending
  signal is delivered once, a lock excludes, a wake-up may be spurious).
- MessagePack beyond the encodings in use: arrays holding anything but ints, strings and binaries count as malformed;
  objects of the other families are told apart as complete or not, without the library's limit on nesting.
- Metas with fewer than four elements, with elements of another kind, or whose strings do not fit the 64-byte fields,
  and message bodies of that sort: undefined in the C++, a decoding error in the model.
- Memory behind the receive buffer, which `parse` may read when its length wraps, is an arbitrary function.
- Null data pointers passed to `IOBuf::read` and `write`.
- `on_read` without a receive callback, and callbacks that stop the connection from inside `on_recv` or `on_write`.
- IOBufs.IOBuf.EnsureWritable: requires that the size_t sum does not wrap, because behind a wrap the vector can become
  shorter than its contents, which the C++ leaves undefined; the same goes for IOBufs.IOBuf.MakeSpace and Write.
- IOBufs.IOBuf.MakeSpace: as IOBufs.IOBuf.EnsureWritable.
- Protocol: controllers are values per call, so no controller stands in two live entries; the client does not
  reconnect. A client gets responses and a server requests only: a request sent to a client dereferences its null
  `services_`, a response sent to a server takes its services for controllers.
- Protocol.NotifyAgreement: takes `process_response` as one step, and so do all results of `Protocol`; what other
  calls can do inside it is in `Marking`.
- Protocol.HeldUntilClose: does not see the gap inside `process_response`, in which a retry is accepted
  (`Marking.RetryGetsInIff`).
- Handshake: the three seconds are a nondeterministic time-out.
- Channel.ClientChannel.Meanwhile: one thing at most happens on this channel while the caller sleeps.
- Channel.ClientChannel.InsertEntry: requires a controller that does not stand in the table yet.
- Channel.ClientChannel.CallMethod: the -3 that a server-side channel returns is left out. While the caller sleeps the
  loop does one thing on this channel, or nothing; every interleaving is in `Handshake` and `Protocol`. The
  controller's mutex must be free at the call, else `lock` blocks, and it must not stand in the table yet.
- Channel.ClientChannel.OnClose: requires the controllers' mutexes to be free, which is when each `notify` can proceed.
- Receiving.ChunkingIndependence: requires lengths of 16 bits, because longer ones are not read as announced
  (`Framing.ParseIsFirst`).
- `IOTimer`, `IOSignal`, `TcpServer`, `RpcServer`, addresses, logging, and the pimpl wrappers: flags and forwarding.
- `IOBuf::shrink` and `swap`, `BlockingQueue::front`, `back`, `empty`, `full`, `size`, and the plain setters of
  `RpcController`: each reads or assigns one field, and nothing proved here depends on them.
- Lifetime and deletion of controllers and messages; error texts, which the code never sends.
