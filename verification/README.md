# hope-io in Dafny

A Dafny 4.11 model of hope-io, a C++ networking library, with proofs. Three parts of the library are
modelled, each in the form the C++ has: values and functions for what is computed, classes and loops
for what is changed in place, and one specification that both are proved against.

**The io_uring TCP event loop** over its ring buffer and buffer pool. `Buffer` and `Pool` are the
mutable classes, `RingValue` is the value of a ring. `LoopModel` and `TcpLoopModel` give every handler
of the loop as a function of one state that holds the connection table, the pool, the buffers on the
heap, the operations the kernel holds and the open descriptors. The kernel is an arbitrary
environment: it accepts, receives, sends short, fails and completes in any order. Callbacks are
arbitrary: any sequence of buffer operations and any next state. `TcpLoopSafety`, `TcpEcho`,
`TcpProgress` and `TcpEchoRuns` prove what holds over every run of that machine. `TcpAnswers` says, for
every completion and every accept, which callback finds which bytes, what the buffer holds afterwards
and which operation the answer is waited for with; `Callbacks` is what a callback makes of bytes.
`TcpOpening` is how a run begins, `TcpCollision` gives the run in which its tags collide, and
`UringTcpLoop` is the class with the C++ fields whose methods are proved to make exactly its steps.
`Runs` plays lists of events, for runs that show something reachable.

**The io_uring TLS event loop.** `TlsModel` is its lifecycle: SSL handles, buffers, descriptors, pending
handshakes, outstanding operations, callbacks. Nothing is assumed of completions but that the operation
is outstanding, so they come in any order and with any result, stale ones included; each operation
carries the accept after which it was submitted and the buffer lent to it. `Ownership` divides things
among slots and a rest. `TlsSafety` proves the invariant and exactly which completions fault; `TlsRuns`
what runs do to one descriptor and when a connection can still end; `TlsEpochs` whose operations are
outstanding when a descriptor is used again; `TlsKtls` how many operations a KTLS connection has, which
received bytes are lost and which lent buffers are pooled; `TlsFailures` gives runs from a fresh loop to
each failure. `SslLoops` and `TlsTransfer` are the two loops around SSL_read and SSL_write, offer by
offer and over a connection's ring buffer. `TlsMachine` is the loop with its buffers: what every handler
finds, answers, submits and leaves behind, as a function of what the TLS library, the kernel and the
callbacks give. `TlsMachineRuns` shows that its runs are runs of `TlsSafety`, `TlsRegions` that a lent
region stays what it is, `TlsCallbacks` which callbacks lead to the failures of KTLS connections.
`TlsAnswers` says for every accept and every completion which handler serves it, which callback finds
which bytes, what the buffer holds afterwards and what is waited for with which operation; `TlsFlow` is
conservation of the bytes of a connection over runs, in either mode. `UringTlsLoop` is the class, with real buffers and a real pool, whose handlers are proved to make exactly
the steps of `TlsMachine`.

**The order book and the codecs** of the order-book sample. `Levels`, `OrderBookModel` and `OrderBook`:
two sorted vectors kept by two different in-place algorithms, and an empty-book fast path, against one
map from price to quantity; `OrderBookLaws` gives that quantity as the sum of the levels since the last
deletion or snapshot. `WebSocketModel` and `WebSocket`: frames of RFC 6455, sections 5.2 and 5.3, with
`WebSocketFrames` as what a frame is byte by byte. `Base64`: section 4 of RFC 4648.

**The blocking streams.** `StreamModel` and `Streams`: the write, read and scatter-write loops of the
TCP and TLS streams over sockets that give arbitrary short answers, and length-prefixed strings on top.
`StreamReach`: exactly how far each loop gets, and when it succeeds, in every mode.

`Bits` holds bytes, words and bitwise operators. Widths that matter are written out: 64-bit counters
and tags, 32-bit descriptors and the int casts of the TLS library, 16-bit string lengths, bytes.

## Where the code and its comments differ

- `uring_core.h:34` says that the accept tag never collides with a data tag. It collides exactly when
  the listening descriptor is twice a connection's (`AcceptCollision`), and then the count of bytes
  received is taken for a descriptor and a further accept is armed (`CollisionTakesCountForDescriptor`,
  `CollisionIsReachable`). All other runs of the TCP loop assume that accept does not return such a
  descriptor.
- `uring_tcp_event_loop.h:190` says that a submission which finds no free entry is retried on the next
  tick. Nothing retries it, or wakes a connection with nothing in flight in any other way
  (`QuiescentForever`; `QuietHistory` says exactly when there is one).
- `event_loop.h:143` says that the used region is empty if the buffer is empty. It is also empty if the
  buffer is completely full (`UsedRegionIsFirstChunk`), so an echo connection whose buffer fills up
  stalls (`EchoStallsIffFull`, `StallIsReachable`).
- `uring_tls_event_loop.h:160` speaks of an error or the end of the stream. A KTLS receive that
  completes with 0 is ignored there, and so is the end of the stream that SSL_read reports. The
  connection can then still end exactly if that operation was not its only one (`EndOfStreamIff`); if it
  was, it stays open with its handle and buffer until the loop ends (`EndOfStreamLeaks`,
  `LeakIsReachable`).
- In the TLS loop a handshake that fails on retry leaves `op` set, so a stale poll completion then uses
  a null buffer (`StepInv`, `FaultIsReachable`), and a failed operation closes its descriptor again if it
  was closed already (`StrayCloses`, `StrayIsReachable`).
- A failed operation also closes its descriptor if another connection has it by then
  (`SuccessorIsClosed`). This can happen exactly while not all operations have completed that were
  outstanding when the descriptor was accepted (`EarlierEndsIff`). If accept only returns descriptors
  with nothing outstanding, it never happens, and no null buffer is used (`CleanRuns`).
- After every on_connect that does not answer die the TLS loop calls handle_read
  (`uring_tls_event_loop.h:317`). A KTLS connection can then have a second operation outstanding exactly
  if on_connect asked to read and left bytes in the buffer without filling it, and on_read submitted
  something as well (`AtMostOneWhen`). In this case, and if on_read answers die instead, received bytes
  can be lost and the buffer can go back to the pool while the kernel still holds it; in no other case
  (`LossWhen`, `StrandWhen`).
- `order_book_ws.cpp:308` and `order_book_ws.cpp:341` say that levels come strictly ordered. On an empty side this is what
  makes the fast path right; `BidFastPath` and `AskFastPath` give the exact condition.
- A string of more than 65535 bytes is written with a wrapped length (`stream.h:113`), so it does not
  come back (`FrameReturns`). A write of 2^31 bytes or more through the TLS library never finishes
  (`SslWriteIsBelow2G`).

## Model

| member | source | states |
|---|---|---|
| RingValue.WordsAnswerLikeCounters | lib/hope-io/net/event_loop.h:40-48 | with head and tail kept modulo 2^64, count, the empty test and the masked indices are those of counters that only grow |
| RingValue.TracksAdvance | lib/hope-io/net/event_loop.h:137-155 | that correspondence survives every advance, however often the words have wrapped |
| RingValue.MaskIsIndex | lib/hope-io/net/event_loop.h:47 | masking with capacity minus one is the index modulo the capacity, for every power-of-two capacity |
| RingValue.BufferSizeIsCapacity | lib/hope-io/net/event_loop.h:46 | 512 KiB is a capacity the word arithmetic supports: a power of two below 2^64 |
| RingValue.FreeRegionIsFirstChunk | lib/hope-io/net/event_loop.h:129-135 | the free region is the first chunk a closure is offered, inside the array, and empty exactly when the buffer is full |
| RingValue.UsedRegionIsFirstChunk | lib/hope-io/net/event_loop.h:144-150 | the used region holds the oldest bytes, is the first chunk a closure is offered, and is empty exactly when the buffer is empty or completely full |
| RingValue.ReceiveThenAdvance | lib/hope-io/net/event_loop.h:125-140 | bytes received into the lent region are invisible until the tail is advanced over them, and are then exactly what is appended |
| RingValue.AppendContents | lib/hope-io/net/event_loop.h:78-98 | storing bytes behind the tail, across the end of the array, appends them to the queue |
| RingValue.AdvanceHeadContents | lib/hope-io/net/event_loop.h:152-155 | advancing the head drops exactly the oldest bytes |
| Buffer.CopyFromFills | lib/hope-io/net/event_loop.h:50-60 | through consume_free, write's closure stores exactly the longest prefix that fits, on every wrap position |
| Buffer.CopyOutDrains | lib/hope-io/net/event_loop.h:62-72 | through consume_used, read's closure takes exactly what is asked for or all there is |
| Buffer.FreeOffers | lib/hope-io/net/event_loop.h:78-98 | the offers of consume_free: none when full, one when the free space lies in one piece, otherwise the rest of the memory and, exactly if the closure filled it, what is free at its start; their bytes in that order are what is stored |
| Buffer.UsedOffers | lib/hope-io/net/event_loop.h:104-123 | the same for consume_used: the oldest bytes up to the end of the memory, and the others exactly if these were all consumed |
| Buffer.FixedSizeBuffer.ConsumeFree | lib/hope-io/net/event_loop.h:78-98 | for any closure that returns at most its chunk: the queue grows by exactly the bytes stored, the total is returned, and at most two chunks are offered |
| Buffer.FixedSizeBuffer.ConsumeUsed | lib/hope-io/net/event_loop.h:104-123 | for any such closure: exactly the consumed bytes leave the front of the queue, in order, within two offers |
| Buffer.FixedSizeBuffer.Write | lib/hope-io/net/event_loop.h:50-60 | appends the first min(size, free) bytes and returns that number |
| Buffer.FixedSizeBuffer.Read | lib/hope-io/net/event_loop.h:62-72 | removes and returns the oldest min(size, count) bytes |
| Buffer.FixedSizeBuffer.GetFreeRegion | lib/hope-io/net/event_loop.h:129-135 | the masked index computation gives the first free chunk |
| Buffer.FixedSizeBuffer.GetUsedRegion | lib/hope-io/net/event_loop.h:144-150 | the region is a prefix of the queue, of size 0 exactly for an empty or a full buffer |
| Buffer.FixedSizeBuffer.AdvanceTail | lib/hope-io/net/event_loop.h:138-140 | the wrapped word still tracks the growing counter |
| Buffer.FixedSizeBuffer.AdvanceHead | lib/hope-io/net/event_loop.h:153-155 | the same for the head |
| Buffer.FixedSizeBuffer.Count | lib/hope-io/net/event_loop.h:172-176 | the word difference is the length of the queue |
| Buffer.FixedSizeBuffer.IsEmpty | lib/hope-io/net/event_loop.h:168-170 | equal words mean an empty queue and equal growing counters |
| Pool.BufferPool.Allocate | lib/hope-io/net/event_loop.h:221-228 | the last pooled buffer, or a new empty one when there is none |
| Pool.BufferPool.Redeem | lib/hope-io/net/event_loop.h:230-233 | the buffer comes back emptied, at the end of the pool |
| Pool.BufferPool.Prepool | lib/hope-io/net/event_loop.h:235-238 | that many new, empty buffers behind the ones there, all different, each with its own memory |
| Pool.BufferPool.Drain | lib/hope-io/net/event_loop.h:240-243 | deletes every pooled buffer once, in order, and leaves the pool empty |
| Tags.DecodeData | lib/hope-io/net/uring/uring_core.h:36-46 | decoding a data tag gives its descriptor and its kind, for every 31-bit descriptor |
| Tags.TagsAre | lib/hope-io/net/uring/uring_core.h:36-40 | the tags as numbers: four times the descriptor plus 0 for a receive, 1 for a send, 2 and 3 for polls of input and output, and twice the listening descriptor for an accept |
| Tags.DataTagsInjective | lib/hope-io/net/uring/uring_core.h:37-40 | the four data tags are jointly injective |
| Tags.AcceptCollision | lib/hope-io/net/uring/uring_core.h:34-40 | exactly when the accept tag is a data tag |
| LoopModel.CallbackOk | lib/hope-io/net/uring/uring_tcp_event_loop.h:221-230 | a callback may do anything to the buffer: the accounting of bytes still holds and nothing is in flight |
| LoopModel.SubmitOk | lib/hope-io/net/uring/uring_tcp_event_loop.h:181-209 | a submission leaves an idle connection, or exactly one operation on the region the counters give |
| LoopModel.KernelOk | lib/hope-io/net/uring/uring_tcp_event_loop.h:181-209 | whatever the kernel does with the outstanding operation, its region and the moved bytes still match it |
| LoopModel.TakeReceivedOk | lib/hope-io/net/uring/uring_tcp_event_loop.h:217-220 | taking over a receive result leaves an idle connection with the received bytes appended |
| LoopModel.TakeSentOk | lib/hope-io/net/uring/uring_tcp_event_loop.h:238-241 | taking over a send result drops exactly the bytes that were sent |
| TcpLoopSafety.StepInv | lib/hope-io/net/uring/uring_tcp_event_loop.h:97-143 | every step of the loop and of the kernel keeps the invariant |
| TcpLoopSafety.Safety | lib/hope-io/net/uring/uring_tcp_event_loop.h:49-154 | every state of every run satisfies the invariant, from the filled pool and the first accept on |
| TcpLoopSafety.FirstConnection | lib/hope-io/net/uring/uring_tcp_event_loop.h:104-122 | runs get somewhere: from every initial state each descriptor that accept may return leads in three steps to a registered connection, or to a closed one if on_connect answers die |
| TcpLoopSafety.InFlight | lib/hope-io/net/uring/uring_tcp_event_loop.h:167-259 | in every reachable state each descriptor has at most one operation outstanding, exactly when op says so, of that kind, on its own buffer and current region; and exactly one accept is outstanding |
| TcpLoopSafety.DispatchIs | lib/hope-io/net/uring/uring_tcp_event_loop.h:103-138 | dispatch by tag reaches the handler of the operation that completed, so no stale guard fires and only live connections are removed |
| TcpLoopSafety.TagLeadsHome | lib/hope-io/net/uring/uring_tcp_event_loop.h:125-137 | the tag of an outstanding operation decodes to its own connection and kind |
| TcpCollision.CollisionTakesCountForDescriptor | lib/hope-io/net/uring/uring_tcp_event_loop.h:103-123 | without the assumption on tags: a receive of n bytes is processed as an accept of descriptor n exactly when the listening descriptor is twice the connection's, and the connection's own completion is lost |
| TcpCollision.CollisionIsReachable | lib/hope-io/net/uring/uring_tcp_event_loop.h:103-123 | from every initial state with an even listening descriptor, on half of it, the first bytes received arm a second accept and register a connection under a descriptor nobody opened, and the true connection receives nothing more |
| TcpLoopSafety.PoolPlusLive | lib/hope-io/net/event_loop.h:220-246 | pooled plus live buffers are exactly the buffers created |
| TcpLoopSafety.SweepKeeps | lib/hope-io/net/uring/uring_tcp_event_loop.h:146-152 | the shutdown sweep keeps buffer ownership and leaves the swept part of the table without buffers |
| TcpLoopSafety.ShutdownPoolsAll | lib/hope-io/net/uring/uring_tcp_event_loop.h:146-152 | after the sweep of any reachable state the pool holds every buffer ever created, each once |
| TcpLoopSafety.ShutdownLeaves | lib/hope-io/net/uring/uring_tcp_event_loop.h:146-152 | all of them are empty and stand behind those that were pooled, every record has lost its buffer and nothing else, and nothing outside table, pool and buffers changes |
| TcpLoopSafety.SweepStrands | lib/hope-io/net/uring/uring_tcp_event_loop.h:146-152 | exactly when that sweep pools, for deletion, a buffer the kernel may still write: when its connection has an operation outstanding; before the sweep no such buffer is pooled |
| TcpEcho.EchoConservation | lib/hope-io/net/uring/uring_tcp_event_loop.h:181-259 | over every run whose callbacks leave the buffers alone: received bytes are the sent bytes followed by the bytes held, so the output is a prefix of the input |
| TcpEcho.BufferConservation | lib/hope-io/net/uring/uring_tcp_event_loop.h:181-259 | for callbacks that use the buffer: what entered it is what left it followed by its contents |
| TcpEcho.StepUntouched | lib/hope-io/net/uring/uring_tcp_event_loop.h:97-143 | every step with such a callback keeps conservation on every live connection |
| TcpProgress.StepFrame | lib/hope-io/net/uring/uring_tcp_event_loop.h:97-143 | a step about one connection changes no other |
| TcpProgress.QuietIff | lib/hope-io/net/uring/uring_tcp_event_loop.h:181-259 | exactly when processing a successful completion leaves a connection with nothing in flight |
| TcpProgress.AcceptQuietIff | lib/hope-io/net/uring/uring_tcp_event_loop.h:104-120 | exactly when a connection starts with nothing in flight: on_connect asks for nothing, finds no free entry, or chooses an empty region |
| TcpProgress.QuietHistory | lib/hope-io/net/uring/uring_tcp_event_loop.h:97-139 | in every state of every run, with any callbacks, a connection is live with nothing in flight exactly when an earlier step left it so for one of those reasons and no step has been about it since |
| TcpProgress.QuiescentForever | lib/hope-io/net/uring/uring_tcp_event_loop.h:187-193 | a connection with nothing in flight stays as it is in every later state of the run |
| Callbacks.CallbackHeld | lib/hope-io/net/event_loop.h:50-76 | whatever writes, reads and resets a callback makes, the ring holds exactly the bytes that cutting writes to the room and taking the oldest bytes gives |
| Callbacks.CallbackFlow | lib/hope-io/net/event_loop.h:50-76 | what was held and all that the callback wrote is all that it took and what it left, in order |
| TcpAnswers.DataAnswered | lib/hope-io/net/uring/uring_tcp_event_loop.h:125-259 | every data completion, with any callback: a failed one closes the connection and pools its buffer; received bytes lie behind those held when on_read is called; sent bytes have left the front, and on_write is called exactly when none are left; the buffer holds what the callback left; the state is its answer, unless it is idle; after read a receive into exactly the free region is outstanding, after write a send of exactly the used region, unless there is no such region or no free entry; and nothing else is outstanding |
| TcpAnswers.AcceptAnswered | lib/hope-io/net/uring/uring_tcp_event_loop.h:104-122 | every accept: a refused one only arms the next; otherwise on_connect finds an empty buffer, the pool's last or a new one, its answer is the state, idle included, and is waited for in the same way |
| TcpAnswers.TableGrows | lib/hope-io/net/uring/uring_tcp_event_loop.h:270-277 | the connection table grows exactly as far as the accepted descriptor, by empty records, and keeps all others |
| TcpAnswers.RunAnswered | lib/hope-io/net/uring/uring_tcp_event_loop.h:97-143 | every data completion and every accept of every run is one of these |
| TcpEchoRuns.EchoRunOk | lib/hope-io/net/uring/uring_tcp_event_loop.h:212-259 | over every echo run each live connection waits with an empty buffer, is sending, or is stalled with a full one |
| TcpEchoRuns.EchoStallsIffFull | lib/hope-io/net/event_loop.h:144-150 | in every state of an echo run a live connection has nothing in flight exactly when its buffer is full |
| TcpEchoRuns.FullReceiveStalls | lib/hope-io/net/event_loop.h:144-150 | one legal receive of the whole capacity stalls a waiting connection |
| TcpEchoRuns.StallIsReachable | lib/hope-io/net/event_loop.h:144-150 | from every initial state, on every descriptor that accept may return, six steps of an echo server lead there |
| TcpEchoRuns.ResponseDrains | lib/hope-io/net/uring/uring_tcp_event_loop.h:233-259 | a response of n bytes takes at most n send completions, whatever short sends occur and whatever other connections do |
| TcpEchoRuns.ResponseEnds | lib/hope-io/net/uring/uring_tcp_event_loop.h:243-254 | the last of them leaves the connection waiting for input with every byte sent |
| UringTcpLoop.UringTcpEventLoop.constructor | lib/hope-io/net/uring/uring_tcp_event_loop.h:76-81 | the object starts in an initial state of the machine, with the pool filled and one accept armed |
| UringTcpLoop.UringTcpEventLoop.SubmitRecv | lib/hope-io/net/uring/uring_tcp_event_loop.h:181-194 | with a buffer, a free entry and free space the current free region is lent to the kernel and op says receive; otherwise nothing changes |
| UringTcpLoop.UringTcpEventLoop.SubmitSend | lib/hope-io/net/uring/uring_tcp_event_loop.h:196-209 | the same for the used region and op send |
| UringTcpLoop.UringTcpEventLoop.HandleRecvCompletion | lib/hope-io/net/uring/uring_tcp_event_loop.h:212-231 | on the heap object exactly the machine's receive step: a stale entry changes nothing, otherwise the tail advances, on_read runs and its answer closes the connection or submits the next operation |
| UringTcpLoop.UringTcpEventLoop.HandleSendCompletion | lib/hope-io/net/uring/uring_tcp_event_loop.h:233-259 | exactly the machine's send step: the head advances, and on_write runs only when the buffer has drained; otherwise the rest is sent |
| UringTcpLoop.UringTcpEventLoop.PushNewConnection | lib/hope-io/net/uring/uring_tcp_event_loop.h:262-278 | the table grows as needed and the record gets a buffer nobody else has |
| UringTcpLoop.UringTcpEventLoop.RemoveConnection | lib/hope-io/net/uring/uring_tcp_event_loop.h:280-289 | for any descriptor: a buffer goes back emptied, the record is cleared and the descriptor closed; beyond the table nothing happens |
| UringTcpLoop.UringTcpEventLoop.RearmAccept | lib/hope-io/net/uring/uring_tcp_event_loop.h:173-178 | one more accept is outstanding and nothing else changes |
| UringTcpLoop.UringTcpEventLoop.ProcessDataEntry | lib/hope-io/net/uring/uring_tcp_event_loop.h:97-139 | one data completion entry: exactly the machine's step |
| UringTcpLoop.UringTcpEventLoop.ProcessAcceptEntry | lib/hope-io/net/uring/uring_tcp_event_loop.h:104-123 | one accept completion entry: exactly the machine's step for this answer of on_connect and this submission entry |
| UringTcpLoop.UringTcpEventLoop.KernelWork | lib/hope-io/net/uring/uring_tcp_event_loop.h:191-207 | a kernel step on the lent memory of the heap: exactly the machine's step |
| UringTcpLoop.UringTcpEventLoop.Shutdown | lib/hope-io/net/uring/uring_tcp_event_loop.h:45-47 | sweep and drain delete every buffer ever created, each exactly once, leave the pool empty and take its buffer, and nothing else, from every record |
| TlsSafety.StepInv | lib/hope-io/net/uring/uring_tls_event_loop.h:132-218 | every accept and every completion, in any order and with any result, keeps the lifecycle invariant; and it uses a null buffer exactly when it is a poll that did not fail, of a closed descriptor whose record still waits for a poll and says reading |
| TlsSafety.Lifecycle | lib/hope-io/net/uring/uring_tls_event_loop.h:151-376 | in every reachable state: a pending descriptor has a handle and no buffer, any other has both or neither; each handle is owned once or was freed once and each buffer owned once or pooled once; exactly pending and registered descriptors are open; KTLS connections are never polled and others never use KTLS operations; every record's callbacks, live or dead, start with its one on_connect, one for each completed handshake |
| TlsSafety.ShutdownFreesAll | lib/hope-io/net/uring/uring_tls_event_loop.h:220-231 | after the loop every handle ever made was freed exactly once and every buffer is pooled exactly once behind those that were, every record has lost both and nothing else, no handshake is pending, and the descriptors of all pending and registered connections are still open |
| TlsRuns.StepNear | lib/hope-io/net/uring/uring_tls_event_loop.h:151-208 | a step changes nothing of any other descriptor, and closes one that is not open exactly when it is a failed operation of a closed descriptor |
| TlsRuns.StrayCloses | lib/hope-io/net/uring/uring_tls_event_loop.h:546-563 | over every run: descriptors that are not open are closed exactly as often as failed operations of closed descriptors complete |
| TlsRuns.QuietEnds | lib/hope-io/net/uring/uring_tls_event_loop.h:171-207 | as long as all that completes for an open connection is a KTLS transfer of no byte or a poll that finds nothing and need not wait, its record, handle, buffer and callbacks stay as they are |
| TlsRuns.NeverEnds | lib/hope-io/net/uring/uring_tls_event_loop.h:132-218 | an open connection with nothing outstanding stays exactly so in every later state of the run: no accept can return its descriptor and nothing completes for it |
| TlsRuns.EndOfStreamLeaks | lib/hope-io/net/uring/uring_tls_event_loop.h:171-181 | when the only outstanding operation ends with the end of the stream, the connection keeps its record, handle, buffer and open descriptor in every later state |
| TlsRuns.EndableIff | lib/hope-io/net/uring/uring_tls_event_loop.h:132-218 | something that may follow closes an open connection exactly when an operation is outstanding for its descriptor |
| TlsRuns.EndOfStreamIff | lib/hope-io/net/uring/uring_tls_event_loop.h:171-181 | in every run, after the end of the stream: something that may follow closes the connection exactly when the operation that ended was not the only one |
| TlsEpochs.EarlierHistory | lib/hope-io/net/uring/uring_tls_event_loop.h:151-208 | in every run: the operations that were outstanding when a descriptor was last accepted have completed since or are still outstanding, one by one, and nothing else is from before |
| TlsEpochs.OwnIff | lib/hope-io/net/uring/uring_tls_event_loop.h:284-332 | every outstanding operation of a descriptor is its connection's own exactly when all that were outstanding at its accept have completed |
| TlsEpochs.EarlierEndsIff | lib/hope-io/net/uring/uring_tls_event_loop.h:161-164 | in every run: a failed operation of an earlier connection may end an open one exactly when not all that were outstanding at its accept have completed |
| TlsEpochs.CleanRuns | lib/hope-io/net/uring/uring_tls_event_loop.h:151-208 | on runs whose accepts return only descriptors with nothing outstanding, no operation completes for a connection that did not submit it, and no null buffer is used |
| TlsKtls.TakenIff | lib/hope-io/net/uring/uring_tls_event_loop.h:171-181 | bytes of a KTLS receive reach on_read exactly when the connection is established and op says receive; otherwise the completion changes nothing |
| TlsKtls.CleanStarts | lib/hope-io/net/uring/uring_tls_event_loop.h:312-318 | if accept only returns descriptors with nothing outstanding, every KTLS connection starts with nothing outstanding |
| TlsKtls.AtMostOneIff | lib/hope-io/net/uring/uring_tls_event_loop.h:312-318 | whatever follows up to the next accept of its descriptor, a KTLS connection that starts with nothing outstanding has at most one operation outstanding exactly when its first two answers did not submit two |
| TlsKtls.LossIff | lib/hope-io/net/uring/uring_tls_event_loop.h:171-181 | something that may follow loses received bytes of it exactly when these answers submitted two operations, or on_read answered die while one was outstanding |
| TlsKtls.StrandIff | lib/hope-io/net/uring/uring_tls_event_loop.h:546-563 | something that may follow pools a buffer that the kernel still holds for it exactly in the same two cases |
| TlsFailures.FaultIsReachable | lib/hope-io/net/uring/uring_tls_event_loop.h:352-363 | from every fresh loop, on every descriptor, five steps lead to the null buffer: accepted and reading, the read failed, accepted again, the handshake failed, and a poll from before |
| TlsFailures.StrayIsReachable | lib/hope-io/net/uring/uring_tls_event_loop.h:161-164 | from every fresh loop, on every descriptor, three steps lead to a descriptor closed twice: accepted with two polls, one read fails, the other poll is reset |
| TlsFailures.SuccessorIsClosed | lib/hope-io/net/uring/uring_tls_event_loop.h:161-164 | from every fresh loop, on every descriptor, four steps lead to a connection that is closed by the completion of an operation submitted before its accept |
| TlsFailures.LeakIsReachable | lib/hope-io/net/uring/uring_tls_event_loop.h:430-479 | from every fresh loop, on every descriptor, with KTLS or without, nothing but ends of the stream leads to an open connection with nothing outstanding |
| TlsFailures.KtlsCanStart | lib/hope-io/net/uring/uring_tls_event_loop.h:284-332 | from every fresh loop, on every descriptor, a KTLS connection may start with any outcome of on_connect and the first read |
| TlsFailures.TwoReceives | lib/hope-io/net/uring/uring_tls_event_loop.h:312-318 | from every fresh loop, on every descriptor, one whose first read finds bytes starts with two receives outstanding |
| SslLoops.ReadFromMeans | lib/hope-io/net/uring/uring_tls_event_loop.h:443-465 | the read loop offer by offer, whatever SSL_read answers: an error exactly if a call failed, data exactly if one moved some, the end with no room or after an answer that moved nothing, and a wait exactly if that answer was one |
| SslLoops.WriteFromOldest | lib/hope-io/net/uring/uring_tls_event_loop.h:514-530 | the write loop offer by offer, whatever SSL_write answers: some bytes are lost exactly if a call failed, otherwise SSL_write took the oldest ones in order, and it ends with no bytes left or waiting, never both |
| TlsTransfer.ReadMeans | lib/hope-io/net/uring/uring_tls_event_loop.h:443-465 | over the ring: the queue grows by exactly the bytes the peer sent next, with these flags, and the loop ends with the buffer full or after an answer that moved nothing |
| TlsTransfer.ReadAll | lib/hope-io/net/uring/uring_tls_event_loop.h:443-465 | the loop over consume_free leaves the object, the flags and the number of calls exactly as the offers say |
| TlsTransfer.ReadsNothing | lib/hope-io/net/uring/uring_tls_event_loop.h:468-478 | a read attempt finds nothing, no error and no reason to wait exactly when the buffer was full or the first answer is the end of the stream |
| TlsTransfer.WriteMeans | lib/hope-io/net/uring/uring_tls_event_loop.h:514-530 | over the ring: the oldest bytes leave the queue, SSL_write took exactly these unless a call failed, and the buffer is empty exactly if the handler does not wait |
| TlsTransfer.WriteAll | lib/hope-io/net/uring/uring_tls_event_loop.h:514-530 | the loop over consume_used leaves the object, the flags and the bytes that SSL_write took exactly as the offers say |
| TlsMachineRuns.StepSound | lib/hope-io/net/uring/uring_tls_event_loop.h:132-218 | whatever accept, the kernel and the callbacks do, every buffer keeps its size and every pooled one is empty |
| TlsMachineRuns.RunIs | lib/hope-io/net/uring/uring_tls_event_loop.h:132-218 | every run with buffers and callbacks is a run of the lifecycle, so all that is proved of those holds of it |
| TlsRegions.StepElsewhere | lib/hope-io/net/uring/uring_tls_event_loop.h:151-208 | a step about one descriptor leaves every other connection's record, outstanding operations and buffer as they are, whatever the callbacks do |
| TlsRegions.LentFits | lib/hope-io/net/uring/uring_tls_event_loop.h:399-427 | in every run, as long as no input is about a connection, the region it lent is the region a completion is taken over from, so a completion within it fits the buffer |
| TlsCallbacks.AtMostOneWhen | lib/hope-io/net/uring/uring_tls_event_loop.h:312-318 | whatever the peer, the kernel and the callbacks do until the next accept of its descriptor, a KTLS connection has at most one operation outstanding exactly unless on_connect asked to read and left bytes without filling the buffer and on_read submitted something too |
| TlsCallbacks.LossWhen | lib/hope-io/net/uring/uring_tls_event_loop.h:430-441 | received bytes may be lost exactly then, or if on_read answered die on such bytes |
| TlsCallbacks.StrandWhen | lib/hope-io/net/uring/uring_tls_event_loop.h:546-563 | a buffer that the kernel holds may be pooled exactly in the same two cases |
| TlsCallbacks.SameMemory | lib/hope-io/net/uring/uring_tls_event_loop.h:399-412 | if on_read only takes bytes and asks to read, both receives are lent memory from the same offset on |
| TlsCallbacks.ChattyStarts | lib/hope-io/net/uring/uring_tls_event_loop.h:284-332 | from every initial state such a connection is one accept away, on every descriptor |
| TlsAnswers.AcceptAnswered | lib/hope-io/net/uring/uring_tls_event_loop.h:284-332 | every accept: a failed handshake is freed and closed; one that wants input is pending and polled; a completed one has an empty buffer, the pool's last or a new one, on_connect is called on it, its answer is the state and is waited for, and the first read follows |
| TlsAnswers.TableGrows | lib/hope-io/net/uring/uring_tls_event_loop.h:302-304 | the same for the TLS loop's table, whatever the handshake answers |
| TlsAnswers.CompletionAnswered | lib/hope-io/net/uring/uring_tls_event_loop.h:151-208 | every completion: a failed one closes; a pending handshake is retried; otherwise the handler of the operation that op names serves it and no other does: the bytes each callback finds, those the buffer holds afterwards, the record, the calls and exactly what is outstanding, for received and sent bytes of KTLS, for SSL_read and SSL_write, and for a socket that has to be waited for |
| TlsAnswers.AnswerIsWaitedFor | lib/hope-io/net/uring/uring_tls_event_loop.h:261-282 | whatever completion a callback of a live connection ran in: its answer is the state; after read a poll for input, or under KTLS a receive unless the buffer is full, is the newest operation and op names it; after write a poll for output, or under KTLS a send unless the buffer is empty or full; if an entry was free |
| TlsAnswers.RunAnswered | lib/hope-io/net/uring/uring_tls_event_loop.h:132-218 | every step of every run is one of these accepts and completions |
| TlsFlow.StepFlows | lib/hope-io/net/uring/uring_tls_event_loop.h:151-208 | in every step that leaves a connection alive, with any callbacks, with KTLS or without: the bytes held and those that came from the kernel, SSL_read or the callback are those that went to the kernel, SSL_write or the callback and those held then, in order |
| TlsFlow.RunFlows | lib/hope-io/net/uring/uring_tls_event_loop.h:132-218 | conservation over every run, for as long as the connection lives and whatever happens to others |
| UringTlsLoop.UringTlsEventLoop.constructor | lib/hope-io/net/uring/uring_tls_event_loop.h:126-130 | the object starts in an initial state of the machine, with the pool filled and the table sized |
| UringTlsLoop.UringTlsEventLoop.RegisterConnection | lib/hope-io/net/uring/uring_tls_event_loop.h:367-376 | the record gets the pool's last buffer or a new one, which no record and no pool has, and keeps a handle it has; no other buffer changes |
| UringTlsLoop.UringTlsEventLoop.SubmitRecvKtls | lib/hope-io/net/uring/uring_tls_event_loop.h:399-412 | goes through exactly if an entry is free, there is a buffer and it is not full |
| UringTlsLoop.UringTlsEventLoop.SubmitSendKtls | lib/hope-io/net/uring/uring_tls_event_loop.h:414-427 | goes through exactly if an entry is free and the buffer is neither empty nor completely full |
| UringTlsLoop.UringTlsEventLoop.HandleRead | lib/hope-io/net/uring/uring_tls_event_loop.h:430-479 | the flags, the callback's answer, whether the next submission goes through and every buffer afterwards are exactly those of ReadEffect on the old buffer: an error pools the buffer emptied, data goes through on_read and its answer, a wait polls again, and a null buffer faults |
| UringTlsLoop.UringTlsEventLoop.HandleWrite | lib/hope-io/net/uring/uring_tls_event_loop.h:481-543 | the same for WriteEffect: an error goes through on_error, and is the end under KTLS whatever it answers, an empty buffer through on_write, and a wait polls again |
| UringTlsLoop.UringTlsEventLoop.KtlsReceived | lib/hope-io/net/uring/uring_tls_event_loop.h:171-181 | the tail advances by the bytes received, on_read runs on that buffer, and its answer is submitted or ends the connection, exactly as KtlsEffect says |
| UringTlsLoop.UringTlsEventLoop.KtlsSent | lib/hope-io/net/uring/uring_tls_event_loop.h:182-196 | the head advances by the bytes sent; on_write and its answer follow exactly when that was all, otherwise the rest is submitted if its region is not empty and an entry is free |
| UringTlsLoop.UringTlsEventLoop.RemoveConnection | lib/hope-io/net/uring/uring_tls_event_loop.h:546-563 | the handle is freed, the buffer goes back to the pool emptied, no other buffer changes, and the descriptor is closed, even if it was closed before |
| UringTlsLoop.UringTlsEventLoop.HandleAccept | lib/hope-io/net/uring/uring_tls_event_loop.h:284-332 | the whole object, records, pool and every buffer, makes exactly the machine's step for this descriptor, handle, handshake answer and submission entry, with on_connect's and on_read's uses of the buffer, and keeps the lifecycle invariant |
| UringTlsLoop.UringTlsEventLoop.RetryHandshake | lib/hope-io/net/uring/uring_tls_event_loop.h:334-365 | exactly the machine's retry step for this answer: registered and greeted with the handle it has, pending again, or freed and closed; and the buffers are those of ShakeEffect |
| UringTlsLoop.UringTlsEventLoop.Dispatch | lib/hope-io/net/uring/uring_tls_event_loop.h:171-208 | from the kind and the result alone, the handler that DispatchEffect names, on the old record and the old buffers |
| UringTlsLoop.UringTlsEventLoop.ProcessOne | lib/hope-io/net/uring/uring_tls_event_loop.h:151-208 | one completion entry: from its tag and result, this handshake answer and this callback, the whole object makes exactly the machine's step, keeps the lifecycle invariant, and faults exactly on the stale poll of StepInv |
| UringTlsLoop.UringTlsEventLoop.Cleanup | lib/hope-io/net/uring/uring_tls_event_loop.h:220-231 | the object after the loop is the machine's shutdown state |
| UringTlsLoop.UringTlsEventLoop.Destroy | lib/hope-io/net/uring/uring_tls_event_loop.h:52-64 | cleanup and destructor free every handle and delete every buffer ever made, each exactly once; no record has either, nothing is pending and the pool is empty |
| OrderBookModel.BidStepMeans | samples/order_book_ws.cpp:318-338 | one bid level on a sorted book adds to its price, inserts it or deletes it as the map says, touches no other price, and keeps the book strictly ascending |
| OrderBookModel.AskStepMeans | samples/order_book_ws.cpp:350-370 | the same for one ask level and a strictly descending book |
| OrderBookModel.BidFoldMeans | samples/order_book_ws.cpp:309-339 | a whole bid delta, in any order: the book stays sorted and its map is the old one with each level applied in turn |
| OrderBookModel.AskFoldMeans | samples/order_book_ws.cpp:342-371 | the same for a whole ask delta |
| OrderBookModel.AlgorithmsAgree | samples/order_book_ws.cpp:309-371 | on every sorted book, reversing and applying levels as asks is applying them as bids and reversing |
| OrderBookModel.BidFastPath | samples/order_book_ws.cpp:311-317 | the empty-book path gives the general path's book exactly when the levels are in bid order |
| OrderBookModel.AskFastPath | samples/order_book_ws.cpp:344-350 | the same for asks |
| OrderBookModel.BidsMean | samples/order_book_ws.cpp:282-304 | exactly when a message, snapshot or delta, leaves the bids sorted with the quantities it means |
| OrderBookModel.AsksMean | samples/order_book_ws.cpp:282-304 | the same for the asks |
| OrderBookModel.RunMeans | samples/order_book_ws.cpp:282-372 | over every run of fitting messages both sides are sorted, no price occurs twice, and the quantities are those of two plain maps |
| OrderBookModel.StrictOrderFits | samples/order_book_ws.cpp:308-341 | messages ordered as the comments say always fit |
| OrderBookLaws.DeltasHold | samples/order_book_ws.cpp:309-372 | over every run of fitting deltas, at every price that none of them deletes each side holds the quantity it held before and those of all the deltas, added up, and a price it has neither held nor been given is not there |
| OrderBookLaws.SnapshotHolds | samples/order_book_ws.cpp:282-305 | after any run, the same counted from the last snapshot on, whatever came before it |
| OrderBookLaws.DeletionForgets | samples/order_book_ws.cpp:326-330 | at a price that was deleted only the levels after the deletion count |
| Levels.AscendingUnique | samples/order_book_ws.cpp:374-377 | a sorted side is determined by its quantities |
| Levels.ReverseQuantities | samples/order_book_ws.cpp:287-300 | copying a snapshot backwards keeps its quantities |
| OrderBook.OrderBook.ApplyBids | samples/order_book_ws.cpp:309-339 | the vector after a delta is the fast path's on an empty side and the fold of steps otherwise |
| OrderBook.OrderBook.ApplyBid | samples/order_book_ws.cpp:318-337 | the scan from the best bid down with its in-place insert, erase or add makes exactly the step that BidStepMeans is about, on every vector, sorted or not |
| OrderBook.OrderBook.ApplyAsks | samples/order_book_ws.cpp:342-371 | the same for asks |
| OrderBook.OrderBook.ApplyAsk | samples/order_book_ws.cpp:351-369 | the two scans from the front make exactly the step that AskStepMeans is about, on every vector |
| OrderBook.OrderBook.ApplyMessage | samples/order_book_ws.cpp:282-305 | a snapshot replaces both sides, a delta goes to each side it has levels for |
| OrderBook.OrderBook.Replay | samples/order_book_ws.cpp:282-372 | after a run of fitting messages the object's sides are sorted and hold the quantities of the plain maps |
| WebSocketModel.RoundTrip | samples/order_book_ws.cpp:64-136 | for every opcode, mask or none, payload and suffix: reading a frame gives the opcode's four bits and the payload and leaves exactly the suffix |
| WebSocketModel.ClientRoundTrip | samples/order_book_ws.cpp:64-136 | the client's own frame comes back exactly when the opcode is below 16 |
| WebSocketModel.LengthBack | samples/order_book_ws.cpp:70-84 | each of the three length forms is read back as the length it was written from, with its mask bit |
| WebSocketModel.ShortestForm | samples/order_book_ws.cpp:70-84 | no accepted bytes with that payload length and masking are fewer than the frame written |
| WebSocketModel.MaskTwice | samples/order_book_ws.cpp:97-98 | masking twice gives the payload back |
| WebSocketModel.FitsStaging | samples/order_book_ws.cpp:93-98 | a frame fits the staging buffer exactly when its payload has at most 2040 bytes |
| WebSocketFrames.ReadsFrames | samples/order_book_ws.cpp:103-136 | for any bytes whatever: the reader gives an opcode, a payload and a rest exactly when the bytes are a frame with these, laid out as the standard says in any of the length forms, followed by the rest |
| WebSocketFrames.WritesFrame | samples/order_book_ws.cpp:64-101 | the writer's bytes are such a frame, final, with the mask given and the shortest of the length forms |
| WebSocketFrames.StandardFrames | samples/order_book_ws.cpp:64-101 | the examples of section 5.7 of RFC 6455 |
| Bits.BitByBit | samples/order_book_ws.cpp:97-98 | bit by bit, the exclusive OR that masks payloads, and the AND and OR of headers and tags, are the operators of the machine |
| WebSocket.FillHeader | samples/order_book_ws.cpp:65-84 | the shifts and ORs into the ten header bytes give the header, for every length below 2^64 |
| WebSocket.SendFrame | samples/order_book_ws.cpp:64-101 | when it fits: exactly the frame's bytes go out through one write, or a prefix if the write fails |
| WebSocket.ReadLength | samples/order_book_ws.cpp:112-122 | the two-byte form and the shift-and-or loop over eight bytes, which never overflows, give the length |
| WebSocket.ReadFrame | samples/order_book_ws.cpp:103-136 | for every fragmentation the frame returned and the bytes left are those the input says, and it fails only when there is no whole frame or answers stop moving bytes |
| Base64.RoundTrip | samples/order_book_ws.cpp:34-47 | the standard's decoder gives back every byte string |
| Base64.OnlyText | samples/order_book_ws.cpp:34-47 | the encoding is the only text that decodes to the data |
| Base64.LengthAndPadding | samples/order_book_ws.cpp:34-47 | four characters for every three bytes begun, and equals signs at the very end and nowhere else, one for each missing byte |
| Base64.AlphabetIsStandard | samples/order_book_ws.cpp:31-32 | the 64 characters, written out, are those of the standard's table in order, and none is the padding |
| Base64.BitsInOrder | samples/order_book_ws.cpp:36-45 | every character but the padding is the alphabet's for the next six bits of the data, the highest bit of the first byte first |
| Base64.ShortExamples | samples/order_book_ws.cpp:34-47 | the examples of section 10 of RFC 4648 up to three bytes, and the last two characters of the alphabet |
| Base64.LongExamples | samples/order_book_ws.cpp:34-47 | its examples of four to six bytes |
| Base64.EncodeLoop | samples/order_book_ws.cpp:34-47 | the shift, mask and table loop computes the encoding |
| StreamModel.SendingReach | lib/hope-io/net/nix/tcp_stream.cpp:76-83 | a plain write gets exactly as far as the answers reach, short ones and zeros included |
| StreamModel.SendingFinishes | lib/hope-io/net/tls/tcp_tls_stream.cpp:55-78 | on every kind of stream, n answers that each move something finish n bytes and no more answers are used |
| StreamModel.ReceivingFinishes | lib/hope-io/net/nix/tcp_stream.cpp:105-114 | the same for the read loops, when the bytes arrive |
| StreamModel.SslWriteIsBelow2G | lib/hope-io/net/tls/tcp_tls_stream.cpp:70-77 | with the length cast to int, a write of 2^31 bytes or more never finishes, whatever the library answers |
| StreamModel.PiecesExact | lib/hope-io/net/nix/tcp_stream.cpp:96-103 | the resumed pieces are exactly the bytes a short gathering call left, in order, and none of them is empty |
| StreamModel.ScatterExact | lib/hope-io/net/nix/tcp_stream.cpp:84-104 | a scatter write sends at most its buffers' bytes, and succeeds exactly when it has sent all of them |
| StreamModel.ScatterFinishes | lib/hope-io/net/nix/tcp_stream.cpp:84-104 | it finishes for any short first result and any short resumed ones |
| StreamModel.WritingAllExact | lib/hope-io/net/tls/tcp_tls_stream.cpp:80-119 | the scatter path and the gather path both send a prefix of the buffers' bytes, all of them on success |
| StreamReach.SendingExact | lib/hope-io/net/tls/tcp_tls_stream.cpp:55-78 | in every mode and for all answers: a write gets exactly as far as the answers before the first that ends it can move, and succeeds exactly when that is its whole length and, through the TLS library, the length is below 2^31 |
| StreamReach.ReceivingExact | lib/hope-io/net/tls/tcp_tls_stream.cpp:121-151 | the same for reads, as far as bytes arrive |
| StreamReach.AgainsPassOver | lib/hope-io/net/tls/tcp_tls_stream.cpp:247-252 | through the TLS library any number of requests to try again changes nothing |
| StreamReach.SendingServed | lib/hope-io/net/nix/tcp_stream.cpp:76-83 | a plain or kernel TLS write succeeds and uses up exactly n answers exactly when these n, and no fewer, move its bytes |
| StreamReach.WritingAllIff | lib/hope-io/net/tls/tcp_tls_stream.cpp:80-119 | exactly when write_v succeeds, in every mode: nothing is to do; through the TLS library the answers reach the end and the length is below 2^31; otherwise the first answer moves some bytes, be it none, and the next ones serve the remaining pieces one after another |
| StreamModel.FrameReturns | lib/hope-io/net/stream.h:102-115 | exactly when a string comes back and the stream is left at the next one: it fits sixteen bits, and it is not empty unless the target is |
| StreamModel.FrameLayout | lib/hope-io/net/stream.h:111-115 | a string on the wire is its length modulo 2^16 in two bytes, the low one first, and then its bytes |
| StreamModel.FrameGives | lib/hope-io/net/stream.h:102-115 | what comes back of any string, however long: as many of its first bytes as the two say, the others staying in the stream, or the variable as it was |
| StreamModel.ReadsShort | lib/hope-io/net/stream.h:102-109 | reading comes up short exactly when the length or as many bytes as it says are not there |
| StreamModel.FramesReturn | lib/hope-io/net/stream.h:102-115 | every list of strings that fit comes back, and what follows is left exactly |
| Streams.Stream.Write | lib/hope-io/net/nix/tcp_stream.cpp:76-83 | the loop sends exactly the prefix the answers reach and fails exactly when that is not all |
| Streams.Stream.Read | lib/hope-io/net/nix/tcp_stream.cpp:105-114 | the loop fills the caller's memory with exactly the bytes that arrived and takes no more from the stream |
| Streams.Stream.Resume | lib/hope-io/net/nix/tcp_stream.cpp:96-103 | the loop over buffers sends the pieces left, never with an empty request |
| Streams.Stream.WriteScattered | lib/hope-io/net/nix/tcp_stream.cpp:84-104 | one gathering call and the resume loop, for at most 1024 buffers, empty ones included |
| Streams.Stream.WriteV | lib/hope-io/net/tls/tcp_tls_stream.cpp:80-119 | on success every kind of stream has sent the concatenation of the buffers |
| Streams.Stream.WriteString | lib/hope-io/net/stream.h:111-115 | a prefix of the framed string goes out, all of it exactly on success |
| Streams.Stream.ReadString | lib/hope-io/net/stream.h:102-109 | for every fragmentation: the value and the bytes left are those the input says |
| Streams.Exchange | lib/hope-io/net/stream.h:102-115 | end to end over two sockets with arbitrary positive short results: the strings written are the strings read and exactly the suffix is left |

## Left out

- Socket creation, bind, listen, fcntl, socket options, certificates, OpenSSL internals, KTLS key setup, the timing of `stop` and the waiting of `wait_cqe_timeout`: foreign calls, of which only results remain as inputs of steps.
- The epoll and kqueue loops: their error paths remove the connection from inside the `consume_*` closure and go on using the buffer, so the ownership invariant of the io_uring loop is not kept there.
- An exhausted submission queue in `rearm_accept`: the C++ asserts there, so a run ends.
- Kernel misbehaviour in the TCP loop: accept is assumed to return a descriptor that is not open, below 2^31, and whose receive tag is not the accept tag; a completion is assumed not to exceed its request.
- Batching of submissions: prepared operations reach the kernel one by one in any order, which includes every batch.
- Closures passed to `consume_*`: functions of the bytes moved so far and of the region offered, so a closure with other captured state appears as the function it computes. Read and write copy bytes; data pointers are not modelled.
- Allocation failure, vector growth and iterator validity: tables and books are sequences and indices, and the test that follows the scan in `apply_bids` (line 334) is the code that follows the loop when the scan falls through.
- TlsSafety.StepInv: accept is assumed to return a descriptor that is not open, and an operation to complete at most once. That a completion can belong to an earlier connection of the same descriptor is modelled; that the kernel might reuse a descriptor the loop closed twice for something outside the loop is only counted (`stray`).
- TlsModel: handles and buffers are pointers there and what a read or write found is an input of the step; `TlsMachine` computes it from the buffer. Of a lent region only the buffer is kept with the operation (`SameMemory` says where two regions coincide). A run ends when a null buffer is used.
- UringTlsLoop.UringTlsEventLoop.ProcessOne: a KTLS completion is assumed to move no more than the buffer has room for or holds (`Fits`). The code does not check it. It follows if the kernel keeps within the region it was lent and nothing was about the connection since (`LentFits`); two receives on one buffer (`ChattyStarts`) can break it. The bytes the kernel stores for a KTLS receive are whatever the memory holds then.
- TlsKtls.AtMostOneIff: for a connection that starts with nothing outstanding for its descriptor; `CleanStarts` says when all do, and operations left by an earlier connection are the subject of `TlsEpochs`.
- TlsTransfer.ReadAll: a call that moves bytes moves at least one, as the library promises, and a chunk's size, at most 512 KiB, fits the library's int.
- OrderBookModel.BidFoldMeans: prices and quantities are exact numbers, so the rounding of doubles and NaN are not modelled.
- WebSocket.SendFrame: needs the frame to fit the 2048-byte staging array, as the code does without saying so; larger frames are covered by the pure encoder only. The random masking key is a parameter.
- WebSocket.ReadFrame: an allocation of the payload that fails is not modelled, and the FIN and reserved bits are ignored as in the code.
- Streams.Stream.Write: the answers of the kernel are a finite list; when it is used up the call fails, so a plain send that returns 0 for ever is not modelled. The plain, KTLS and TLS-library loops are one method with a mode, since they differ only in what a call may answer.
- Streams.Stream.WriteString: on a TLS stream the string must not be empty, because the TLS write asserts a positive length.
- `read_once` of the streams: one call, whose result is the kernel's answer or 0.
- UDP, acceptors and the Windows code: each function is one socket call and its error check, and they keep no state between calls. Benchmarks and the standalone io_uring samples are programs, not library code.
- The JSON key scan and `strtod` of the order-book sample (lines 174-262): the model starts from parsed levels, with exact numbers for doubles. HTTP requests, URLs and printing in the samples: text for a server or a terminal, of which the modelled code uses nothing.
