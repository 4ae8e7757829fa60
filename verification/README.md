# connaxis, verified

A Dafny model of the connaxis event-loop runtime, with proofs about what its hand-written
state machines and buffers promise: no lost wake-up, output in the order of submission,
packet delivery that does not depend on how the input is cut into reads, and WebSocket and
TLS parsing that is exact. `dafny verify dfyconfig.toml` checks everything.

Each module follows one part of the runtime.

- `WakeUp`: the concurrent protocol between producers and a loop (channels, the `triggered`
  flag, the eventfd, budgets, stop), as a state machine over its atomic steps. Safety over
  every run, and progress of the loop once the producers are quiet.
- `Pool`, `WriteQueue`, `RingBuffer`: the size-classed allocator, the write queue and the ring
  buffer, as classes over arrays. The queue and the ring refine byte sequences through
  coalescing, compaction, wrap-around and growth; the queue accounts for every buffer.
- `Outbound`, `AsyncTls`: one connection's output on top of them, plain and through a TLS
  engine, for every run of handler output, data commands and flushes. `Drain` says how much
  one drain may move.
- `Inbound`, `ReadLoop`: what a run of reads hands over of a stream, for every prefix-stable
  packet parser and every way the stream arrives, and the read loop on the shared and the
  private buffer.
- `EventLoop`: the loop with all its connections: descriptor table, write interest, close on
  drain, command flush set, idle list. Its methods are proved against the operations on the
  loop's state in `LoopState`, whose one invariant carries conservation of output, write
  interest and the order of the idle list (`IdleList`). What connections are asked to send
  follows from a `Journal` of what happened; `Events` says what every event promises about the
  state of the loop and what follows for whole runs, `Service` what is owed to connections whose
  sockets work.
  `CloseOnDrain` is about connections that wait to be closed, `SimpleId` about connection IDs.
  At this level a connection's queue is the byte sequence that `WriteQueue` implements.
- `Cipher`, `Utf8`, `Frame`, `Message`, `WsClient`: WebSocket unmasking, UTF-8, headers, the
  reassembly rules (sections 5.2 to 5.5, 7.4 and 8.1 of RFC 6455, section 4 of RFC 3629), and
  the client object, which is proved against the rules for every run of packets. The client
  keeps no note of having closed; the rules say what it does up to the first close and behind it.
  `Conversation` puts the read loop, the frame parser and the client together; the client's
  close is what the read loop is asked for.
- `RecordParser`, `ClientHello`: the streaming TLS record parser (sections 6.1 and 6.2.1 of
  RFC 5246) and the strict ClientHello precheck (section 4.1.2 of RFC 8446). `Transcript` says
  what the parser learns from a handshake that is put together from messages and records.
- `HandshakePool`: the worker pool for TLS handshakes, as a state machine, with its critical
  sections as methods.
- `Sniffer`: the first-bytes decision between HTTP and raw TCP.
- `Bytes`: bytes and lists of byte strings.

Main results: `WakeUp.NoLostWakeUp` and `WakeUp.QuietLoopDrains`; `EventLoop.LoopConn.Run`
with `Events.RunSubmits` and `Events.RunKeepsMarks`; `Outbound.PlainConn.Run` and
`AsyncTls.TlsConn.Run`; `ReadLoop.Reader.Serve` with `Inbound.ChunkingIndependent`,
`Inbound.OneParseExactly` and `Inbound.OneParseUpToWish`; `Drain.TotalsExactly` with
`Outbound.PlainConn.DrainWrite`; `CloseOnDrain.FlushMayBreakExactly`;
`Message.RunReassembles`, `Message.RunClosesExactly` and `Message.RunningCheckIsExact`;
`WsClient.EveryFrameIsAnswered`; `Frame.StreamRoundTrip` and `Conversation.Converse`;
`Cipher.Cipher`; `RecordParser.FeedAll` with `Transcript.HandshakeIsLearned`;
`ClientHello.AdmittedByItsExtensions`, `ClientHello.OnlyHellosPass` and
`ClientHello.PrecheckThenRead`; `HandshakePool.RefusedExactly`; `Sniffer.Sniff` with
`Sniffer.DecisionStands`.

Sockets and peers follow scripts, over which every result ranges: a write takes any prefix,
blocks or fails; a read returns any part of what has arrived, blocks, ends or fails. The clock
moves forward by any amount. Handlers return any output and may ask for the connection to be
closed.

Where the code does less than one might expect, there is an input that shows it and a theorem
that says exactly when it does not matter:

- `drainWrite` passes its whole budget to every flush (eventloop/loopConn.go:116-133), so one
  call may move nearly twice the budget: `Drain.MovesMoreThanItsBudget`,
  `Drain.TotalsExactly`, `Drain.KeepsToBudgetExactly`. A queue of many small entries may not
  get that far, since a flush offers 64 entries at most: `Drain.SlicesLimitIt`.
- A connection marked to close once drained is closed by `processSend`. The drain of the
  command flush loop (eventloop/loopConn.go:801) and that of a read event
  (eventloop/loopConn.go:628) can empty it and leave it open: `CloseOnDrain.FlushForgetsIt`,
  `CloseOnDrain.ReadForgetsIt`, `CloseOnDrain.FlushMayBreakExactly`,
  `CloseOnDrain.ReadMayBreakExactly`. Every other event keeps output pending on marked
  connections (`EventLoop.LoopConn.Dispatch`): a wake-up does unless a marked connection, or a
  new one whose handler asks for a close at once, waits for a flush or is sent data, and a
  ready event does unless it reads from a marked connection.
- A connection that waits to be closed may be read from again, with a stale leftover in its
  buffer when the round that asked for the close did not use up its input
  (eventloop/loopConn.go:599-606): `Inbound.StaleLeftover`,
  `Inbound.OneParseExactly`. Up to the wish to close everything is right, however the input is
  cut: `Inbound.OneParseUpToWish`.
- A close command goes by the descriptor alone; only data commands check the connection's ID
  (eventloop/loopConn.go:852-888): `LoopState.CloseHitsAnother`,
  `LoopState.CloseHitsWhomItNamesExactly`.
- `parseFrame` accepts payload lengths that are not minimally encoded, against section 5.2 of
  RFC 6455, and `int(length)+headerSize` can wrap when no frame limit is set
  (websocket/frame.go:43-63): `Frame.AcceptsLongForm`, `Frame.ReprintedExactly`,
  `Frame.SizeWraps`, `Frame.SizeIsRightExactly`.
- `RingBuffer.Write` copies all of its slice, whatever length is given
  (ringbuffer/ringbuffer.go:97-105): `RingBuffer.WritesRightExactly`.
- `buildSimpleID` mixes the bits of large descriptors and loop indices
  (eventloop/loopUtil.go:13-15): `SimpleId.LargeDescriptorCollides`,
  `SimpleId.LargeLoopCollides`, `SimpleId.UniqueExactly`.

The growth path of the read loop gives the old buffer back to the pool before it copies from
it (eventloop/loopConn.go:618-619). The content is proved right; that nobody else reuses the
buffer in between is outside the model.

## Model

| member | source | states |
|---|---|---|
| `WakeUp.NextKeepsInv` | internal/poll_linux.go:84-152 | every atomic step of producers, closer and loop keeps the invariant: a raised flag is owned by someone who will act, all work is announced, a stop request is announced |
| `WakeUp.RunKeepsInv` | eventloop/loopConn.go:735-836 | the invariant holds in every state of every run, for any number of producers, any interleaving and any budgets |
| `WakeUp.NoLostWakeUp` | eventloop/loopConn.go:829-834 | in every run, a loop blocked in wait with work queued has a pending eventfd or a producer still inside its call; a stop is never lost, and the loop stops only if asked to; the eventfd read never blocks |
| `WakeUp.SoloStepProgress` | eventloop/loopConn.go:744-827 | while no producer is inside a call, every step of the loop keeps that so and lowers a measure |
| `WakeUp.QuietLoopDrains` | eventloop/loopConn.go:735-836 | from any such state the loop alone reaches rest with every channel and the flush set empty, however small the budgets; it has not stopped unless it was asked to, and it has if the call that asks for it is complete |
| `WakeUp.StuckMeansDrained` | eventloop/loopConn.go:735-836 | whatever the schedule, the loop alone cannot get stuck in any other state |
| `WakeUp.SoloRunsAreBounded` | internal/poll_linux.go:84-152 | no schedule of the loop alone goes on for ever: its length is bounded by the measure |
| `WakeUp.NothingLostInChannels` | eventloop/loopConn.go:744-787 | in every run, what producers have put into the channels has been handled by the loop or is still queued |
| `WakeUp.RunKeepsBudgets` | eventloop/loopConn.go:744-792 | in every state of every run each drain loop and the flush loop keep to their budgets |
| `WakeUp.PushFailsExactly` | eventloop/loopConn.go:685-695 | adding fails exactly on a full channel, and then changes nothing |
| `WakeUp.PushKeepsInv` | eventloop/loopConn.go:665-695 | pushing into a channel and leaving the announcement for later keeps the invariant |
| `WakeUp.ProducerCasKeepsInv` | eventloop/loopConn.go:697-699 | a producer that finds the flag raised may rely on whoever raised it |
| `Pool.PowerOfTwoTest` | pool/pool.go:59-59 | the bit test is true exactly of powers of two |
| `Pool.BufferPool.constructor` | pool/pool.go:58-73 | the allocator has exactly the size classes step, 2 step, 4 step and so on |
| `Pool.BufferPool.Get` | pool/pool.go:75-98 | a buffer of the least size class that holds the request, and none exactly if the request exceeds the largest class |
| `Pool.BufferPool.PowerInRangeIsClass` | pool/pool.go:80-96 | a power of two within range is a size class, so the short cut always finds its pool |
| `SimpleId.UniqueExactly` | eventloop/loopUtil.go:13-15 | IDs are unique over all sequence numbers and descriptors from 1 on and all loops if and only if descriptors and loop indices fit 16 bits |
| `SimpleId.LargeDescriptorCollides` | eventloop/loopConn.go:275-278 | the second and the third connection of a loop, both on descriptor 65536, share an ID |
| `SimpleId.LargeLoopCollides` | eventloop/loopConn.go:275-278 | the first connections of loops 0 and 65536, both on descriptor 1, share an ID |
| `WriteQueue.WriteQueue.Enqueue` | connection/writequeue.go:24-53 | the bytes are appended to the stream whether merged, moved or added as an entry, and the buffer is accounted for exactly once, queued or returned |
| `WriteQueue.WriteQueue.Coalesce` | connection/writequeue.go:30-49 | merging into the last entry, with or without compaction, appends exactly the new bytes; not merging changes nothing |
| `WriteQueue.WriteQueue.CompactTail` | connection/writequeue.go:35-40 | moving the last entry down in place keeps the stream |
| `WriteQueue.WriteQueue.Pending` | connection/writequeue.go:20-22 | the counter is the length of the stream |
| `WriteQueue.WriteQueue.Peek` | connection/writequeue.go:55-64 | a prefix of the stream, empty only if the stream is |
| `WriteQueue.WriteQueue.Consume` | connection/writequeue.go:66-101 | exactly the first min(n, pending) bytes go, from the front entries, and every buffer let go is returned exactly once |
| `WriteQueue.WriteQueue.Compact` | connection/writequeue.go:96-100 | dropping consumed entries keeps the stream and the buffers |
| `WriteQueue.WriteQueue.Clear` | connection/writequeue.go:103-112 | the stream is empty and every queued buffer is returned exactly once |
| `Outbound.Gather` | connection/flush.go:17-43 | the slices are a prefix of the queue, non-empty, within the byte and count limits, and as much as the first 64 entries and the byte limit allow |
| `Outbound.FlushWriteQueue` | connection/flush.go:9-59 | bytes on the wire followed by the queue never change, the count is what the wire gained, and what the socket takes of the offer is what leaves the entries |
| `Outbound.PlainConn.DrainWrite` | eventloop/loopConn.go:111-134 | the stream is unchanged; the flushes are a drain of the queue's entries, and every drain of them happens for a socket that takes just its amounts |
| `Outbound.PlainConn.EmitOutput` | eventloop/loopConn.go:136-167 | the output goes behind everything pending, and what the socket takes goes out at once if nothing is; it fails only if the descriptor is closed, the socket fails or no buffer is large enough, and then at most a prefix of it has gone out |
| `Outbound.PlainConn.Run` | eventloop/loopConn.go:111-167 | over every run, bytes on the wire followed by the queue are everything submitted, in order, under any partial writes and EAGAIN; at a failing step only part of its own data may be missing |
| `RingBuffer.AdvancePlace` | ringbuffer/ringbuffer.go:116-141 | moving a counter moves its place in the ring with wrap-around |
| `RingBuffer.StoredView` | ringbuffer/ringbuffer.go:80-113 | bytes stored behind the unread ones are read back after them, and the unread ones stay |
| `RingBuffer.WritesRightExactly` | ringbuffer/ringbuffer.go:97-105 | for given sizes, writing a slice with a smaller length is right for every content if and only if all that is copied fits the room |
| `RingBuffer.RingBuffer.Read` | ringbuffer/ringbuffer.go:46-77 | hands out the first bytes of the content across the wrap, and drops them if asked to |
| `RingBuffer.RingBuffer.Write` | ringbuffer/ringbuffer.go:80-113 | appends, growing when needed, if the slice is as long as the given length or what is copied of it fits the room; fails exactly for a length beyond the slice or beyond the allocator |
| `RingBuffer.RingBuffer.Forward` | ringbuffer/ringbuffer.go:116-141 | drops read bytes or takes over written ones, and refuses exactly what exceeds content or room |
| `RingBuffer.RingBuffer.Has` | ringbuffer/ringbuffer.go:149-154 | the length of the content |
| `RingBuffer.RingBuffer.Free` | ringbuffer/ringbuffer.go:157-162 | with the content, it makes up the capacity |
| `RingBuffer.RingBuffer.Reset` | ringbuffer/ringbuffer.go:165-174 | empties the buffer and returns its memory once |
| `RingBuffer.RingBuffer.Peek2` | ringbuffer/ringbuffer.go:178-194 | the two slices together are the content |
| `RingBuffer.RingBuffer.PeekWrite` | ringbuffer/ringbuffer.go:199-228 | a slice at the write place that overlaps no unread byte; empty exactly if nothing is asked for or the allocator cannot grow |
| `RingBuffer.RingBuffer.AlignBytes` | ringbuffer/ringbuffer.go:231-260 | the content, unchanged, from the start of the buffer |
| `RingBuffer.RingBuffer.Update` | ringbuffer/ringbuffer.go:263-272 | the given buffer replaces the old one, which is returned once |
| `RingBuffer.RingBuffer.Truncate` | ringbuffer/ringbuffer.go:275-280 | empty, in the same memory |
| `RingBuffer.RingBuffer.Resize` | ringbuffer/ringbuffer.go:282-313 | the content survives the move into a larger buffer; fails exactly beyond the allocator, and then changes nothing |
| `AsyncTls.TlsConn.PendingWrite` | connection/tlsconn.go:634-640 | queued plaintext and staged ciphertext |
| `AsyncTls.TlsConn.Stage` | connection/tlsconn.go:95-107 | a record is staged whole or not at all |
| `AsyncTls.TlsConn.FlushStaged` | connection/tlsconn.go:662-710 | staged ciphertext moves to the wire in order, within the limit |
| `AsyncTls.TlsConn.SealMore` | connection/tlsconn.go:712-736 | plaintext moves from the queue into records in order, and the queue shrinks |
| `AsyncTls.TlsConn.FlushN` | connection/tlsconn.go:642-738 | wire and staged bytes are the sealed records in order, all plaintext is conserved, the limit holds; unless the engine is broken a flush ends only with its limit used up, with nothing pending, or with a write that took nothing; it terminates by the measure of queue and staged bytes |
| `AsyncTls.TlsConn.DrainWrite` | eventloop/loopConn.go:111-134 | drains end on this connection too, conserve all plaintext, move less than twice the budget, and do not stop before budget, output or socket are exhausted |
| `AsyncTls.TlsConn.EmitOutput` | eventloop/loopConn.go:136-167 | output is sealed at once only when nothing at all is pending, and queued behind the rest otherwise |
| `AsyncTls.TlsConn.Run` | connection/tlsconn.go:634-738 | over every run, wire and staged bytes are the encoding of the records so far, and their plaintext followed by the queue is everything submitted, in order |
| `Inbound.ChunkingIndependent` | eventloop/loopConn.go:564-626 | parsing a stream in two parts, with the leftover carried over, gives the packets and the leftover of one parse |
| `Inbound.PacketsAndRest` | eventloop/loopConn.go:597-606 | packets and leftover make up the stream |
| `Inbound.BadIsFinal` | eventloop/loopConn.go:565-582 | behind a bad packet more input brings no packet |
| `Inbound.RestIsUndecided` | eventloop/loopConn.go:608-625 | the leftover holds no complete packet |
| `Inbound.PacketsByTheParser` | eventloop/loopConn.go:565-606 | every packet is one by the parser's answer where it begins, with its length and an expected size within the limit, and what is left over begins none |
| `Inbound.CutBack` | eventloop/loopConn.go:564-606 | packets put one behind the other are cut into themselves again, with nothing left over |
| `Inbound.OneParseExactly` | eventloop/loopConn.go:597-626 | a further turn keeps to one parse of the stream if and only if the handler did not ask for a close in it, or nothing was behind it but what had been left before |
| `Inbound.HarmlessRun` | eventloop/loopConn.go:497-663 | a run of such turns hands over the packets of one parse of the stream and keeps its rest |
| `Inbound.OneParseUpToWish` | eventloop/loopConn.go:563-640 | for every handler and every cut of the stream, a run of reads is one parse of it, or is right up to a packet at which the handler asked for a close |
| `Inbound.StaleLeftover` | eventloop/loopConn.go:599-606 | two-byte packets, reads 1, 2 3 4 with a close asked for at 1 2, then 5 6: the handler gets 1 5, and never 3 4 or 5 6 |
| `Inbound.SameLeftoverIsHarmless` | eventloop/loopConn.go:599-606 | input can be dropped without effect, when it equals what was left before |
| `ReadLoop.Reader.ChooseBuffer` | eventloop/loopConn.go:500-522 | the chosen buffer holds the leftover in front and always has room behind it; it fails exactly when the private buffer is full, has no less room than the shared one and cannot be doubled |
| `ReadLoop.Reader.Grow` | eventloop/loopConn.go:508-519 | doubling keeps the leftover and makes room |
| `ReadLoop.Reader.KeepLeftover` | eventloop/loopConn.go:608-624 | the private buffer holds exactly the leftover afterwards; fails only for a packet beyond the allocator |
| `ReadLoop.Reader.DeliverPackets` | eventloop/loopConn.go:563-626 | the packets in the buffer go to the handler in order, up to the first at which it asks for a close; what is behind them is kept if the parser asks for more of it within the limit, and reported if the parser refuses it or its size; a wish to close drops it and leaves the private buffer as it was unless nothing is left; the connection is given up only if an answer cannot be sent or no buffer can hold the packet |
| `ReadLoop.Reader.ReadRound` | eventloop/loopConn.go:499-626 | what is delivered, kept and received is what the turns so far say, with this one; what is read comes off the front of what has arrived, and something is read if something has; the round gives up exactly at the end of the stream, after a failed read or without room, and otherwise only if an answer cannot be sent or packets may exceed all buffers |
| `ReadLoop.Reader.ProcessRead` | eventloop/loopConn.go:497-663 | the same for a whole read event, also on a connection that waits to be closed; with neither short reads nor a budget it reads all that has arrived; it does not give up without a reason |
| `ReadLoop.Reader.Serve` | eventloop/loopConn.go:497-663 | over any number of read events, also after a wish to close: delivered packets and kept bytes are those of the turns, and those of one parse of everything received if every turn is harmless; in any case the packets are those of the stream up to one at which the handler asked for a close, all of them unless the connection fails, and a beginning of them if it does; the connection stays open without a reason to close it |
| `Journal.CommandLandsByItsId` | eventloop/loopConn.go:838-882 | wherever a data command was consumed: if the connection it names by descriptor and ID is live at the end and its ID had been given out, its bytes are in the stream of that connection behind all before them; it adds to no other stream, whoever holds the descriptor |
| `Journal.StreamGrows` | eventloop/loopConn.go:838-882 | what was submitted to a connection stays submitted, in order |
| `Journal.NothingForNewIds` | eventloop/loopConn.go:297-303 | nothing has been submitted under an ID that was not given out yet |
| `Journal.LiveStays` | eventloop/loopConn.go:412-474 | a connection that is live and was attached before some point was live, with the same ID, at that point |
| `Journal.FollowsThen` | eventloop/loopConn.go:735-836 | what two stretches of a run tell adds up: commands in order, answers by connection |
| `Journal.LiveAtHome` | eventloop/loopConn.go:412-474 | a live connection lives on the descriptor on which it was attached, so no two share an ID |
| `Journal.StretchAdds` | eventloop/loopConn.go:735-827 | in a stretch of answers followed by commands, the stream of a connection that is live at its end grows by exactly its answers and then the data of the commands that name it; that of any other by a beginning of that |
| `Drain.TotalsExactly` | eventloop/loopConn.go:111-134 | the totals of all possible drains are exactly those up to what is pending, below twice the budget, and within the reach of a last flush of 64 entries that begins within the budget |
| `Drain.EmptiesExactly` | connection/flush.go:17-43 | one drain can empty the queue if and only if there is no budget, or less than twice the budget is pending with at most 64 entries left behind the first budget - 1 bytes |
| `Drain.KeepsToBudgetExactly` | eventloop/loopConn.go:116-133 | a drain keeps to its budget whatever the socket accepts if and only if no more is pending, or the budget is one byte, whatever the entries |
| `Drain.MovesMoreThanItsBudget` | eventloop/loopConn.go:116-133 | three bytes go out on a budget of two |
| `Drain.SlicesLimitIt` | connection/flush.go:22-22 | of 199 one-byte entries one drain on a budget of 100 moves at most 163 |
| `LoopState.FlushKeepsSound` | eventloop/loopConn.go:111-134 | moving plaintext out of one queue keeps every stream conserved and everything else in order |
| `LoopState.EmitKeepsSound` | eventloop/loopConn.go:136-167 | so does output that is written, queued, or cut off by an error |
| `LoopState.CloseKeepsSound` | eventloop/loopConn.go:446-474 | removing one connection leaves everything in order, whatever was being done to it |
| `LoopState.InterestKeepsSound` | eventloop/loopConn.go:92-109 | telling the poller puts a connection that was worked on in order |
| `LoopState.StoreKeepsSound` | eventloop/loopConn.go:412-444 | a new connection with an unused ID starts with an empty, conserved stream |
| `LoopState.ConsumeKeepsSound` | eventloop/loopConn.go:838-892 | every command keeps everything in order |
| `LoopState.CommandsAreObeyed` | eventloop/loopConn.go:847-891 | a close takes the connection on its descriptor away; data that names a live connection goes behind its queue if that keeps within the limit of its kind, and else closes it; nothing else changes a connection |
| `LoopState.CloseHitsWhomItNamesExactly` | eventloop/loopConn.go:884-888 | a close command closes only the connection whose ID it carries if and only if that one still holds the descriptor |
| `LoopState.CloseHitsAnother` | eventloop/loopConn.go:884-888 | a run in which a close command that names a closed connection closes its successor on the descriptor |
| `CloseOnDrain.SendKeepsMarks` | eventloop/loopConn.go:476-489 | a write event keeps output pending on every marked connection, by closing a drained one |
| `CloseOnDrain.ConsumeKeepsMarks` | eventloop/loopConn.go:838-892 | so does every command |
| `CloseOnDrain.FlushKeepsMarksExactly` | eventloop/loopConn.go:801-826 | a flush does so if and only if it does not empty a marked connection that it leaves open |
| `CloseOnDrain.RoundKeepsMarksExactly` | eventloop/loopConn.go:628-661 | and so does the end of a round of reading, unless the handler asks for a close in it |
| `CloseOnDrain.EmptiedExactly` | eventloop/loopConn.go:111-134 | a connection without user-space TLS can be emptied by one drain if and only if budget and entries allow it |
| `CloseOnDrain.FlushMayBreakExactly` | eventloop/loopConn.go:789-827 | for a marked connection in the flush set, without user-space TLS, and its entries: some behaviour of the socket empties it and leaves it open if and only if budget and entries let one drain move all its output |
| `CloseOnDrain.ReadMayBreakExactly` | eventloop/loopConn.go:628-661 | the same for a read event on such a connection |
| `CloseOnDrain.FlushForgetsIt` | eventloop/loopConn.go:789-827 | a run in which a command flush leaves a marked connection drained, open and without any interest |
| `CloseOnDrain.ReadForgetsIt` | eventloop/loopConn.go:628-661 | a run in which a read event does |
| `EventLoop.LoopConn.constructor` | eventloop/loopConn.go:74-90 | an empty loop is in order |
| `EventLoop.LoopConn.UpdateWriteFd` | eventloop/loopConn.go:92-109 | afterwards write events are asked for exactly if output is pending, and everything is in order |
| `EventLoop.LoopConn.DrainWrite` | eventloop/loopConn.go:111-134 | plaintext leaves the front of the queue in order, nothing else changes, and less than twice the budget is moved; without user-space TLS it fails only if the socket does, and a socket that goes on taking gets everything or the budget |
| `EventLoop.LoopConn.EmitOutput` | eventloop/loopConn.go:136-167 | the handler's output is noted in the journal and joins the stream behind what is pending; with nothing pending, what the socket takes leaves at once; on an error at most a prefix of it has left |
| `EventLoop.LoopConn.CloseConn` | eventloop/loopConn.go:446-474 | the connection leaves every table and everything is in order, whatever was being done to it |
| `EventLoop.LoopConn.ProcessSend` | eventloop/loopConn.go:476-489 | closed exactly after an error or if marked and drained; otherwise write interest matches pending output; every marked connection has output pending again; output goes out as far as the socket takes it |
| `EventLoop.LoopConn.FinishRound` | eventloop/loopConn.go:628-661 | after the drain of a round the connection is open exactly if there was no error and either the handler wants to close and output is pending, or it does not and the pending output is within the limit; a new mark comes with pending output and a wish to close |
| `EventLoop.LoopConn.HandlePackets` | eventloop/loopConn.go:563-606 | the handler's answers are emitted and noted one by one, up to a bad packet, an error or a wish to close |
| `EventLoop.LoopConn.ReadRound` | eventloop/loopConn.go:499-662 | one round of reading notes what the handler says in it and goes on exactly if nothing stops it |
| `EventLoop.LoopConn.ProcessRead` | eventloop/loopConn.go:497-663 | keeps the invariant, touches no other connection, and notes exactly what the handler had to say, or a beginning of it if the connection is closed meanwhile, which takes a reason |
| `EventLoop.LoopConn.ConsumeCmd` | eventloop/loopConn.go:838-892 | the command is noted and obeyed: a close takes away the connection on its descriptor, data goes behind the queue of the connection it names by descriptor and ID, which then waits for a flush, or closes it over the limit of its kind; otherwise nothing changes |
| `EventLoop.LoopConn.FlushCommands` | eventloop/loopConn.go:789-827 | keeps the invariant in any order of flushing; it ends with an empty flush set or with its budget used up exactly; every connection that had its turn got its output out as far as its socket takes it and is open unless the socket failed or too much was pending; every marked connection keeps output pending if none was in the flush set |
| `EventLoop.LoopConn.FlushOne` | eventloop/loopConn.go:794-826 | one connection is drained and then closed exactly after an error or with too much pending, and registered otherwise |
| `EventLoop.LoopConn.Touch` | eventloop/loopConn.go:554-559 | input on a tracked connection moves it to the back of the idle list and keeps the list in order |
| `EventLoop.LoopConn.AttachClient` | eventloop/loopConn.go:378-444 | replaces a connection on the same descriptor, gives a new ID, tracks exactly accepted connections, leaves nothing behind on failure, and notes what the handler says to input drained at once |
| `EventLoop.LoopConn.Store` | eventloop/loopAccept.go:22-25 | the connection enters the table only within its range |
| `EventLoop.LoopConn.Sweep` | eventloop/loopConn.go:714-731 | stopping at the first fresh entry closes exactly the expired connections |
| `EventLoop.LoopConn.OnIdle` | eventloop/loopConn.go:704-733 | a scan that is due closes exactly the tracked connections idle for more than the limit, and no scan runs early |
| `EventLoop.LoopConn.Shutdown` | eventloop/loopConn.go:240-253 | no connection is left and everything is in order |
| `EventLoop.LoopConn.ProcessCmd` | eventloop/loopConn.go:735-827 | keeps the invariant through accepts, commands and flushes and does what a wake-up promises: the answers of new connections, then exactly its commands in order; no connection is left on the descriptor of a close command; it touches only new, named, waiting and, on an idle tick, watched connections; an idle tick that is due leaves no connection that was idle for more than the limit |
| `EventLoop.LoopConn.HandleReady` | eventloop/loopConn.go:349-367 | write, read and write again keep the invariant, note what the handler says, touch no other connection, and keep output pending on marked connections unless a marked one is read from; output goes out as far as the socket takes it, and the connection is closed only for a reason |
| `EventLoop.LoopConn.Dispatch` | eventloop/loopConn.go:339-375 | every event the poller reports keeps the invariant and its promise: the journal grows by exactly what the event brings, only the connections it concerns change, descriptors that are broken or named by a close command are free, what may be marked or wait afterwards is bounded, and marked connections keep output pending unless the event is risky for what is marked and waits before it; a due idle tick closes the idle ones; a ready connection gets its output out and is not closed without a reason |
| `EventLoop.LoopConn.Run` | eventloop/loopConn.go:332-376 | after every run of events: each kept its promise; their commands were consumed in order and no others; for each live connection, bytes gone followed by the queue are exactly what the events submitted to it; a closed one sent a beginning of that; pending output waits for a write event or a flush; no write interest without pending output; marked connections have output pending if, going by the events alone, none was risky |
| `Events.StepSubmits` | eventloop/loopConn.go:339-375 | an event adds to the stream of a connection that is live after it exactly the answers of its handler and then the data of the commands that name it |
| `Events.SaidExactly` | eventloop/loopConn.go:563-606 | every packet is answered, up to a bad one, or up to and with one at which the handler wants to close |
| `Events.SaidInExactly` | eventloop/loopConn.go:499-662 | a read event ends with the first round that fails or does not go on |
| `Events.ExpectedExactly` | eventloop/loopConn.go:378-410 | new connections get the next IDs in turn; those with user-space TLS, and kernel TLS with buffered plaintext, are read from at once |
| `Events.RunSubmits` | eventloop/loopConn.go:332-376 | over a whole run, the stream of a connection that is live at the end grew by exactly what the events submitted to it from its attachment on, in their order; that of any other by a beginning of that |
| `Events.CommandStands` | eventloop/loopConn.go:863-882 | the data of every command that comes after its ID was given out stands in what the run submits to the connection it names, behind everything before it |
| `Events.RunConsumes` | eventloop/loopConn.go:735-787 | a run consumes exactly the commands of its events, in order |
| `Events.RunKeepsMarks` | eventloop/loopConn.go:332-376 | what is marked or waits after a run is bounded by the events, and if none of them is risky for these bounds every marked connection has output pending |
| `EventLoop.SweepDone` | eventloop/loopConn.go:715-730 | at the first fresh entry, a connection has been closed if and only if it had expired |
| `IdleList.RemoveKeepsOrdered` | eventloop/loopConn.go:454-460 | list and map stay in bijection and the list sorted when an entry is removed |
| `IdleList.PushKeepsOrdered` | eventloop/loopConn.go:435-440 | and when one is added at the back with the present time |
| `IdleList.FreshFirstMeansAllFresh` | eventloop/loopConn.go:715-730 | in a list kept that way, nothing behind a fresh first entry has expired |
| `Cipher.Cipher` | websocket/cipher.go:16-54 | the word-wise loops equal byte-wise XOR with the mask byte at (offset + i) mod 4, on either byte order |
| `Cipher.MaskedTwice` | websocket/cipher.go:16-54 | masking is its own inverse |
| `Cipher.MaskedChunks` | websocket/cipher.go:16-54 | masking in chunks with running offsets equals masking at once |
| `Cipher.WordXor` | websocket/cipher.go:44-53 | XOR of a loaded word with the doubled mask word is byte-wise XOR, on either byte order |
| `Utf8.ValidExactly` | websocket/frame.go:275-279 | the table-driven check accepts exactly the encodings of scalar values of section 4 of RFC 3629 |
| `Utf8.ScanUtf8Prefix` | websocket/frame.go:82-100 | complete exactly for valid text, rejected exactly if no continuation can make it valid, and the checked part is valid |
| `Utf8.FullErrorIsHopeless` | websocket/frame.go:88-95 | a full rune that does not decode cannot be mended by more bytes |
| `Utf8.PartialIsNotHopeless` | websocket/frame.go:88-95 | an unfinished rune can be completed |
| `Frame.ParserIsPrefixStable` | websocket/frame.go:33-64 | frame parsing is a packet parser of the kind the read loop relies on |
| `Frame.DecisionsStand` | websocket/frame.go:33-64 | a decided length or error never changes with more bytes, and an incomplete answer asks for more than there is |
| `Frame.RefusedExactly` | websocket/frame.go:43-63 | a complete header is refused if and only if its length has the top bit set, exceeds the limit, or makes a size beyond 63 bits; otherwise header and payload are cut off as soon as they are there |
| `Frame.TooLargeIsRefused` | websocket/frame.go:54-56 | a printed frame over the limit is refused from its header on, whatever follows, and nothing is cut off |
| `Frame.WriteHeader` | websocket/frame.go:348-373 | writes exactly the header octets and nothing else |
| `Frame.BuildFrame` | websocket/frame.go:423-438 | header and payload, unless the size overflows |
| `Frame.HeaderRoundTrip` | websocket/frame.go:333-373 | a printed header is parsed back, whatever follows |
| `Frame.FrameRoundTrip` | websocket/frame.go:333-438 | a printed frame followed by anything is parsed as one frame of its own length with the same header and payload |
| `Frame.StrictPrefixIncomplete` | websocket/frame.go:33-64 | every strict prefix is incomplete and asks for more, never for too much |
| `Frame.StreamRoundTrip` | websocket/frame.go:33-64 | printed frames sent back to back are cut into exactly those frames |
| `Frame.ReprintedExactly` | websocket/frame.go:33-80 | printing a parsed header gives its octets back if and only if its length was minimally encoded |
| `Frame.AcceptsLongForm` | websocket/frame.go:43-63 | a length of 1 in two octets is accepted |
| `Frame.SizeIsRightExactly` | websocket/frame.go:54-63 | the size of a frame within the limit is right if and only if it fits 63 bits, and otherwise the frame is refused |
| `Frame.SizeWraps` | websocket/frame.go:54-63 | without a limit a length of 2^63 - 1 wraps |
| `Message.CloseReplyIsSendable` | websocket/frame.go:295-331 | the reply to any close payload is itself a valid close payload |
| `Message.RunKeepsSound` | websocket/frame.go:116-286 | in every run firstop is 0, 1 or 2, the buffer is empty whenever it is 0, and buffered and delivered sizes keep the limit |
| `Message.RunReassembles` | websocket/frame.go:166-286 | up to the first close, delivered messages are exactly the reassembly of section 5.4 of RFC 6455 of the data frames, with control frames interleaved without effect |
| `Message.RunClosesExactly` | websocket/frame.go:116-286 | a run closes exactly at the first frame that the rules and limits do not allow |
| `Message.RunIsUpToClose` | websocket/frame.go:116-286 | a run of the rules is what a client, which keeps no note of a close, does up to its first close |
| `Message.RunningCheckIsExact` | websocket/frame.go:205-243 | over every fragmentation of a text the final frame is accepted if and only if the whole is valid UTF-8, and an earlier fragment is refused if and only if nothing can follow that makes it valid |
| `WsClient.ClientBuf.Write` | websocket/wsclient.go:43-64 | appends, growing when needed and returning the old buffer once; refuses exactly beyond the allocator and then changes nothing |
| `WsClient.ClientBuf.Reset` | websocket/wsclient.go:77-82 | empty, and the buffer is returned once |
| `WsClient.ClientBuf.ValidateText` | websocket/frame.go:102-114 | checking only the new bytes decides about the whole buffer: valid at the end, not hopeless before |
| `WsClient.WsClient.ResetMessageState` | websocket/wsclient.go:25-35 | no message is under way and nothing is buffered |
| `WsClient.WsClient.TakeFragment` | websocket/frame.go:205-251 | the object does with a fragment what the reassembly rules say |
| `WsClient.EveryFrameIsAnswered` | websocket/frame.go:116-430 | the octets sent are one final unmasked frame or none: a pong with the payload of the ping, a close echoed or with 1002 for a bad code, the handler's reply under the opcode of the message, and for a refused frame a close with 1002, 1007 or 1009 by the reason |
| `WsClient.WsClient.ProcessFrame` | websocket/frame.go:116-286 | state, reply and close flag are those of the reassembly rules for the unmasked frame, and the reply is the one the peer is owed |
| `WsClient.WsClient.ProcessAll` | websocket/frame.go:116-286 | over a whole run of packets, state and effects of the object are those of the rules for the frames in them, also behind a close; every frame gets the reply it is owed; up to the first close it is a run of the rules |
| `Conversation.OutcomeIsAsMeant` | websocket/frame.go:33-80 | the bytes of frames printed one after the other have the outcome of the frames that were meant |
| `Conversation.Converse` | eventloop/loopConn.go:584-606 | however a peer's bytes arrive and are cut, also with bytes behind a close frame, messages, state and close of its client up to the first close are those of the bytes, a beginning of them if the connection fails; every frame gets the reply it is owed |
| `RecordParser.RecordsAreStable` | internal/ktls/linux.go:99-114 | cutting records off a stream is a prefix-stable parser |
| `RecordParser.MessagesAreStable` | internal/ktls/linux.go:126-138 | and so is cutting off handshake messages |
| `RecordParser.RecordParser.HandleHandshake` | internal/ktls/linux.go:141-156 | the first long enough hello of each side gives its random, later ones none |
| `RecordParser.RecordParser.HandleRecord` | internal/ktls/linux.go:116-139 | what is known afterwards is what the records so far, with this one, tell |
| `RecordParser.RecordParser.Feed` | internal/ktls/linux.go:99-114 | what is known depends only on all bytes fed so far |
| `RecordParser.FeedAll` | internal/ktls/linux.go:99-156 | for every chunking: the count is that of the records after the first ChangeCipherSpec without further ones, and the randoms come from the first long enough hellos, even when split across records |
| `RecordParser.LearnedProtected` | internal/ktls/linux.go:116-124 | behind the first ChangeCipherSpec a record only counts |
| `RecordParser.LearnedClear` | internal/ktls/linux.go:125-138 | before it a handshake record adds the messages it completes |
| `Transcript.HandshakeIsLearned` | internal/ktls/linux.go:99-156 | of messages cut into records in any way, a change of cipher and further records, the parser learns the randoms of the first hellos and the number of records behind the change |
| `Transcript.ClearHandshakeIsLearned` | internal/ktls/linux.go:125-156 | before a change of cipher it learns the randoms and counts nothing |
| `Transcript.ClientHelloIsLearned` | internal/ktls/linux.go:141-148 | the random of a serialised ClientHello is learned, however it is cut into records |
| `ClientHello.ParseClientHello` | connection/tls_strict.go:165-276 | the offset walk stays in bounds and computes the structural reading of the message |
| `ClientHello.NoteExtension` | connection/tls_strict.go:233-272 | an extension is noted exactly if it is well formed, and refused otherwise |
| `ClientHello.ParseSerialized` | connection/tls_strict.go:165-276 | a serialised ClientHello yields exactly the flags of its extension list, or an error exactly if an extension is malformed |
| `ClientHello.ReadClientHelloRecords` | connection/tls_strict.go:107-163 | succeeds exactly if a ClientHello within the allowance is on the wire, reads no byte behind its last record, and returns what it read |
| `ClientHello.FoundIsFirstMessage` | connection/tls_strict.go:107-163 | what is found is the first handshake message of whole records |
| `ClientHello.FreshHelloIsFirstMessage` | connection/tls_strict.go:107-163 | on a fresh connection the message found is the first one of the records read, within one mebibyte |
| `ClientHello.FragmentedHelloIsFound` | connection/tls_strict.go:107-163 | however a ClientHello is cut into records, it is found whole and nothing behind it is read |
| `ClientHello.AdmittedByItsExtensions` | connection/tls_strict.go:71-105 | a peer sending a ClientHello, cut into records in any way and followed by anything, gets through if and only if its version is above 0x0300, versions, signature algorithms and key shares are proper lists, and with TLS 1.3 among the versions groups and key shares come together and there are key shares or a ticket |
| `ClientHello.OnlyHellosPass` | connection/tls_strict.go:71-105 | whoever gets through has sent the records of a serialised ClientHello that meets these rules |
| `ClientHello.ParseInverts` | connection/tls_strict.go:165-276 | whatever is parsed without an error is a serialised ClientHello |
| `ClientHello.ProperExactly` | connection/tls_strict.go:233-272 | an extension is accepted if and only if it is the proper encoding of a list of versions, a non-empty list of algorithms, or a vector of key shares, as its type demands |
| `ClientHello.ReplayConn.Read` | connection/tls_strict.go:33-40 | what is read followed by what is left is what was left before |
| `ClientHello.Wrap` | connection/tls_strict.go:71-105 | a connection is wrapped exactly if admitted, and the wrapper still has every byte to offer |
| `ClientHello.PrecheckThenRead` | connection/tls_strict.go:28-105 | for any read sizes, the bytes read through the wrapper and those left are the peer's bytes from the first one, in order |
| `HandshakePool.StepKeepsInv` | eventloop/tlsworker.go:50-144 | every atomic step keeps the counters in line with the jobs |
| `HandshakePool.CountersAreExact` | eventloop/tlsworker.go:50-144 | in every reachable state idle plus busy is workers until stopping, workers and pending keep their bounds, and once Stop has returned every job has exited |
| `HandshakePool.RefusedExactly` | eventloop/tlsworker.go:66-83 | a connection is turned away exactly if the pool is stopping or all workers are busy |
| `HandshakePool.AcceptedIsStarted` | eventloop/tlsworker.go:66-93 | a connection that is not turned away has its job started, and any other leaves the jobs alone |
| `HandshakePool.NothingStartsAfterStop` | eventloop/tlsworker.go:57-64 | after stopping no job starts, and after Stop has returned nothing changes any more |
| `HandshakePool.JobsGetDone` | eventloop/tlsworker.go:86-91 | jobs take a number of steps that is known beforehand |
| `HandshakePool.StopIsNotStuck` | eventloop/tlsworker.go:57-64 | while Stop waits some job can go on, and when none is left Stop can return |
| `HandshakePool.Worker.constructor` | eventloop/tlsworker.go:34-48 | the initial state of the protocol: 1 to 128 workers at most, 128 by default, and up to 8 to begin with |
| `HandshakePool.Worker.SubmitConn` | eventloop/tlsworker.go:66-93 | the critical section is the protocol's step; it turns away exactly a missing connection, any when stopping, and any without an idle or a further worker, and starts a job otherwise |
| `HandshakePool.Worker.StartWorkers` | eventloop/tlsworker.go:50-55 | the critical section is the protocol's step: the first workers are all idle |
| `HandshakePool.Worker.StopWorkers` | eventloop/tlsworker.go:57-62 | the critical section is the protocol's step |
| `HandshakePool.Worker.RecycleWorker` | eventloop/tlsworker.go:109-118 | the critical section is the protocol's step |
| `Sniffer.Sniff` | evhandler/evioTcpHttpWs.go:159-195 | HTTP exactly behind a known method and a space, undecided exactly for the beginning of a method, TCP otherwise; undecided asks for one more byte |
| `Sniffer.IsMethodPrefix` | evhandler/evioTcpHttpWs.go:197-217 | true exactly of the beginnings of methods |
| `Sniffer.IsMethod` | evhandler/evioTcpHttpWs.go:219-236 | true exactly of the methods |
| `Sniffer.DecisionStands` | evhandler/evioTcpHttpWs.go:159-196 | more input never changes a decision |
| `Sniffer.DecidedInTime` | evhandler/evioTcpHttpWs.go:159-196 | an undecided input is the beginning of a method and has at most seven bytes |
| `Sniffer.SplitDoesNotMatter` | evhandler/evioTcpHttpWs.go:159-195 | however the first bytes arrive, the first decision is that of the whole input |
| `Sniffer.UndecidedIsOpen` | evhandler/evioTcpHttpWs.go:159-196 | an undecided input can still turn out either way |

## Left out

- Sockets, epoll, kqueue, kernel TLS, socket options: only their possible results appear; registering with the poller is taken to succeed once a connection is attached.
- `crypto/tls`, key derivation, DEFLATE: a record encoder, a decompressor and a TLS engine that may fail are parameters or nondeterministic.
- Reuse of memory by the allocator: a buffer from `Get` is new memory, so aliasing after a premature return is not captured, and which of the returned buffers the allocator keeps is not modelled.
- The capacity of the write queue's slice and its shrinking limit: only the entries matter to what is proved.
- Widths of counters: the ring's positions, byte counters and record numbers do not wrap; the payload length of a frame and connection IDs do.
- The loop takes IDs from a counter, which is what a generator of unique IDs amounts to; `SimpleId` says when the built-in one is one, as long as its sequence number does not wrap.
- The descriptor table is one per loop here; in the source all loops share one under per-slot locks and ask for the owner. Setting, getting and clearing a slot would only add easy members.
- Budgets of accepts and commands appear in `WakeUp` only; an event of `EventLoop` says what was taken from the channels.
- An event of `EventLoop` says which packets a read brings and what the handler answers; which packets a stream holds is the business of `Inbound` and `ReadLoop`.
- EventLoop.LoopConn.FlushN: at this level a flush of a connection with user-space TLS is only known to take plaintext in order and to shrink the queue or the staged bytes; `AsyncTls.TlsConn.FlushN` proves that and says more.
- EventLoop.LoopConn.Run: that connections are served and not closed without a reason is stated event by event (`EventLoop.LoopConn.Dispatch`), and not with user-space TLS.
- EventLoop.LoopConn.Dispatch: that a risky event can break the promise about marked connections is proved for the drain that does it (`CloseOnDrain.FlushMayBreakExactly`, `CloseOnDrain.ReadMayBreakExactly`), not for the event as a whole, in which the connection may be closed for another reason first.
- CloseOnDrain.FlushMayBreakExactly: leaves out user-space TLS, where what one flush takes depends on how the engine seals records.
- CloseOnDrain.ReadMayBreakExactly: leaves it out too.
- ReadLoop.Reader.Serve: of a turn that ends in a failure only the order of the packets delivered so far is stated.
- RingBuffer.RingBuffer.Write: what the buffer holds after more than the room was copied is not stated; no caller does that, and `RingBuffer.WritesRightExactly` says when it is harmless.
- Handlers that change the packet in place, close the connection themselves or re-enter the loop: callbacks return data or use commands.
- Plaintext that a TLS handshake has left behind (`preRead` of `ATLSConn.Read`): it is served like the replayed bytes of `ClientHello.ReplayConn`.
- Reading ciphertext into the ring buffer (`readCiphertext`): `PeekWrite` and `Forward` are proved, their one use is not repeated.
- Timeouts and alerts of the precheck and of handshakes, metrics, logging, configuration, load balancing, session tickets: easy or outside the model.
- Dialling (`dial.go`, `dialmng.go`), the time wheel, the HTTP adapters and the text of the WebSocket handshake.
