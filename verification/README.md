# Verified models of the SiEStA-VR streaming simulator

SiEStA-VR simulates VR streaming on top of Asynchronix, a discrete-event framework of actor models. This project
models the parts whose correctness is least evident from their text and proves what they promise for every input,
every interleaving or every run:

- **Shards.** A sender cuts a frame into shards in one buffer, each 22-byte prefix overwriting bytes already sent; a
  receiver writes shards arriving in any order, repeated and interleaved, into recycled buffers, saving and restoring
  the bytes each prefix clobbers, expiring frames by deadline and counting bytes and shards
  (`Sharding`, `Reassembly`, `SocketRuns`, `FrameFate`, `Deadlines`, `BufferPool`, `RepeatedShards`, `StreamSocket`,
  `SerialOrder`, `Delivery`, `Accounting`, `ShardCounts`, `VideoReader`).
- **The scheduler.** A priority queue of cancellable and periodic actions, run in time slices in which each mailbox
  gets one future (`Scheduling`, `PriorityQueue`, `Simulation`, `SimulationRuns`, `Requests`, `NullPeriods`).
- **Mailboxes.** The lock-free bounded queue, step by atomic step; the channel over it; the causal order of
  messages in a network of models whose senders block on full mailboxes (`QueuePositions`, `MailboxQueue`,
  `MailboxQueueProof`, `QueueProgress`, `BoundedFifo`, `Channel`, `ChannelRefinement`, `CausalMessaging`); and the
  order in which a model gets the events scheduled for it (`ScheduledMessages`).
- **Video tools.** The frame synchroniser's merge-join (`FrameSync`) and the incremental AV1 OBU parser (`ObuParser`).
- **Arithmetic.** The periodic Fibonacci payload (`Fibonacci`), the interpolated frame-size table and its cache
  (`FrameSizeTable`), the AIMD rate controller (`RateControl`, `RateResponse`, `AimdRateControl`) and its bitrate
  estimator (`BitrateEstimator`).

Code that updates objects in place is a class or a method here, proved to make the step that a value-level
specification names; what holds of whole runs is proved of that specification. `dafny verify dfyconfig.toml` checks
everything.

## What the proofs brought out

- A repeated shard of a completed frame opens an entry again, and at its deadline the frame is reported lost
  (`RepeatedShards.LateShardIsReportedLost`, `RepeatedShards.CompletedAndLost`). `FrameFate.FateExactly` names the two
  kinds of shards that can give a frame a second fate; a network that repeats no shard sends neither.
- The gap between delivered frames is a plain 32-bit subtraction; it underflows exactly when the index has wrapped
  since the last delivery (`Delivery.PlainSubtractionUnderflows`). The model wraps, as a release build does.
- `wrapping_cmp` agrees with integer order on distances from -2^31-1 to 2^31-2 and is not antisymmetric on the three
  distances around half the range (`SerialOrder.AgreesWithIntegers`, `SerialOrder.AntisymmetricExactly`).
- A ready-made action with a null period passes `Scheduler::schedule`, which unlike the other scheduling functions
  does not check the period; its slice then never ends, and without one every slice does
  (`NullPeriods.SliceEndsExactly`).
- A comment in the scheduler says channel identifiers are never zero; the counter they come from starts at zero. Only
  the order of keys matters to the model.
- A comment in the channel says that the message slot is freed before the message's future is awaited; the code keeps
  the slot until the future has run. The model follows the code: a message being handled occupies its slot.
- An OBU without a size field clears the parser's buffer, so where the input is cut matters exactly when the cut
  falls after such an OBU and the next chunk starts with a size field (`ObuParser.CutIsHarmlessExactly`). The leb128
  reader takes nine bytes where section 4.10.5 of the AV1 Bitstream Specification allows eight, and nine continuation
  bytes, and nothing else, stall the parser for good (`ObuParser.StallsExactly`).
- The frame-size cache is invisible for exactly the requests named by `FrameSizes.Safe`: the fallback searches for
  the truncated request, so a request just above a column can be extrapolated from the wrong pair, or answered 0.
- The rate controller can exceed its configured maximum in one way: over-use reported together with a huge throughput
  sample adopted as the first bitrate (`RateControl.MaximumExactly`, `RateControl.HugeSampleOvershoots`).
- A first window without bytes makes the bitrate estimate zero, and it stays zero whatever follows: the next sample is
  divided by it, and the larger of the outcome, which is not a number, and zero is zero
  (`BitrateEstimator.EveryRunIsBounded`).

## Model

| member | source | states |
|---|---|---|
| `Sharding.ParseHeader` | asynchronix/examples/lib/alvr_stream_socket.rs:3011-3031 | a header is read exactly from datagrams of at least 22 bytes |
| `Sharding.PrefixRoundTrip` | asynchronix/examples/lib/alvr_stream_socket.rs:3102-3141 | every prefix the sender writes is read back field by field, whatever follows it |
| `Sharding.PrefixLayout` | asynchronix/examples/lib/alvr_stream_socket.rs:3102-3141 | the prefix is six big-endian fields in the order and at the offsets of the wire format, the length without its own four bytes |
| `Sharding.PiecesIsCeiling` | asynchronix/examples/lib/alvr_stream_socket.rs:3100-3100 | cutting off one stride at a time takes the ceiling of size over stride |
| `Sharding.ShardInRange` | asynchronix/examples/lib/alvr_stream_socket.rs:3097-3110 | a shard index is in range exactly when its payload starts inside the frame; every shard has a payload and fits the packet size |
| `Sharding.PayloadsRebuildFrame` | asynchronix/examples/lib/alvr_stream_socket.rs:3096-3148 | the payloads of the sent shards, joined, are the frame's bytes from 22 on; none is empty and none exceeds the packet size |
| `Sharding.ShardAnnouncesItself` | asynchronix/examples/lib/alvr_stream_socket.rs:3102-3141 | parsing the i-th sent shard gives its own length, frame, count and index, and its body is the frame's i-th region |
| `Sharding.Buffer.GetRangeMut` | asynchronix/examples/lib/alvr_stream_socket.rs:1631-1640 | the buffer grows to cover the range, keeps its bytes and pads with zeros; afterwards its whole length is backed by storage exactly when its old length is |
| `Sharding.EmitShard` | asynchronix/examples/lib/alvr_stream_socket.rs:3102-3141 | writing a prefix in place yields the shard of the original frame and spoils only bytes no later shard needs |
| `Sharding.EmitShards` | asynchronix/examples/lib/alvr_stream_socket.rs:3102-3141 | the in-place loop sends exactly the shards of the frame as it was before the loop |
| `Sharding.StreamSender.Send` | asynchronix/examples/lib/alvr_stream_socket.rs:3096-3148 | for every buffer and packet size the sender's channel gains the shards of the buffer's original bytes, in order, and the storage goes to the pool |
| `Reassembly.ReadInto` | asynchronix/examples/lib/alvr_stream_socket.rs:2438-2465 | reading a shard with backup and restore changes only the bytes of its payload |
| `Reassembly.StoreHolds` | asynchronix/examples/lib/alvr_stream_socket.rs:2417-2477 | storing a shard keeps every region received so far right and adds its own, whatever stale bytes the buffer held |
| `Reassembly.CompleteIsFaithful` | asynchronix/examples/lib/alvr_stream_socket.rs:2486-2577 | an entry with as many distinct shards as the frame has is a packet of the frame's size and bytes |
| `Reassembly.RecyclableExactly` | asynchronix/examples/lib/alvr_stream_socket.rs:2352-2360 | on unbounded frame numbers close enough together exactly a frame more than five behind the arriving one is recyclable |
| `SocketRuns.ArrivalKeepsInv` | asynchronix/examples/lib/alvr_stream_socket.rs:2337-2630 | an arrival keeps every entry right and unfinished, and every queued packet the sender's frame |
| `SocketRuns.SweepKeepsInv` | asynchronix/examples/lib/alvr_stream_socket.rs:2156-2191 | a sweep keeps the invariant, and each loss it reports is between 1 and the frame's shard count less one |
| `SocketRuns.UnfinishedEntries` | asynchronix/examples/lib/alvr_stream_socket.rs:2156-2191 | every entry a sweep can meet has some and lacks some of its shards, so the reported difference never underflows |
| `SocketRuns.StepKeepsInv` | asynchronix/examples/lib/alvr_stream_socket.rs:2144-2676 | every socket event keeps the round-trip invariant |
| `SocketRuns.EveryRunIsFaithful` | asynchronix/examples/lib/alvr_stream_socket.rs:2218-2676 | in every run of arrivals in any order, repeated, interleaved and over recycled buffers, each packet queued has the size and the bytes from 22 on of the frame that was sent |
| `FrameFate.FateExactly` | asynchronix/examples/lib/alvr_stream_socket.rs:2156-2640 | from one fate per frame and no entry of a completed frame, an event keeps that exactly unless it is a shard of a completed frame or the last shard of a frame reported lost |
| `FrameFate.RunFateExactly` | asynchronix/examples/lib/alvr_stream_socket.rs:2156-2640 | a run from the empty socket keeps one fate per frame throughout exactly if none of its arrivals is such a shard |
| `FrameFate.OnceIsHarmless` | asynchronix/examples/lib/alvr_stream_socket.rs:2467-2577 | a shard that has not arrived before is no such shard |
| `FrameFate.StepKeepsFates` | asynchronix/examples/lib/alvr_stream_socket.rs:2156-2640 | one more event, not repeating a shard, keeps every frame to at most one fate |
| `FrameFate.EveryFrameHasOneFate` | asynchronix/examples/lib/alvr_stream_socket.rs:2156-2640 | in every run in which each shard arrives at most once no frame is both completed and reported lost, and none is completed twice |
| `Deadlines.SweepExactly` | asynchronix/examples/lib/alvr_stream_socket.rs:2163-2190 | an entry survives a sweep unchanged exactly if it has no deadline or one in the future; otherwise one loss is logged, of exactly the shards it lacks, and its index is in the table of losses |
| `Deadlines.InTimeIsCompleted` | asynchronix/examples/lib/alvr_stream_socket.rs:2156-2640 | in every run, a frame all of whose shards arrive before a sweep finds the deadline it was opened with due, in any order and repeated or not, is completed by the last of them, unless its entry is taken away |
| `Deadlines.LateIsLost` | asynchronix/examples/lib/alvr_stream_socket.rs:2156-2640 | in every run, a frame that lacks shards at the first sweep that finds its deadline due is reported lost, once, with exactly their number |
| `BufferPool.ArrivalBuffers` | asynchronix/examples/lib/alvr_stream_socket.rs:2345-2415 | an arrival adds to the buffers of a stream exactly if there is none in the pool and no frame to recycle |
| `BufferPool.BuffersAreKept` | asynchronix/examples/lib/alvr_stream_socket.rs:2080-2640 | in every run the buffers of a stream, pooled and in use, are those of its subscription plus one for each allocation and each one handed back |
| `BufferPool.EvictedIsOld` | asynchronix/examples/lib/alvr_stream_socket.rs:2352-2376 | a frame loses its buffer only with the pool empty and to a frame more than five ahead |
| `RepeatedShards.LateShardIsReportedLost` | asynchronix/examples/lib/alvr_stream_socket.rs:2337-2640 | a shard of a multi-shard frame without an entry, completed or not, makes the first sweep at or after its deadline report the frame lost but for that shard, unless another shard of it, recycling or resubscribing comes between |
| `RepeatedShards.CompletedAndLost` | asynchronix/examples/lib/alvr_stream_socket.rs:2156-2640 | for every frame of two shards, a run in which it is completed and then reported lost |
| `StreamSocket.BufferedReceiver.PeekPrefix` | asynchronix/examples/lib/alvr_stream_socket.rs:1467-1484 | peeking shows the head of the next datagram and its full length and consumes nothing; a datagram too long for the limit is refused, and an empty channel without a sender is an error |
| `StreamSocket.BufferedReceiver.Recv` | asynchronix/examples/lib/alvr_stream_socket.rs:1435-1465 | the next datagram is taken whole; one too long is kept if it was peeked at and lost if it was not; an empty channel without a sender is an error |
| `StreamSocket.FindRecyclable` | asynchronix/examples/lib/alvr_stream_socket.rs:2345-2415 | an older entry is found to recycle whenever there is one |
| `StreamSocket.ReadShard` | asynchronix/examples/lib/alvr_stream_socket.rs:2438-2465 | the pending datagram is read into the buffer with the bytes under its prefix restored, and consumed |
| `StreamSocket.StreamSocket.constructor` | asynchronix/examples/lib/alvr_stream_socket.rs:2011-2042 | a new socket is the state every run starts from |
| `StreamSocket.StreamSocket.Subscribe` | asynchronix/examples/lib/alvr_stream_socket.rs:2080-2137 | subscribing, again or for the first time, is the subscription event: an empty queue, no entries and the given number of empty buffers |
| `StreamSocket.StreamSocket.OpenEntry` | asynchronix/examples/lib/alvr_stream_socket.rs:2337-2415 | the frame has an entry afterwards: its own, or one on a pooled, a recycled or a new buffer, in that order |
| `StreamSocket.StreamSocket.TakeShard` | asynchronix/examples/lib/alvr_stream_socket.rs:2337-2630 | the imperative path from entry to completion does to the stream what one arrival does |
| `StreamSocket.StreamSocket.PeekHeader` | asynchronix/examples/lib/alvr_stream_socket.rs:2227-2322 | the header read is that of the shard first in line, each video shard is counted once, as a duplicate exactly if it is on record, and nothing is consumed |
| `StreamSocket.StreamSocket.Recv` | asynchronix/examples/lib/alvr_stream_socket.rs:2218-2676 | a shard of a subscribed stream makes exactly one arrival event with its sweep; a missing, short or unsubscribed one leaves socket and datagram as they were |
| `StreamSocket.StreamSocket.SweepStream` | asynchronix/examples/lib/alvr_stream_socket.rs:2161-2191 | exactly the entries whose deadline has come leave; their buffers go back to the pool and each is reported with the shards it lacks |
| `StreamSocket.StreamSocket.SweepExpiredDeadlines` | asynchronix/examples/lib/alvr_stream_socket.rs:2144-2191 | the loop over all streams is the sweep event, in whatever order the streams are visited; exactly the entries whose deadline has come leave |
| `StreamSocket.StreamSocket.FlushShardsLostDeadline` | asynchronix/examples/lib/alvr_stream_socket.rs:2198-2216 | every index in the table of losses is handed out once, with its count, and the table is empty |
| `SerialOrder.AgreesWithIntegers` | asynchronix/examples/lib/alvr_stream_socket.rs:3557-3567 | the wrapped comparison agrees with the integers exactly on distances from -2^31-1 to 2^31-2 |
| `SerialOrder.AntisymmetricExactly` | asynchronix/examples/lib/alvr_stream_socket.rs:3557-3567 | swapping the operands swaps the answer except at the three distances around half the range |
| `Delivery.StreamReceiver.Recv` | asynchronix/examples/lib/alvr_stream_socket.rs:2925-3008 | a queued packet is either delivered with the counters held back so far or, when stale, held back and its buffer recycled |
| `Delivery.DeliversRecords` | asynchronix/examples/lib/alvr_stream_socket.rs:2932-2973 | for unbounded frame numbers close enough together, exactly the frames newer than all before them are delivered, each reports the number of frames it skipped, and a loss exactly if there are any |
| `Delivery.GapsTelescope` | asynchronix/examples/lib/alvr_stream_socket.rs:2947-2973 | for any packets at all, last index minus first is the sum of one plus the frames skipped over the deliveries, modulo 2^32 |
| `Delivery.LastIndexIsLastDelivery` | asynchronix/examples/lib/alvr_stream_socket.rs:2973-2973 | the index remembered is that of the last delivery |
| `Delivery.PlainSubtractionUnderflows` | asynchronix/examples/lib/alvr_stream_socket.rs:2947-2960 | the unwrapped difference is negative exactly when a multiple of 2^32 lies between the two frame numbers |
| `Accounting.RecordedWeighs` | asynchronix/examples/lib/alvr_stream_socket.rs:2274-2283 | counting a shard adds its bytes and one shard, a duplicate exactly if it is on record and a new one if not, modulo 2^32 |
| `Accounting.MoveBalances` | asynchronix/examples/lib/alvr_stream_socket.rs:2274-2283 | receiving, stalling, polling, subscribing anew and everything else keep the balance |
| `Accounting.EveryRunBalances` | asynchronix/examples/lib/alvr_stream_socket.rs:2591-2615 | in every run, bytes, new shards and duplicates, each on its own, reported by delivered frames, left with earlier readers, held by the reader, carried by queued packets and counted by the socket add up to those of all video shards received, modulo 2^32 |
| `Accounting.ExactBelowOverflow` | asynchronix/examples/lib/alvr_stream_socket.rs:2283-2283 | below 2^32 the balance is an equality |
| `ShardCounts.NewAndRepeated` | asynchronix/examples/lib/alvr_stream_socket.rs:2274-2283 | in every run, between two hand-overs, new shards grow by the number of distinct shards looked at that were not on record, duplicates by all the others and bytes by all lengths, modulo 2^32 |
| `ShardCounts.ForgetsExactly` | asynchronix/examples/lib/alvr_stream_socket.rs:2609-2630 | a hand-over zeroes the counters and, on frame numbers close enough together, forgets exactly the shards of frames more than five behind |
| `VideoReader.RunKeepsReader` | asynchronix/examples/lib/alvr_stream_socket.rs:2591-3008 | in every run a reader has delivered what the packets it took call for, and each packet it took is the sender's frame of that index |
| `VideoReader.DeliversSentFrames` | asynchronix/examples/lib/alvr_stream_socket.rs:2218-3008 | in every run, for frame numbers close enough together, a reader delivers exactly the frames it took that are newer than all before, counts the skipped ones, and each has the size and the bytes from 22 on that the sender gave its index |
| `PriorityQueue.PriorityQueue.Insert` | asynchronix/src/util/priority_queue.rs:75-82 | the new item has the next insertion number |
| `PriorityQueue.PriorityQueue.Peek` | asynchronix/src/util/priority_queue.rs:103-109 | the least item by time, channel and insertion, or nothing exactly when the queue is empty |
| `PriorityQueue.PriorityQueue.Pull` | asynchronix/src/util/priority_queue.rs:90-94 | the least item leaves the queue and nothing else does, or there is none exactly when the queue is empty |
| `Simulation.Simulation.ScheduleEvent` | asynchronix/src/simulation/scheduler.rs:171-203 | accepted exactly when strictly in the future and not with a null period; then, and only then, the queue has one more item, for that time, channel and action |
| `Simulation.Simulation.ScheduleAction` | asynchronix/src/simulation/scheduler.rs:65-82 | a ready-made action is accepted exactly when strictly in the future, null period or not, and queued for that time |
| `Simulation.Simulation.PeekNextKey` | asynchronix/src/simulation.rs:375-388 | only cancelled items are discarded; the answer is the least item, live and within the bound, or none exactly when there is no such item |
| `Simulation.Simulation.PullNextAction` | asynchronix/src/simulation.rs:364-371 | the least item leaves the queue, and a periodic one is back a period later on the same channel |
| `Simulation.Simulation.PullMailbox` | asynchronix/src/simulation.rs:407-429 | all and only the actions of one mailbox at one time are pulled into one future, in scheduling order |
| `Simulation.Simulation.PullSlice` | asynchronix/src/simulation.rs:396-446 | where nothing live and due has a null period it ends; the futures of the slice are grouped by mailbox and, joined, are all live actions of the earliest due time in order |
| `Simulation.Simulation.StepToNextBounded` | asynchronix/src/simulation.rs:361-447 | where the next slice holds no null period, either it has run, at the earliest live time within the bound, and time has strictly advanced to it, or nothing was due and time is unchanged |
| `Simulation.Simulation.StepUntilUnchecked` | asynchronix/src/simulation.rs:458-474 | where no slice on the way to the target holds a null period it terminates, with time at the target, after a run of slices that leaves nothing due |
| `Simulation.Simulation.StepUntil` | asynchronix/src/simulation.rs:259-266 | refused without effect exactly when the target is not in the future; otherwise a run to the target, with the same condition |
| `Simulation.Simulation.StepBy` | asynchronix/src/simulation.rs:246-250 | a run that ends exactly the duration later, with the same condition |
| `Simulation.HarmlessSlicesEnd` | asynchronix/src/simulation/scheduler.rs:65-82 | the condition holds if no null period is queued live, or will be handed over by a model, for a time up to the target |
| `SimulationRuns.SliceKeepsInv` | asynchronix/src/simulation.rs:396-446 | a slice, with everything the models schedule and cancel in response, keeps the run invariant and advances time |
| `SimulationRuns.RunKeepsInv` | asynchronix/src/simulation.rs:458-474 | so does every run |
| `SimulationRuns.EverythingDueRuns` | asynchronix/src/simulation.rs:449-474 | after a run to a target every action due by then, scheduled before or on the way, has run (was handed to the executor) or been cancelled; nothing later has; and everything ran once, in order of time, channel and scheduling |
| `SimulationRuns.WholeSimulation` | asynchronix/src/simulation.rs:208-266 | the same from a new simulation on, after any scheduling and cancelling; `Requests.RequestsAreMet` ties it to what was asked for |
| `SimulationRuns.CancelledNeverRuns` | asynchronix/src/simulation.rs:375-388 | an action cancelled by some point of a run, and not run by then, never runs |
| `Requests.RequestsAreMet` | asynchronix/src/simulation/scheduler.rs:65-203 | from a new simulation to a target, every action asked for in time and due by the target, before the run or by a model, runs at that time for that mailbox unless a request cancelled its key; and whatever runs was asked for, for that time or some periods earlier |
| `Requests.CancelledIsAsked` | asynchronix/src/simulation/scheduler.rs:586-625 | a key is cancelled exactly if some request so far cancelled it |
| `Requests.CancelledKeysNeverRun` | asynchronix/src/simulation.rs:375-388 | once its key is cancelled by request, an action not run by then never runs |
| `Requests.EarlierIsNumberedFirst` | asynchronix/src/simulation/scheduler.rs:171-203 | of two requests met, the earlier gets the lower number, so that for one time and mailbox it comes first |
| `SimulationRuns.GroupingIsUnique` | asynchronix/src/simulation.rs:407-429 | an ordered slice can be grouped by mailbox in only one way |
| `SimulationRuns.SpawnIsDetermined` | asynchronix/src/simulation.rs:399-429 | whichever path pulls a slice, the inlined lone action or the general one, the same futures run and the same actions come back |
| `SimulationRuns.PeriodicKeepsBeat` | asynchronix/src/simulation.rs:364-371 | a live periodic action first due at t with period p runs exactly at t, t+p, t+2p and so on up to the target T, floor((T-t)/p)+1 times, and waits at the first such time after T |
| `NullPeriods.NeverLeaves` | asynchronix/src/simulation.rs:364-388 | through any number of pulls a live action with a null period is back in the queue, due at the same time |
| `NullPeriods.SliceEndsExactly` | asynchronix/src/simulation.rs:396-446 | pulling empties the earliest time of everything live exactly if nothing live and due then has a null period |
| `NullPeriods.NullPeriodIsAccepted` | asynchronix/src/simulation/scheduler.rs:65-82 | scheduling a ready-made action with a null period leads to a queue whose slice does not end |
| `QueuePositions.NextPosIsPos` | asynchronix/src/channel/queue.rs:327-346 | stepping a packed position is the position of the next ticket |
| `QueuePositions.RoundsApart` | asynchronix/src/channel/queue.rs:140-168 | two tickets on one slot are a capacity apart, and their positions differ by at least two, so stamps cannot be confused |
| `MailboxQueueProof.NewQueueHolds` | asynchronix/src/channel/queue.rs:140-168 | a new queue satisfies the invariant |
| `MailboxQueueProof.StampMeans` | asynchronix/src/channel/queue.rs:176-233 | a stamp equal to the position means the slot is free for that ticket; a smaller one means the queue is full |
| `MailboxQueueProof.PopFinds` | asynchronix/src/channel/queue.rs:243-292 | the consumer's slot holds the next message in claim order, or its producer has not finished, or there is none |
| `MailboxQueueProof.StepKeepsInv` | asynchronix/src/channel/queue.rs:171-303 | every atomic step of any producer, the consumer or a closer keeps the invariant |
| `MailboxQueueProof.NeverUnreachable` | asynchronix/src/channel/queue.rs:208-284 | no index is out of range, no producer writes an occupied slot, no consumer reads a vacant one |
| `MailboxQueueProof.StepRefines` | asynchronix/src/channel/queue.rs:171-303 | every atomic step is a step of a bounded queue or invisible; closed and full are reported truthfully |
| `MailboxQueueProof.EveryRunIsFifo` | asynchronix/src/channel/queue.rs:171-303 | over every interleaving messages are received in the order claimed, never more than the capacity is held, and nothing is claimed after closing |
| `QueueProgress.SoloPush` | asynchronix/src/channel/queue.rs:171-238 | from every reachable state, a push that nobody interferes with is decided within five steps: closed if the queue is closed, full if it is full, and otherwise the message is accepted, last |
| `QueueProgress.RetryMeansProgress` | asynchronix/src/channel/queue.rs:193-219 | a push that fails its exchange, other than spuriously, was overtaken: another message was accepted or the queue was closed |
| `QueueProgress.PopExactly` | asynchronix/src/channel/queue.rs:243-292 | a pop takes the oldest accepted message exactly if there is one and its producer has published it |
| `QueueProgress.SoloPop` | asynchronix/src/channel/queue.rs:243-303 | the consumer can always take its next step, to a verdict or to the slot given back |
| `Channel.StepIsSafe` | asynchronix/src/channel.rs:97-312 | accepted messages stay and are received next in order; a fresh look fails exactly when closed; receiving fails only when closed and drained; a failed send changes nothing |
| `Channel.StepDecides` | asynchronix/src/channel.rs:97-312 | an up-to-date send is accepted exactly if the channel is open with room; a receive gets a message exactly if one is there and fails exactly if none is and none can come; the channel closes exactly by a closing step |
| `ChannelRefinement.ActIsChannelStep` | asynchronix/src/channel.rs:97-312 | every atomic step of the queue, and every change of handles, is a channel step with the reply the code gives, or changes nothing a channel can show |
| `ChannelRefinement.EveryRunIsChannelRun` | asynchronix/src/channel/queue.rs:171-303 | over every interleaving of atomic steps, the operations completed, in the order they complete and with the replies the code gives, are a run of the channel from new to the state reached |
| `ChannelRefinement.FullIsTrue` | asynchronix/src/channel/queue.rs:171-226 | a push that answers full was under way at a moment when the queue was full |
| `ChannelRefinement.EveryImplRunIsSafe` | asynchronix/src/channel.rs:97-312 | so over the lock-free queue too what is received is what was accepted, in order and within capacity |
| `Channel.EveryRunIsSafe` | asynchronix/src/channel.rs:97-312 | over every interleaving what was received is a prefix of what was accepted, occupancy is within capacity, and after closing nothing is accepted |
| `Channel.LastSenderCloses` | asynchronix/src/channel.rs:286-312 | once every sender there was has been dropped the channel is closed |
| `Channel.SharedChannel.constructor` | asynchronix/src/channel.rs:70-77 | a new channel is open and empty, with no sender yet |
| `Channel.SharedChannel.TrySend` | asynchronix/src/channel.rs:194-234 | exactly an accepted message joins the end of what was accepted, and only within capacity; an error means closed, waiting that there is or just was no room |
| `Channel.SharedChannel.TryRecv` | asynchronix/src/channel.rs:97-134 | what is received is the next accepted message; the error comes exactly when closed and everything accepted was received |
| `Channel.Exchange` | asynchronix/src/channel/queue.rs:449-507 | for every capacity, two senders and a receiver that makes room when it must: what was sent before closing is received, all of it, once and in order, and the rest is refused |
| `CausalMessaging.RunKeepsInv` | asynchronix/src/simulation.rs:516-520 | in every run of a network of models each mailbox hands over what it accepted, in order, one message at a time |
| `CausalMessaging.AwaitingBlocks` | asynchronix/src/ports/output.rs:172-175 | a model whose broadcast a full mailbox has not taken makes no further call and neither takes nor finishes a message |
| `CausalMessaging.CauseIsHandled` | asynchronix/src/ports/output.rs:172-175 | in every run, a call made by a model that started on a message and has not finished it is caused by exactly that message |
| `CausalMessaging.CausedWhileHandling` | asynchronix/src/ports/output.rs:172-175 | and only such a call has a cause |
| `CausalMessaging.OpenMailboxAccepts` | asynchronix/src/channel.rs:194-234 | an open mailbox with room takes the message of a sender that awaits it |
| `CausalMessaging.ClosedMailboxRefuses` | asynchronix/src/channel.rs:194-234 | a closed one refuses it for good and is no longer awaited |
| `CausalMessaging.IdleModelProcesses` | asynchronix/src/simulation.rs:516-520 | a model that is neither handling nor awaiting starts on the oldest message it has |
| `CausalMessaging.FollowsAscends` | asynchronix/src/channel.rs:194-234 | what a sender calls for later, or sends because of a message, is accepted later, however long mailboxes kept it waiting |
| `CausalMessaging.ChainAscends` | asynchronix/src/lib.rs:363-369 | along a causal chain messages are accepted in order |
| `CausalMessaging.ProcessedInOrder` | asynchronix/src/lib.rs:363-366 | a model that starts on a message has started on every message its mailbox accepted before |
| `CausalMessaging.CausalOrder` | asynchronix/src/lib.rs:360-369 | for any capacities, blocking and interleaving, the first and last message of a causal chain of any length that go to the same model are processed in that order |
| `CausalMessaging.OneToOne` | asynchronix/src/lib.rs:363-365 | of two messages from A to B, B processes first the one whose send A called first |
| `CausalMessaging.Transitivity` | asynchronix/src/lib.rs:366-369 | if A calls for M1 to B, then for M2 to C, and C while handling M2 sends M3 to B, then B processes M1 before M3 |
| `ScheduledMessages.SameFuture` | asynchronix/src/simulation.rs:411-429 | two actions of a slice for one mailbox are in the same future, the one scheduled first before the other |
| `ScheduledMessages.ScheduledInOrder` | asynchronix/src/lib.rs:371-376 | of two events scheduled for the same time and mailbox, a model that gets both processes first the one scheduled first, however futures and models are interleaved |
| `FrameSync.FrameSyncManager.constructor` | asynchronix/examples/vmaf_av1_hevc.rs:124-136 | a new manager is empty, unstarted and balanced |
| `FrameSync.FrameSyncManager.InsertRefFrame` | asynchronix/examples/vmaf_av1_hevc.rs:138-142 | the frame is buffered with its arrival time and its id indexed; replacing a frame counts none |
| `FrameSync.FrameSyncManager.InsertDistFrame` | asynchronix/examples/vmaf_av1_hevc.rs:144-148 | likewise on the other side |
| `FrameSync.FrameSyncManager.PopPair` | asynchronix/examples/vmaf_av1_hevc.rs:240-246 | an id in both buffers leaves both, so neither unwrap fails |
| `FrameSync.FrameSyncManager.DropRef` | asynchronix/examples/vmaf_av1_hevc.rs:248-256 | the frame leaves and is counted as dropped |
| `FrameSync.FrameSyncManager.DropDist` | asynchronix/examples/vmaf_av1_hevc.rs:258-263 | likewise on the other side |
| `FrameSync.FrameSyncManager.SyncAndRetrieve` | asynchronix/examples/vmaf_av1_hevc.rs:156-236 | it terminates; pairs have strictly increasing ids and the buffered frames; every pair of buffered partners is either returned or still buffered; a frame goes unmatched only for its age or for lagging far behind; heads left waiting are young and close together, and a lone old head goes; inserted = matched + dropped + buffered on both sides |
| `FrameSync.OnlyLoneFramesDropped` | asynchronix/examples/vmaf_av1_hevc.rs:156-236 | a frame that leaves unmatched had no partner buffered |
| `FrameSync.FrameSyncManager.CheckTimeouts` | asynchronix/examples/vmaf_av1_hevc.rs:265-319 | only frames older than the hard limit go, smallest ids first, and the head left in each buffer was found young enough |
| `ObuParser.Av1Parser.AddData` | asynchronix/examples/av1_testbed.rs:447-449 | the units already complete are still the first ones, whatever data is added |
| `ObuParser.Av1Parser.ParseLeb128` | asynchronix/examples/av1_testbed.rs:459-480 | the loop reads the number the recursive definition reads, or none if the input ends or nine bytes continue |
| `ObuParser.Av1Parser.NextObu` | asynchronix/examples/av1_testbed.rs:482-530 | a complete unit leaves the buffer, an incomplete one stays, one without a size field clears the buffer |
| `ObuParser.Av1Parser.GetFrames` | asynchronix/examples/av1_testbed.rs:532-538 | all complete units are returned and the rest stays; the last sequence header is remembered |
| `ObuParser.FrontStable` | asynchronix/examples/av1_testbed.rs:482-530 | more input never changes a unit already complete |
| `ObuParser.CutIsHarmlessExactly` | asynchronix/examples/av1_testbed.rs:482-538 | parsing two pieces gives what parsing them joined gives exactly when no unit without a size field ends the first piece, or the second is empty or starts with such a unit |
| `ObuParser.FeedIsParse` | asynchronix/examples/av1_testbed.rs:447-538 | feeding chunks from any quiescent buffer is parsing the whole at once |
| `ObuParser.ChunksDoNotMatter` | asynchronix/examples/av1_testbed.rs:447-538 | for a stream of sized units any split into chunks gives the same units and the same leftover, and together they are the input |
| `ObuParser.Lossless` | asynchronix/examples/av1_testbed.rs:482-538 | for any input the units joined with what they leave are the input |
| `ObuParser.EncodedComesBack` | asynchronix/examples/av1_testbed.rs:482-538 | parsing an encoded list of OBUs gives the list, then whatever follows it |
| `ObuParser.DecodeEncoded` | asynchronix/examples/av1_testbed.rs:459-530 | the type, extension and payload of any encoded OBU are read back from its unit |
| `ObuParser.HeaderFields` | asynchronix/examples/av1_testbed.rs:487-491 | from a header byte laid out as in section 5.3.2 of the AV1 Bitstream Specification the parser reads the type and both flags that were put there |
| `ObuParser.ParseEncoded` | asynchronix/examples/av1_testbed.rs:482-530 | fed an encoded OBU and anything after it, the parser gives the unit with its type and keeps what follows |
| `ObuParser.UnsizedClears` | asynchronix/examples/av1_testbed.rs:493-498 | an OBU encoded without its size has the buffer cleared, whatever follows |
| `ObuParser.RemembersLastHeader` | asynchronix/examples/av1_testbed.rs:519-523 | of several encoded sequence headers the last one is remembered |
| `ObuParser.RemembersKnownHeader` | asynchronix/examples/av1_testbed.rs:519-523 | without one the header known before is |
| `ObuParser.EndlessStalls` | asynchronix/examples/av1_testbed.rs:459-480 | once nine size bytes continue, no further input is ever parsed |
| `ObuParser.StallsExactly` | asynchronix/examples/av1_testbed.rs:459-530 | no input ever brings a buffer on exactly if a size field of nine continuation bytes stands at its front |
| `Fibonacci.FibSum` | asynchronix/examples/lib/alvr_stream_socket.rs:3935-3936 | the addition law of Fibonacci numbers |
| `Fibonacci.PairReturns` | asynchronix/examples/lib/alvr_stream_socket.rs:3935-3936 | modulo 256 the pair at 384 is the pair at 0 |
| `Fibonacci.PeriodicBytes` | asynchronix/examples/lib/alvr_stream_socket.rs:3935-3936 | the sequence modulo 256 repeats every 384 |
| `Fibonacci.FillBytewise` | asynchronix/examples/lib/alvr_stream_socket.rs:3919-3933 | the wrapping recurrence yields the Fibonacci numbers modulo 256, for every length |
| `Fibonacci.MakeTable` | asynchronix/examples/lib/alvr_stream_socket.rs:3938-3950 | the table is one period of them |
| `Fibonacci.FillPayload` | asynchronix/examples/lib/alvr_stream_socket.rs:3962-3972 | filling a period at a time yields the same bytes, for every length |
| `FrameSizes.BinarySearch` | asynchronix/examples/lib/alvr_stream_socket.rs:3784-3787 | the first column at or above the number |
| `FrameSizes.FrameSizeTable.BytesInterpCached` | asynchronix/examples/lib/alvr_stream_socket.rs:3733-3801 | the answer and the new cache are those of the specification, for every request and every cache content |
| `FrameSizes.StaysAdjacent` | asynchronix/examples/lib/alvr_stream_socket.rs:3783-3790 | after any requests the cache holds neighbouring columns, or the first column twice |
| `FrameSizes.SafeAgrees` | asynchronix/examples/lib/alvr_stream_socket.rs:3764-3801 | a safe request gets the uncached interpolation after every history of requests |
| `FrameSizes.UnsafeFails` | asynchronix/examples/lib/alvr_stream_socket.rs:3783-3801 | for every other request there are sizes and earlier requests that give a different answer |
| `FrameSizes.AgreementExactly` | asynchronix/examples/lib/alvr_stream_socket.rs:3733-3801 | the cache is invisible exactly for safe requests: not interpolated, or not truncating to a column, or in a table whose only gap is the first |
| `FrameSizes.BetweenNeighbours` | asynchronix/examples/lib/alvr_stream_socket.rs:3764-3801 | a safe interpolated answer lies between the entries of the two neighbouring columns |
| `FrameSizes.InterpolatesExactly` | asynchronix/examples/lib/alvr_stream_socket.rs:3764-3801 | a safe interpolated answer is the integer nearest to the line through the two neighbouring columns |
| `FrameSizes.ColumnsAnswer` | asynchronix/examples/lib/alvr_stream_socket.rs:3733-3763 | at most half a unit off a column, or beyond an end of the table, the answer is that column's size for the frame, whatever the cache |
| `FrameSizes.FramesWalkRound` | asynchronix/examples/lib/alvr_stream_socket.rs:3733-3763 | consecutive frames walk through the column from the offset on, round and round |
| `FrameSizes.EmptyTableAnswersNothing` | asynchronix/examples/lib/alvr_stream_socket.rs:3733-3763 | a table without columns answers 0 |
| `RateControl.NearMaxIncrease` | asynchronix/examples/lib/fovoptix.rs:870-885 | the additive rate is 32 kbps per second whatever the bitrate |
| `RateControl.ObservedKeeps` | asynchronix/examples/lib/fovoptix.rs:472-493 | for every weight the capacity estimate moves towards the sample and not past it, and the deviation stays between 0.4 and 2.5 |
| `RateControl.UpdateKeepsInv` | asynchronix/examples/lib/fovoptix.rs:909-1069 | every update keeps the controller's invariant, whatever square root is used |
| `RateControl.EveryRunHolds` | asynchronix/examples/lib/fovoptix.rs:825-1069 | after every sequence of inputs an increasing controller has its last change stamped, no decrease is left standing, and the bitrate is at least the minimum |
| `RateControl.ClampExactly` | asynchronix/examples/lib/fovoptix.rs:932-954 | clamping ends within the maximum exactly when the bitrate or the discounted lower bound was |
| `RateControl.MaximumExactly` | asynchronix/examples/lib/fovoptix.rs:909-1069 | an update from within the maximum stays within it exactly unless it adopts, under over-use, a sample whose discounted lower bound exceeds it |
| `RateControl.RunMaximumExactly` | asynchronix/examples/lib/fovoptix.rs:909-1069 | so a whole run stays within the maximum exactly when none of its updates does that |
| `RateControl.HugeSampleOvershoots` | asynchronix/examples/lib/fovoptix.rs:909-930 | two updates that take a new controller above its maximum |
| `RateControl.RaiseIsLimited` | asynchronix/examples/lib/fovoptix.rs:956-1069 | only an increasing controller raises the bitrate, at most to half again over the throughput: by at most 8 percent or 1000 without a capacity estimate, and by at most 32 bps per millisecond since the last change with one |
| `RateResponse.NormalRaises` | asynchronix/examples/lib/fovoptix.rs:851-1069 | normal use has an initialised controller increase: by 8 percent or 1000 without an estimate or above it, else by 32 bits per millisecond, up to half again over the throughput, within the bounds of link and configuration, and not in an application-limited region |
| `RateResponse.GainsWithoutEstimate` | asynchronix/examples/lib/fovoptix.rs:975-997 | below its limit and without an estimate the bitrate always gains, by exactly 8 percent or 1000, up to the limit and the maximum |
| `RateResponse.ClimbsToLimit` | asynchronix/examples/lib/fovoptix.rs:975-997 | under normal use at a steady throughput the bitrate is after n updates at least 1000 n higher, or at its limit |
| `RateResponse.OtherwiseHolds` | asynchronix/examples/lib/fovoptix.rs:851-1069 | under-use, or no verdict while holding, leaves the bitrate as it is, within bounds |
| `RateResponse.OveruseLowers` | asynchronix/examples/lib/fovoptix.rs:998-1040 | over-use lowers the bitrate to 85 percent of the throughput, or of the estimate if the throughput is too high to lower it, within the bounds of the link, which has learned the throughput with a weight of 5 percent or started over |
| `RateResponse.StartsFromSample` | asynchronix/examples/lib/fovoptix.rs:909-930 | without over-use the first bitrate stays until a sample more than five seconds after the first one, and the controller then starts from that sample |
| `AimdRateControl.LinkCapacityEstimator.OnOveruseDetected` | asynchronix/examples/lib/fovoptix.rs:464-493 | afterwards there is an estimate, the rate itself or between the rate and the estimate before, and the deviation is within 0.4 and 2.5 |
| `AimdRateControl.Aimd.constructor` | asynchronix/examples/lib/fovoptix.rs:825-850 | a new controller satisfies the invariant |
| `AimdRateControl.Aimd.MultiplicativeRateIncrease` | asynchronix/examples/lib/fovoptix.rs:887-900 | the increase is at least 1000; with the change time stamped, as it always is, it is 8 percent or 1000 |
| `AimdRateControl.Aimd.AdditiveRateIncrease` | asynchronix/examples/lib/fovoptix.rs:902-907 | with the change time stamped, as it always is, the increase is 32 kbps times the elapsed seconds |
| `AimdRateControl.Aimd.ClampBitrate` | asynchronix/examples/lib/fovoptix.rs:932-954 | at least the minimum, above the current bitrate only as far as asked for, and within the maximum exactly when the current bitrate or the discounted lower bound is |
| `AimdRateControl.Aimd.Update` | asynchronix/examples/lib/fovoptix.rs:909-930 | every update is the one that `RateResponse` gives in numbers, keeps the invariant and returns a bitrate of at least the minimum |
| `BitrateEstimator.WindowedKeeps` | asynchronix/examples/lib/fovoptix.rs:1105-1135 | for any arrival the pending window stays within 350 ms, and a sample is zero exactly if its window counted no byte |
| `BitrateEstimator.MovedBetween` | asynchronix/examples/lib/fovoptix.rs:1154-1185 | a sample, zero included, moves a positive estimate towards itself and never past it nor to zero; the variance stays non-negative |
| `BitrateEstimator.SampleMoves` | asynchronix/examples/lib/fovoptix.rs:1154-1185 | a sample moves a positive estimate strictly towards itself, by exactly the share the variance plus five has in its total with the squared uncertainty of the sample |
| `BitrateEstimator.UpdateKeepsInv` | asynchronix/examples/lib/fovoptix.rs:1105-1189 | every arrival, empty or not, keeps the invariant |
| `BitrateEstimator.EveryRunIsBounded` | asynchronix/examples/lib/fovoptix.rs:1105-1189 | in every run the estimate is zero exactly if the first window to fill counted no byte; otherwise it is positive and between the smallest and largest sample, with a variance that is a non-negative number; under 350 ms are pending |
| `BitrateEstimator.NothingForgotten` | asynchronix/examples/lib/fovoptix.rs:1105-1135 | while arrivals are in order and no more than a window apart, all their bytes and all milliseconds are in the samples or pending |
| `BitrateEstimator.StartsOver` | asynchronix/examples/lib/fovoptix.rs:1112-1125 | a clock that goes back, or a silence of more than a window, gives no sample and forgets the bytes so far |
| `BitrateEstimator.NonEmptyArrivals` | asynchronix/examples/lib/fovoptix.rs:1105-1135 | with bytes in every arrival every sample is positive and the estimate never zero |
| `BitrateEstimator.EmptyArrivalsReachZero` | asynchronix/examples/lib/fovoptix.rs:1127-1152 | two arrivals without bytes, a window apart, make the estimate zero |
| `BitrateEstimator.FOBitrateEstimator.UpdateWindow` | asynchronix/examples/lib/fovoptix.rs:1105-1135 | the window's new state and sample are the specified ones, for every time and byte count |
| `BitrateEstimator.FOBitrateEstimator.Update` | asynchronix/examples/lib/fovoptix.rs:1137-1189 | for any time and byte count the update is the specified one and keeps the invariant |
| `BitrateEstimator.FOBitrateEstimator.Bitrate` | asynchronix/examples/lib/fovoptix.rs:1190-1196 | there is a throughput exactly once a sample was seen: zero if the first was, else within the samples; and it is one the controller accepts |

## Left out

- Sharding.PiecesIsCeiling: the source takes the ceiling of a 32-bit float quotient, which agrees below 2^24 bytes.
- Time stamps in prefixes are four opaque bytes, deadlines an arbitrary function of stamp and arrival time; jitter,
  the Kalman filter, frame spans and the highest-index records are not modelled.
- Sharding.StreamSender.Send: assumes the buffer is backed by its storage, as `get_range_mut` and `set_len` leave it;
  a buffer straight from `get_buffer_emu` need not be. The payload's serialisation into the buffer is not modelled.
- StreamSocket.StreamSocket.Recv: assumes datagrams come from senders with the same packet size; foreign and corrupt
  datagrams are not modelled beyond those too short for a prefix.
- StreamSocket.StreamSocket.PeekHeader: as for `Recv`; and the source fails on an empty channel that lost its sender,
  which the precondition excludes.
- The table of losses has packet indices only as keys, as in the source, so streams share it; the history that the
  fates are proved about tells streams apart.
- The behaviour switched by `ALVR_ORIGINAL_SOCKETRX_BEHAVIOR`, which is off, and the sink for discarded shards, which
  nothing is sent to, are not modelled.
- The executor is an arbitrary function from everything run so far to the requests the models make; tasks, the clock,
  the step without a bound and direct processing of events and queries are not modelled.
- SimulationRuns.EverythingDueRuns: an action has run once its future was handed to the executor; a keyed event
  cancelled after that, in its own slice, is skipped by its future (`send_keyed_event`), which is not modelled.
- PriorityQueue.PriorityQueue.Insert: insertion numbers do not run out.
- CausalMessaging.CausalOrder: replies to queries are not messages here; a caller may go on once its query is accepted,
  which the source allows only later.
- The queue's positions do not wrap at the machine word, its steps are sequentially consistent, and wakers are not
  modelled; progress is proved of a producer or consumer that nobody interferes with.
- Channel.SharedChannel.TrySend: a sender that finds the queue full waits; that it is woken is not modelled.
- FrameSync.FrameSyncManager.CheckTimeouts: may drop a frame whose partner is buffered, as in the source; only
  `sync_and_retrieve` is proved not to.
- OBU contents beyond header, extension and size are not parsed; sizes are unbounded numbers, not machine words.
- FrameSizes.FrameSizeTable.BytesInterpCached: floats are reals, and columns are strictly increasing with non-empty
  sizes, which the CSV loader does not check.
- AimdRateControl.Aimd.MultiplicativeRateIncrease: the power is an arbitrary function, and the time since a change
  never stamped does not overflow.
- AimdRateControl.Aimd.Update: floats are reals, times are unbounded and never the reserved smallest one, and
  throughputs are non-negative; the fields kept only for plots are left out.
- BitrateEstimator.FOBitrateEstimator.Update: the sum of bytes is unbounded.
- The trend-line estimator, bandwidth probing, NADA and GCC variants, statistics, logging, encoders, decoders, image
  comparison and user interfaces are not modelled.
