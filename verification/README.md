# CSQTT engine: verified model

This project models the data path and the control state machines of the CSQTT engine (Rust) and the cache of the
off-tunnel DNS resolver (Go), and proves what they promise. `dafny verify dfyconfig.toml` checks all of it.

What is modelled, file by file:

- `Common`, `Arithmetic`: machine words, network byte order, quotients.
- `RtpSequence`, `ReplayWindow`: how packets are numbered, and the 16384-bit ring that lets each one through once.
- `Obfs`, `PacketBuf`, `ChannelData`, `Datagram`: RTP-shaped wrapping and TURN ChannelData framing, in place in one
  2304-byte buffer (RTP: sections 5.1 and 5.3.1 of RFC 3550; ChannelData: sections 11.4 to 11.6 of RFC 5766).
- `Delivery`: the two above put together, from the sender's numbering to the payloads the receiver lets through.
- `TurnStream`: cutting a TCP stream back into control and data frames.
- `Stun`: the STUN message decoder and its attribute iterator.
- `EpochQueue`, `PacketQueue`: the epoch-stamped bounded queue, once under interleaving and once against a deque.
- `Scheduler`, `WorkerList`, `Dispatch`: which worker a packet is meant for, how the workers are arranged, and where
  the packet ends up.
- `Writer`, `WriterLanes`: batches, duplicates, partial sends and commands, and the wire they produce.
- `PacketPool`, `Logging`, `RepairRace`, `IdleRace`, `EpochQueue`, `DnsResolver`: state machines whose atomic operations
  interleave in any order. `Repair`, `Idle`, `DnsCache` hold the same components one operation at a time.

How to read the models:

- Code that changes state in place is a class or a method with a loop, proved against a function or a predicate;
  the lemmas beside it say what that specification promises.
- A concurrent component is a function `Apply(state, step)`, one step for each atomic operation. Steps interleave
  sequentially consistently; a step that is not enabled leaves the state alone, so a theorem over all step sequences is a
  theorem over all interleavings. History fields (what was delivered, handed over, opened) record a run for its theorem.
- Randomness, clocks, sockets and the ciphers are parameters. A socket accepts some prefix of what it is offered, is not
  ready, or fails. The ciphers obey three laws: a keystream applied twice is undone, opening inverts sealing, and lengths
  are the algorithm's own. `Obfs.IdealCiphersExist` shows the laws can be met.
- Machine words are bounded integers with the wrap-around, saturation and truncation of the source written out. The bit
  ring works on words by their binary digits.
- TURN paths are integers: only their order and equality matter to the arrangement of the workers.

Where the code does less than its own description:

- Widening a sequence at the very top of the 64-bit range saturates and loses the sequence:
  `ReplayWindow.ExtendKeepsSequenceExactly` gives the exact condition. Arrivals that 16 bits cannot place, such as one
  from before the first accepted packet, can make a later packet pass twice: `ReplayWindow.LatePacketFromBeforeTheFirst`.
  `ReplayWindow.TracksExactly` gives the exact condition for a whole run.
- A writer command that fails after it has taken a number leaves a gap in the numbering of the wire:
  `WriterLanes.ConsecutiveExactly` says exactly when the packets are still numbered consecutively.
- A dispatch drops a packet although another healthy worker has room when the first shortest healthy lane is
  closed, its worker not yet marked unhealthy:
  `Dispatch.DropsDespiteRoom`, with the exact condition in `Dispatch.DroppedExactly`.
- The DNS cache exceeds 256 entries when an expired entry under the empty host name is the first expired one met:
  `DnsCache.EmptyNameOverflows`, with the exact condition in `DnsCache.GrowsPastTheLimitExactly`.
- A new server list clears the cache, but a query that is out at that moment still stores an answer from the previous
  servers, against the comment above `SetServers`: `DnsResolver.OldAnswerOutlivesItsServers`, with the exact condition in
  `DnsResolver.NewListIsSafeExactly`.
- The idle epoch goes back only when `enter` wraps the 64-bit counter: `Idle.OffsetGoesBackExactly`. A registration that
  was read before a reset and is stored after it lets one burst of losses open two epochs: `Idle.StaleJoinOpensTwoEpochs`,
  with the exact condition in `Idle.OneEpochPerBurstExactly`. Registrations under the last epoch leave the mark of the
  last but one: `IdleRace.SaturatedMarkMisleads`.
- Queue epochs have 63 bits, so the stamp of a packet repeats after 2^63 resumes: `EpochQueue.DeliveredInItsOwnEpoch`.

## Model

| member | source | states |
|---|---|---|
| ReplayWindow.Window.Accept | examples/modulecsqtt/native/csqtt-engine/session.rs:462-505 | the 256-word bit ring gives the answer of the set model, and its new contents are exactly the model's new window |
| ReplayWindow.Window.ClearBetween | examples/modulecsqtt/native/csqtt-engine/session.rs:468-478 | moving the window on forgets exactly the counters whose slots are reused |
| ReplayWindow.Window.AcceptRtp | examples/modulecsqtt/native/csqtt-engine/session.rs:507-519 | the 16-bit entry point accepts what the model accepts for the widened counter |
| ReplayWindow.NearbyCountersUseDistinctSlots | examples/modulecsqtt/native/csqtt-engine/session.rs:492-505 | two counters less than a window apart never share a bit |
| ReplayWindow.WindowHoldsRecentArrivals | examples/modulecsqtt/native/csqtt-engine/session.rs:461-490 | after any run the window is exactly the set of arrivals less than 16384 below the highest |
| ReplayWindow.AcceptedExactly | examples/modulecsqtt/native/csqtt-engine/session.rs:461-490 | an arrival is accepted if and only if it is new and less than 16384 below the highest so far |
| ReplayWindow.AcceptedAtMostOnce | examples/modulecsqtt/native/csqtt-engine/session.rs:461-490 | no counter is accepted twice in any run |
| ReplayWindow.RunCounters | examples/modulecsqtt/native/csqtt-engine/session.rs:461-490 | the ring itself, over a whole run, accepts exactly the arrivals that are new and recent |
| ReplayWindow.ExtendKeepsSequenceExactly | examples/modulecsqtt/native/csqtt-engine/session.rs:511-518 | widening keeps the wire sequence if and only if it does not run past the top of the 64-bit range |
| ReplayWindow.ExtendSaturates | examples/modulecsqtt/native/csqtt-engine/session.rs:513-515 | an input on which the saturating addition loses the sequence |
| ReplayWindow.ExtendPicksNearest | examples/modulecsqtt/native/csqtt-engine/session.rs:511-518 | of all counters with the sequence the nearest to the highest is chosen, ties stay in the current cycle |
| ReplayWindow.ExtendRecoversExactly | examples/modulecsqtt/native/csqtt-engine/session.rs:511-518 | exactly which true indices are recovered from 16 bits |
| ReplayWindow.ExtendRecovers | examples/modulecsqtt/native/csqtt-engine/session.rs:511-518 | a true index within half a span of the highest is recovered, over the whole 64-bit range |
| ReplayWindow.SequencesTrackIndices | examples/modulecsqtt/native/csqtt-engine/session.rs:507-519 | when every arrival is recoverable, the window fed with 16-bit sequences runs through the states of one fed with true indices |
| ReplayWindow.TracksExactly | examples/modulecsqtt/native/csqtt-engine/session.rs:507-519 | a run is widened to its true indices if and only if each arrival is recoverable from the newest one before it |
| ReplayWindow.NearbyTrafficIsTrackable | examples/modulecsqtt/native/csqtt-engine/session.rs:511-518 | arrivals within half a span of the newest, none from before the first, are recoverable |
| ReplayWindow.RunSequences | examples/modulecsqtt/native/csqtt-engine/session.rs:507-519 | the ring itself, over a whole run of wire sequences, answers as the model |
| ReplayWindow.EachPacketDeliveredOnce | examples/modulecsqtt/native/csqtt-engine/session.rs:461-519 | end to end with the sender's numbering, on every run whose arrivals are recoverable: each packet less than a window behind is accepted exactly once, across any number of wraps |
| ReplayWindow.LatePacketFromBeforeTheFirst | examples/modulecsqtt/native/csqtt-engine/session.rs:507-519 | why arrivals from before the first accepted packet must be excluded: a run in which a packet is accepted twice |
| RtpSequence.SequenceRepeatsEverySpan | examples/modulecsqtt/native/csqtt-engine/obfs.rs:347-351 | two packets share a wire sequence if and only if their counts agree modulo 2^16 |
| RtpSequence.SequenceState.Next | examples/modulecsqtt/native/csqtt-engine/obfs.rs:87-93 | each packet takes the sequence of its count; both counters advance and wrap at their width |
| EpochQueue.RunKeepsInvariant | examples/modulecsqtt/native/csqtt-engine/dispatcher.rs:235-345 | what every interleaving of send, receive, resume, suspend and steal steps keeps |
| EpochQueue.DeliveredInItsOwnEpoch | examples/modulecsqtt/native/csqtt-engine/dispatcher.rs:235-256 | a delivered packet was stamped in the epoch active at its check; below 2^63 resumes no resume lies in between |
| EpochQueue.DeliveriesKeepPushOrder | examples/modulecsqtt/native/csqtt-engine/dispatcher.rs:282-290 | packets are delivered in the order in which they were pushed |
| EpochQueue.CheckDeliversExactlyTheCurrent | examples/modulecsqtt/native/csqtt-engine/dispatcher.rs:284-287 | the check delivers the popped packet if and only if the queue is active and no resume came after its stamp, modulo the 63-bit epoch |
| EpochQueue.PurgeDropsOnlyOlderEpochs | examples/modulecsqtt/native/csqtt-engine/dispatcher.rs:318-328 | the purge inside a resume only drops packets of earlier epochs |
| EpochQueue.EveryPacketInOnePlace | examples/modulecsqtt/native/csqtt-engine/dispatcher.rs:235-345 | in every interleaving each packet stamped for the queue is with its sender, queued, held by the receiver, delivered or lost, exactly one of these |
| EpochQueue.LostOnlyForTheReason | examples/modulecsqtt/native/csqtt-engine/dispatcher.rs:235-345 | a packet is lost only when the queue is full, as the oldest replaced by a forced one, as stale at the check, in a purge, or stolen |
| EpochQueue.SendEnters | examples/modulecsqtt/native/csqtt-engine/dispatcher.rs:235-256 | an uninterrupted send puts the packet last into a queue with room; into a full one only by force, for the oldest |
| EpochQueue.ReceiverDrains | examples/modulecsqtt/native/csqtt-engine/dispatcher.rs:282-290 | an undisturbed receiver delivers everything of the current epoch, in order |
| EpochQueue.SentIsDelivered | examples/modulecsqtt/native/csqtt-engine/dispatcher.rs:235-290 | what is sent to an active queue with room is delivered when the receiver runs on undisturbed |
| EpochQueue.ResumeOpensNextEpoch | examples/modulecsqtt/native/csqtt-engine/dispatcher.rs:318-328 | an undisturbed resume opens the next epoch and empties the queue |
| PacketQueue.TraceConservesPackets | examples/modulecsqtt/native/csqtt-engine/dispatcher.rs:220-345 | over any trace every packet sent is received, handed back to its pool, or still queued, exactly once |
| PacketQueue.TraceStaysBounded | examples/modulecsqtt/native/csqtt-engine/dispatcher.rs:220-345 | the queue never holds more than its capacity |
| PacketQueue.Queue.Send | examples/modulecsqtt/native/csqtt-engine/dispatcher.rs:235-256 | a send is rejected when closed, inactive or full; a forced one drops exactly the oldest; otherwise the packet is the last of the queue |
| PacketQueue.Queue.Resume | examples/modulecsqtt/native/csqtt-engine/dispatcher.rs:318-328 | a resume empties the queue and opens a new active epoch |
| PacketQueue.Queue.TryReceive | examples/modulecsqtt/native/csqtt-engine/dispatcher.rs:282-290 | a receive skips entries of older epochs and otherwise takes the oldest packet, as the deque does |
| PacketQueue.Queue.Suspend | examples/modulecsqtt/native/csqtt-engine/dispatcher.rs:330-337 | a suspended queue is empty and takes nothing |
| PacketQueue.Queue.PurgeQueue | examples/modulecsqtt/native/csqtt-engine/dispatcher.rs:339-341 | a purge hands back everything queued |
| PacketQueue.Queue.RunTrace | examples/modulecsqtt/native/csqtt-engine/dispatcher.rs:1694-1776 | run by one thread, any trace of operations gives the outcomes and the contents of the deque |
| WorkerList.InterleaveTurnPaths | examples/modulecsqtt/native/csqtt-engine/dispatcher.rs:409-440 | sort, grouping and the round loop end, and the result arranges exactly the given workers |
| WorkerList.GroupByPath | examples/modulecsqtt/native/csqtt-engine/dispatcher.rs:415-427 | sorted workers fall into one group for each path, in path order, none lost |
| WorkerList.ArrangementIsDetermined | examples/modulecsqtt/native/csqtt-engine/dispatcher.rs:409-440 | the arrangement depends only on the set of workers |
| WorkerList.EveryPrefixIsBalanced | examples/modulecsqtt/native/csqtt-engine/dispatcher.rs:428-439 | in every prefix a path with workers left is at most one behind any other path |
| WorkerList.CountIsOffset | examples/modulecsqtt/native/csqtt-engine/dispatcher.rs:428-439 | when the groups are taken in turn, each group has given one worker per completed round until it is used up |
| WorkerList.LiveIdsAreUnique | examples/modulecsqtt/native/csqtt-engine/dispatcher.rs:641-659 | after any history of register and unregister worker ids are unique |
| WorkerList.LiveExactly | examples/modulecsqtt/native/csqtt-engine/dispatcher.rs:641-659 | a worker is live if and only if some registration of it is followed by none of its id and by no unregister of its id and incarnation |
| WorkerList.StaleUnregisterIsHarmless | examples/modulecsqtt/native/csqtt-engine/dispatcher.rs:652-659 | an unregister with another incarnation than the live one changes nothing |
| WorkerList.Dispatcher.Register | examples/modulecsqtt/native/csqtt-engine/dispatcher.rs:641-650 | the list becomes the old members with another id plus the worker, arranged |
| WorkerList.Dispatcher.Unregister | examples/modulecsqtt/native/csqtt-engine/dispatcher.rs:652-659 | the list becomes the old members except the one with that id and incarnation, arranged; without one it stays as it is |
| WorkerList.ListDependsOnlyOnLiveSet | examples/modulecsqtt/native/csqtt-engine/dispatcher.rs:641-659 | two histories that leave the same live workers leave the same list |
| Dispatch.Lanes.EnqueueSelected | examples/modulecsqtt/native/csqtt-engine/dispatcher.rs:1469-1506 | which lane takes the packet: the first clear one that accepts, without any the first that accepts; refused if and only if no inspected one accepts |
| Dispatch.Lanes.ReplaceOldest | examples/modulecsqtt/native/csqtt-engine/dispatcher.rs:1508-1525 | the first shortest healthy lane gets the packet, its oldest one leaving when it is full |
| Dispatch.Lanes.DispatchNow | examples/modulecsqtt/native/csqtt-engine/dispatcher.rs:990-1014 | one dispatch followed by the best-effort copy, which takes the lane picked from half the table further on, is refused only if no inspected lane accepts, and never pushes anything out |
| Dispatch.CopyLooksHalfwayOn | examples/modulecsqtt/native/csqtt-engine/dispatcher.rs:1006-1013 | the copy looks at the workers from half the table further on, in order and around the end |
| Dispatch.Lanes.Redispatch | examples/modulecsqtt/native/csqtt-engine/dispatcher.rs:1016-1029 | a packet handed back is dispatched again from slot 0 |
| Dispatch.LandsInOneLane | examples/modulecsqtt/native/csqtt-engine/dispatcher.rs:990-1029 | a packet that is not dropped ends in the one lane of its class of a healthy worker, and nothing else changes |
| Dispatch.EvictsOnlyAsALastResort | examples/modulecsqtt/native/csqtt-engine/dispatcher.rs:1003-1005 | a packet is pushed out only when no worker in reach has room, and it is the oldest of a shortest healthy lane |
| Dispatch.CongestedLanesComeLast | examples/modulecsqtt/native/csqtt-engine/dispatcher.rs:1489-1500 | a lane at least half full is used only when no lane in reach is under half |
| Dispatch.FirstUnderHalfTakesIt | examples/modulecsqtt/native/csqtt-engine/dispatcher.rs:1478-1504 | in plain numbers: the first of the three workers from the scheduled one on, or of all when that one is unhealthy, whose lane is under half takes the packet |
| Dispatch.FirstWithRoomTakesIt | examples/modulecsqtt/native/csqtt-engine/dispatcher.rs:1489-1504 | without any lane under half in reach, the first with room takes it |
| Dispatch.FullLanesGiveUpTheOldest | examples/modulecsqtt/native/csqtt-engine/dispatcher.rs:1508-1525 | without any room in reach, the first shortest healthy lane takes it, its oldest packet leaving when it is full |
| Dispatch.DroppedExactly | examples/modulecsqtt/native/csqtt-engine/dispatcher.rs:1003-1005 | exactly when a packet is dropped |
| Dispatch.DroppedOnlyWithoutHealthyWorkers | examples/modulecsqtt/native/csqtt-engine/dispatcher.rs:1508-1525 | while every healthy lane takes packets, a packet is dropped if and only if no worker is healthy |
| Dispatch.DropsDespiteRoom | examples/modulecsqtt/native/csqtt-engine/dispatcher.rs:1517-1524 | a table on which the closed lane of a worker not yet marked unhealthy makes the dispatcher drop a packet that another healthy worker has room for |
| Dispatch.DispatchKeepsBounds | examples/modulecsqtt/native/csqtt-engine/dispatcher.rs:1469-1525 | no dispatch takes a lane over its capacity |
| Scheduler.FastPathScheduler.BeginForClass | examples/modulecsqtt/native/csqtt-engine/dispatcher.rs:142-171 | the k-th packet of a class gets slot floor(k / chunk) mod n, with chunks of 4, 16 and 32; a changed worker count starts all classes over |
| Scheduler.FastPathScheduler.Begin | examples/modulecsqtt/native/csqtt-engine/dispatcher.rs:122-134 | the slot is always a worker of the snapshot, which is renewed only between chunks of the class being served |
| Scheduler.FastPathScheduler.SyncWorkerCount | examples/modulecsqtt/native/csqtt-engine/dispatcher.rs:174-179 | cursors are reset if and only if the worker count changed |
| Scheduler.CursorMoves | examples/modulecsqtt/native/csqtt-engine/dispatcher.rs:153-170 | stepping the cursor follows the closed form of the slot |
| Scheduler.ServeAll | examples/modulecsqtt/native/csqtt-engine/dispatcher.rs:122-171 | however the classes interleave, the share of each worker depends only on how many packets of the class came |
| Scheduler.WholeLapsAreEven | examples/modulecsqtt/native/csqtt-engine/dispatcher.rs:142-171 | n * chunk * m packets of a class give every worker exactly m * chunk |
| Scheduler.NeverMoreThanOneChunkApart | examples/modulecsqtt/native/csqtt-engine/dispatcher.rs:142-171 | at any moment two workers' shares of a class differ by at most one chunk |
| PacketPool.BudgetIsKept | examples/modulecsqtt/native/csqtt-engine/packet.rs:36-71 | in every interleaving the allocation stays within the limit and covers leased and retained buffers, exactly so between operations; retained buffers stay within min(limit, 2048) |
| PacketPool.EveryBufferInOnePlace | examples/modulecsqtt/native/csqtt-engine/packet.rs:50-112 | no buffer is lost or leased twice: each is in exactly one place |
| PacketPool.LeaseIsNew | examples/modulecsqtt/native/csqtt-engine/packet.rs:50-71 | the buffer a step leases out was in nobody's hands |
| PacketPool.AcquireSucceedsExactly | examples/modulecsqtt/native/csqtt-engine/packet.rs:46-71 | uninterrupted, an acquire succeeds if and only if fewer buffers than the limit are leased, and takes the longest retained one first |
| PacketPool.ReleaseAlone | examples/modulecsqtt/native/csqtt-engine/packet.rs:100-112 | uninterrupted, an intact buffer is retained while there is room; otherwise it is discarded and the allocation goes down by one |
| PacketPool.ShortBuffersAreGone | examples/modulecsqtt/native/csqtt-engine/packet.rs:100-112 | a buffer that comes back short is never leased or retained again, whatever happens later |
| PacketPool.ContinueAccounts | examples/modulecsqtt/native/csqtt-engine/packet.rs:100-112 | each atomic step of an acquire or a release keeps the accounting, including buffers of the wrong length |
| Logging.EveryLineIsInOnePlace | examples/modulecsqtt/native/csqtt-engine/logging.rs:142-162 | each logged line is handed over, held by the writer, queued, dropped or still with its producer, exactly one of these |
| Logging.CountersMatch | examples/modulecsqtt/native/csqtt-engine/logging.rs:142-162 | the outstanding counters are what is in flight and never go below zero; every dropped line is counted |
| Logging.HandedInPushOrder | examples/modulecsqtt/native/csqtt-engine/logging.rs:394-432 | each stream is handed over in push order |
| Logging.SinksShowHandedLines | examples/modulecsqtt/native/csqtt-engine/logging.rs:404-425 | merged repetitions, written out, are exactly the lines handed over while the sink works, and their beginning once it has disabled itself |
| Logging.OvertakenByAtMostOneBurst | examples/modulecsqtt/native/csqtt-engine/logging.rs:392-432 | while the diagnostics wait at most 32 protocol lines are taken before the writer turns to them |
| Logging.OvertakenInProportion | examples/modulecsqtt/native/csqtt-engine/logging.rs:392-432 | a diagnostic with k others before it is overtaken by at most 32 * (k + 1) protocol lines while it waits |
| Logging.ProtocolComesFirst | examples/modulecsqtt/native/csqtt-engine/logging.rs:392-432 | while protocol lines wait, the writer takes one diagnostic for each 32 of them, and one more |
| Logging.MergesTheRun | examples/modulecsqtt/native/csqtt-engine/logging.rs:404-425 | left alone, the writer merges into a diagnostic exactly the equal lines that follow it, up to 64 in all, and keeps the first other one for later |
| Logging.WriterTakesFirst | examples/modulecsqtt/native/csqtt-engine/logging.rs:404-420 | the writer takes the first waiting diagnostic or leaves them alone |
| Logging.AllowanceShrinks | examples/modulecsqtt/native/csqtt-engine/logging.rs:392-432 | every step that takes a protocol line past a waiting diagnostic uses up the burst |
| Logging.NothingInFlightAtZero | examples/modulecsqtt/native/csqtt-engine/logging.rs:169-173 | with both counters at zero every line is handed over or dropped |
| Logging.LostOnlyAsOldest | examples/modulecsqtt/native/csqtt-engine/logging.rs:142-162 | in every run a line is lost only as the oldest waiting one, for another line that stays with its producer, or when its own producer gives up |
| Logging.AloneQueuesTheLine | examples/modulecsqtt/native/csqtt-engine/logging.rs:142-162 | with nobody else at work a line is queued last, in a full stream for the oldest one, and the counters move accordingly |
| Logging.WriterDrains | examples/modulecsqtt/native/csqtt-engine/logging.rs:392-432 | left alone, the writer empties both streams within ten operations a line, with working or failing sinks |
| Logging.ProducePlaces | examples/modulecsqtt/native/csqtt-engine/logging.rs:142-162 | a producer step moves lines between places and creates only a newly logged one |
| TurnStream.DecodesExactlyWellFormed | examples/modulecsqtt/native/csqtt-engine/turn_stream.rs:184-259 | a frame is split off the front if and only if it is a well-formed frame |
| TurnStream.LaterBytesDoNotMatter | examples/modulecsqtt/native/csqtt-engine/turn_stream.rs:184-259 | a decision once made is not changed by bytes that arrive later |
| TurnStream.UndecidedIsShort | examples/modulecsqtt/native/csqtt-engine/turn_stream.rs:163-165 | an undecided buffer is below the hard limit, so that exit is unreachable |
| TurnStream.ParseTiles | examples/modulecsqtt/native/csqtt-engine/turn_stream.rs:184-259 | the frames and the rest are the bytes received, end to end |
| TurnStream.FramesSurviveConcatenation | examples/modulecsqtt/native/csqtt-engine/turn_stream.rs:158-268 | concatenated well-formed frames are read back with exactly their boundaries |
| TurnStream.Reader.TakeFrame | examples/modulecsqtt/native/csqtt-engine/turn_stream.rs:177-211 | one frame is split off; with an empty pool the data is dropped but the boundary kept |
| TurnStream.Reader.ReadFrame | examples/modulecsqtt/native/csqtt-engine/turn_stream.rs:158-175 | the next frame, error or wait is a function of the bytes so far; the hard-limit error never occurs |
| TurnStream.Reader.ReadAll | examples/modulecsqtt/native/csqtt-engine/turn_stream.rs:158-175 | the whole output depends only on the bytes, not on how reads cut them |
| TurnStream.ParseInTwoSteps | examples/modulecsqtt/native/csqtt-engine/turn_stream.rs:158-211 | parsing what arrived first and continuing with the rest equals parsing all at once |
| PacketBuf.Packet.Prepend | examples/modulecsqtt/native/csqtt-engine/packet.rs:152-158 | the range grows at the front inside the headroom, or nothing changes |
| PacketBuf.Packet.SetReadLen | examples/modulecsqtt/native/csqtt-engine/packet.rs:144-150 | a read length places the range behind the headroom, or nothing changes |
| PacketBuf.Packet.SetRange | examples/modulecsqtt/native/csqtt-engine/packet.rs:210-216 | the range is replaced if and only if it is a range inside the buffer |
| PacketBuf.Packet.ExtendTail | examples/modulecsqtt/native/csqtt-engine/packet.rs:160-170 | the range grows at the end inside the buffer, or nothing changes |
| PacketBuf.Packet.TrimFront | examples/modulecsqtt/native/csqtt-engine/packet.rs:172-178 | the front of the contents is dropped, or nothing changes |
| PacketBuf.Packet.Truncate | examples/modulecsqtt/native/csqtt-engine/packet.rs:180-186 | the end of the contents is dropped, or nothing changes |
| PacketBuf.AdjacentWrites | examples/modulecsqtt/native/csqtt-engine/packet.rs:206-208 | two writes side by side are one write of both parts |
| ChannelData.Encode | examples/modulecsqtt/native/csqtt-engine/turn.rs:1524-1558 | framing in place gives channel, length, payload and zero padding, and fails exactly when the channel or the room is wrong |
| ChannelData.Decode | examples/modulecsqtt/native/csqtt-engine/turn.rs:1440-1447 | a packet on our channel is cut down in place to the announced payload |
| ChannelData.EncodedDecodes | examples/modulecsqtt/native/csqtt-engine/turn.rs:1502-1532 | header recognition finds channel and payload of every encoded packet |
| ChannelData.HeaderDescribesWire | examples/modulecsqtt/native/csqtt-engine/turn.rs:1502-1518 | what is recognised has the announced payload inside and at most three bytes behind it |
| Obfs.Wrap | examples/modulecsqtt/native/csqtt-engine/obfs.rs:116-220 | wrapping in place leaves exactly the wire format, takes one sequence, and fails exactly when headroom or tail is short |
| Obfs.Unwrap | examples/modulecsqtt/native/csqtt-engine/obfs.rs:222-303 | succeeds if and only if the wire is authentic for some payload, and then hands out that payload, in place |
| Obfs.UnwrapVideo | examples/modulecsqtt/native/csqtt-engine/obfs.rs:246-273 | the payload is handed out only when the last ten bytes are the truncated MAC of everything before them |
| Obfs.UnwrapAudio | examples/modulecsqtt/native/csqtt-engine/obfs.rs:274-303 | sealed mode in place: padding, then room for the tag, then the authenticated payload |
| Obfs.VideoRoundTrip | examples/modulecsqtt/native/csqtt-engine/obfs.rs:179-198 | keystream mode: unwrapping inverts wrapping for every draw |
| Obfs.AudioRoundTrip | examples/modulecsqtt/native/csqtt-engine/obfs.rs:199-218 | sealed mode: unwrapping inverts wrapping for every draw |
| Obfs.RoundTrip | examples/modulecsqtt/native/csqtt-engine/obfs.rs:116-303 | both modes: the wire is one RTP packet, its length is known, and unwrapping returns payload and sequence |
| Obfs.UnwrapsExactlyTheAuthentic | examples/modulecsqtt/native/csqtt-engine/obfs.rs:222-303 | in both modes: unwrapping yields a payload if and only if the wire is head, authenticated body and padding for exactly that payload |
| Obfs.HeaderFields | examples/modulecsqtt/native/csqtt-engine/obfs.rs:157-177 | all 24 header bytes of a wrapped packet: RTP version, type, sequence, timestamp, source and extension |
| Obfs.FillVideo | examples/modulecsqtt/native/csqtt-engine/obfs.rs:179-198 | encryption, padding and tag land side by side behind the header |
| Obfs.FillAudio | examples/modulecsqtt/native/csqtt-engine/obfs.rs:199-218 | ciphertext, tag and padding land side by side behind the header |
| Obfs.IdealCiphersExist | examples/modulecsqtt/native/csqtt-engine/obfs.rs:95-114 | the laws asked of the ciphers can be met |
| Datagram.Send | examples/modulecsqtt/native/csqtt-engine/turn.rs:485-493 | wrapping and framing one packet in its buffer succeeds exactly when both fit |
| Datagram.Receive | examples/modulecsqtt/native/csqtt-engine/turn.rs:1440-1447 | unframing and unwrapping in place gives what the pure reading of the datagram says |
| Datagram.PacketSurvives | examples/modulecsqtt/native/csqtt-engine/obfs.rs:116-303 | payload and sequence survive wrap, ChannelData encode, decode and unwrap for every payload and draw |
| Delivery.AuthenticateInbound | examples/modulecsqtt/native/csqtt-engine/session.rs:522-532 | a packet is accepted only if it is RTP, authentic and new to the window; anything else leaves the window alone |
| Delivery.AuthenticatedExactly | examples/modulecsqtt/native/csqtt-engine/session.rs:522-532 | exactly when an inbound packet is accepted: RTP, authentic, and taken by the window |
| Delivery.WiresCarrySequences | examples/modulecsqtt/native/csqtt-engine/session.rs:522-532 | over any run the window sees the wires as the sequences the sender numbered them with |
| Delivery.EachPayloadDeliveredOnce | examples/modulecsqtt/native/csqtt-engine/session.rs:507-532 | sender to receiver: whatever is reordered or repeated, as long as each arrival is recoverable, each payload comes out exactly once, while less than a window behind |
| Writer.Allocation.SendConnected | examples/modulecsqtt/native/csqtt-engine/udp_batch.rs:57-73 | partial sends add up to the batch; it succeeds if and only if the socket takes that many datagrams before it fails |
| Writer.Allocation.SendWithDuplicate | examples/modulecsqtt/native/csqtt-engine/turn.rs:485-512 | the datagram goes out exactly when the transport is ready, the frame fits and the socket takes it; the duplicate exactly when it is chosen, over UDP, and the next attempt takes it |
| Writer.Allocation.SendDataBatch | examples/modulecsqtt/native/csqtt-engine/turn.rs:520-571 | everything is framed before anything is sent; what is sent is a prefix, all of it when the transport is ready, everything fits and the socket takes something often enough |
| Writer.TransportWriter.FlushQueuedData | examples/modulecsqtt/native/csqtt-engine/session.rs:620-643 | queued packets reach the wire in order, numbered consecutively, duplicates right behind their primary, and both buffers end empty; when that succeeds and when it cannot |
| Writer.TransportWriter.FlushBatch | examples/modulecsqtt/native/csqtt-engine/session.rs:645-655 | a successful flush sends the whole batch and empties it; it succeeds when everything fits and the socket takes something often enough |
| Writer.TransportWriter.PreparePacket | examples/modulecsqtt/native/csqtt-engine/session.rs:603-613 | an empty packet takes no number; any other takes the next one even when it then fails to wrap |
| Writer.TransportWriter.SendData | examples/modulecsqtt/native/csqtt-engine/session.rs:589-601 | the single-packet path puts the packet and possibly its duplicate on the wire, exactly when nothing about packet, transport or socket prevents it |
| Writer.TransportWriter.FlushThenSendTwice | examples/modulecsqtt/native/csqtt-engine/session.rs:627-634 | a packet sent twice follows everything queued before it |
| Writer.PrimariesInOrder | examples/modulecsqtt/native/csqtt-engine/session.rs:620-643 | read off the wire, the primaries are the packets in order, each once |
| Writer.DuplicatesFollowTheirPrimary | examples/modulecsqtt/native/csqtt-engine/session.rs:626-632 | every duplicate stands right behind its primary |
| Writer.SequencesStayConsecutive | examples/modulecsqtt/native/csqtt-engine/obfs.rs:87-93 | wire sequences stay consecutive modulo 2^16 even where the 64-bit count wraps |
| Writer.WiresJoin | examples/modulecsqtt/native/csqtt-engine/session.rs:620-655 | successive flushes continue one numbering |
| WriterLanes.NextWriterPacket | examples/modulecsqtt/native/csqtt-engine/session.rs:1206-1229 | the first packet comes from the most urgent lane that has one |
| WriterLanes.ExtendsUnlessMoreUrgentWaits | examples/modulecsqtt/native/csqtt-engine/session.rs:1169-1180 | a batch may be extended if and only if no more urgent lane has a packet |
| WriterLanes.GatherBatch | examples/modulecsqtt/native/csqtt-engine/session.rs:1135-1165 | a batch is a first-in-first-out prefix of one lane, ends for one of three reasons, and is alone when something more urgent waits |
| WriterLanes.SendWriterBatch | examples/modulecsqtt/native/csqtt-engine/session.rs:1135-1167 | the gathered batch goes out in its lane's order, numbered consecutively; when that succeeds |
| WriterLanes.HandleCommand | examples/modulecsqtt/native/csqtt-engine/session.rs:1182-1193 | a command goes to the wire under the next number, fails before taking one exactly when it gets no buffer, is too long or is empty, and is done exactly when nothing prevents it |
| WriterLanes.Round | examples/modulecsqtt/native/csqtt-engine/session.rs:1088-1131 | a waiting command is answered and the lanes are left alone; otherwise a batch that starts with the most urgent packet goes out, unless every lane is empty |
| WriterLanes.WriterLoop | examples/modulecsqtt/native/csqtt-engine/session.rs:1074-1133 | every round does its work: each command gets its answer, in order, and a round without one sends a batch unless every lane is empty; the wire carries all that in order under one numbering that skips a number exactly for each command failed after taking one; it ends early only over a batch that something keeps from going through |
| WriterLanes.ConsecutiveExactly | examples/modulecsqtt/native/csqtt-engine/session.rs:1074-1133 | the wire numbers its packets consecutively if and only if before each the number of skipped numbers is a multiple of 2^16; in particular whenever no command failed after taking its number |
| WriterLanes.CarriedInOrder | examples/modulecsqtt/native/csqtt-engine/session.rs:1074-1133 | read off the wire, the primaries are the logged packets in order, each once and under its own number |
| WriterLanes.CarriedDuplicatesFollow | examples/modulecsqtt/native/csqtt-engine/session.rs:626-632 | over whole runs, too, every duplicate stands right behind its primary |
| WriterLanes.CarriesJoin | examples/modulecsqtt/native/csqtt-engine/session.rs:1074-1133 | successive rounds continue one numbering |
| Repair.RepairState.ApplyRepair | examples/modulecsqtt/native/csqtt-engine/repair.rs:83-116 | exactly the named slots see the command, field by field, a worker named twice restarts once, and both totals count the workers concerned |
| Repair.RepairState.ApplyAlive | examples/modulecsqtt/native/csqtt-engine/repair.rs:118-131 | exactly the named slots raise their ready sequence |
| Repair.RepairState.MarkReady | examples/modulecsqtt/native/csqtt-engine/repair.rs:75-81 | a known worker's ready sequence becomes its newest repair sequence |
| Repair.RepairState.ApplyToSlot | examples/modulecsqtt/native/csqtt-engine/repair.rs:89-114 | one uninterrupted command on one slot: which of its four fields moves, and when |
| Repair.RestartsCountRecords | examples/modulecsqtt/native/csqtt-engine/repair.rs:90-112 | the restart generation is the number of times the repair sequence reached a new maximum |
| Repair.ResetsExactlyWhenSilent | examples/modulecsqtt/native/csqtt-engine/repair.rs:102-106 | credentials are reset if and only if, since the previous accepted repair, the worker was neither marked ready nor reported alive for it |
| Repair.CredentialsCountSilences | examples/modulecsqtt/native/csqtt-engine/repair.rs:102-106 | over any history the credential generation is the number of accepted repairs that found the worker silent |
| Repair.RunTrace | examples/modulecsqtt/native/csqtt-engine/repair.rs:75-131 | the slot itself, over a whole history of commands, is what the history says, and restarts once for each new maximum |
| Repair.ReadyReaches | examples/modulecsqtt/native/csqtt-engine/repair.rs:75-131 | what the ready mark says about the commands seen |
| RepairRace.EachSequenceAcceptedOnce | examples/modulecsqtt/native/csqtt-engine/repair.rs:90-112 | in every compare-and-exchange interleaving the accepted sequences strictly increase |
| RepairRace.GenerationCountsAccepted | examples/modulecsqtt/native/csqtt-engine/repair.rs:90-112 | in every interleaving the restart generation counts the accepted repairs |
| RepairRace.NoRepairIsLost | examples/modulecsqtt/native/csqtt-engine/repair.rs:90-112 | a finished command leaves the slot at its sequence or beyond |
| RepairRace.CredentialsCountSilentRepairs | examples/modulecsqtt/native/csqtt-engine/repair.rs:90-112 | in every interleaving each accepted repair decides once, against the sequence accepted right before it, and the credential generation counts those that found a ready mark below that one |
| RepairRace.WonDecides | examples/modulecsqtt/native/csqtt-engine/repair.rs:102-106 | what an accepted repair compares when it decides about the credentials |
| RepairRace.AloneIsSequential | examples/modulecsqtt/native/csqtt-engine/repair.rs:89-114 | uninterrupted, the atomic operations of a command do what the command as a whole does |
| Idle.ActiveExactlyWhileKept | examples/modulecsqtt/native/csqtt-engine/idle.rs:208-238 | active if and only if a keep is in force, and then limit and declared count are that keep, below the total |
| Idle.ChangesAreAnnounced | examples/modulecsqtt/native/csqtt-engine/idle.rs:208-238 | every change of declared count or epoch outside a reset moves the announce counter |
| Idle.OffsetGoesBackExactly | examples/modulecsqtt/native/csqtt-engine/idle.rs:208-219 | outside a reset the epoch goes back only when an enter wraps the 64-bit counter |
| Idle.BurstOpensOneEpoch | examples/modulecsqtt/native/csqtt-engine/idle.rs:120-152 | after any orderly history a burst of losses opens exactly one new epoch, if one of the lost workers had joined the current one |
| Idle.OrderlyMarksStayBehind | examples/modulecsqtt/native/csqtt-engine/idle.rs:102-152 | histories whose registrations use epochs read since the last reset, without wrap, mark no worker ahead |
| Idle.OneEpochPerBurstExactly | examples/modulecsqtt/native/csqtt-engine/idle.rs:120-152 | in any state, no burst opens more than one epoch if and only if no two workers that may run are marked with the current epoch and the next |
| Idle.StaleJoinOpensTwoEpochs | examples/modulecsqtt/native/csqtt-engine/idle.rs:90-113 | a registration read before a reset and stored after it, and the burst that then opens two epochs |
| Idle.MarkedExactly | examples/modulecsqtt/native/csqtt-engine/idle.rs:90-152 | over any history a worker is marked with an epoch if and only if a registration under it stands: no reset, other registration or opening loss of that worker came since |
| Idle.LossOpensExactly | examples/modulecsqtt/native/csqtt-engine/idle.rs:120-152 | over any history: a loss opens an epoch if and only if the worker may run and its standing registration is for the current one, but for the saturated mark |
| Idle.MarksStayBehind | examples/modulecsqtt/native/csqtt-engine/idle.rs:105-113 | one operation of an orderly history marks no worker with an epoch to come |
| Idle.Engine.NotePathLost | examples/modulecsqtt/native/csqtt-engine/idle.rs:120-152 | a lost path moves epoch and announce counter and clears its mark exactly when it was marked with the current epoch and may run; otherwise nothing changes |
| Idle.Engine.NotePathJoined | examples/modulecsqtt/native/csqtt-engine/idle.rs:105-113 | a known worker is marked with the epoch it registered under |
| Idle.Engine.ResetAll | examples/modulecsqtt/native/csqtt-engine/idle.rs:90-101 | a reset unparks everything and forgets every registration |
| Idle.Engine.ExitIdle | examples/modulecsqtt/native/csqtt-engine/idle.rs:228-238 | leaving idle restores limit and declared count, once |
| Idle.Engine.EnterIdle | examples/modulecsqtt/native/csqtt-engine/idle.rs:208-219 | entering sets limit and declared count and opens an epoch exactly when the engine is not idle and has more workers than keepers |
| IdleRace.OneOpeningPerEpoch | examples/modulecsqtt/native/csqtt-engine/idle.rs:135-145 | in every interleaving two openings from the same epoch are a whole 64-bit round apart |
| IdleRace.EpochCountsOpenings | examples/modulecsqtt/native/csqtt-engine/idle.rs:120-152 | in every interleaving the epoch is the number of openings modulo 2^64 and moves by single steps |
| IdleRace.LossesAreBacked | examples/modulecsqtt/native/csqtt-engine/idle.rs:102-152 | every epoch opened by a loss is backed by a registration of that worker under the epoch it left |
| IdleRace.SaturatedMarkMisleads | examples/modulecsqtt/native/csqtt-engine/idle.rs:105-113 | a run in which the only registration, under the last epoch, backs a loss in the last but one |
| IdleRace.LossAloneIsWhole | examples/modulecsqtt/native/csqtt-engine/idle.rs:120-152 | uninterrupted, the atomic operations of a loss do what the loss as a whole does |
| IdleRace.EnterAndExitAreWhole | examples/modulecsqtt/native/csqtt-engine/idle.rs:208-238 | entering and leaving idle, too, do here what they do as a whole |
| IdleRace.JoinAloneIsWhole | examples/modulecsqtt/native/csqtt-engine/idle.rs:105-113 | so does a registration, under the epoch it has read |
| Stun.Decode | examples/modulecsqtt/native/csqtt-engine/stun_codec.rs:37-87 | succeeds if and only if header and attributes are well formed; otherwise the first fault, header checks in order, is reported |
| Stun.HeadersAreNeverCutShort | examples/modulecsqtt/native/csqtt-engine/stun_codec.rs:63-66 | the truncated attribute header error cannot occur |
| Stun.ParsesUnlessCutShort | examples/modulecsqtt/native/csqtt-engine/stun_codec.rs:62-79 | a body parses if and only if no attribute is cut short |
| Stun.DecodesExactlyTheFormat | examples/modulecsqtt/native/csqtt-engine/stun_codec.rs:37-87 | a datagram decodes if and only if it is the serialisation of some message (sections 5 and 14 of RFC 8489) |
| Stun.SerializedDecodes | examples/modulecsqtt/native/csqtt-engine/stun_codec.rs:37-87 | encoding and decoding returns type, transaction and attributes |
| Stun.ParsedTiles | examples/modulecsqtt/native/csqtt-engine/stun_codec.rs:62-79 | the attributes tile the body exactly |
| Stun.ParseReadsBack | examples/modulecsqtt/native/csqtt-engine/stun_codec.rs:62-79 | every attribute list is read back from its serialisation |
| Stun.Attributes.Next | examples/modulecsqtt/native/csqtt-engine/stun_codec.rs:147-164 | each step yields the next attribute with its true ranges, inside the datagram, and moves on by its length |
| Stun.Iterate | examples/modulecsqtt/native/csqtt-engine/stun_codec.rs:144-165 | iteration ends and yields the decoded attributes in order, end to end, with 0x8020 read as 0x0020 |
| Stun.TypeFromParts | examples/modulecsqtt/native/csqtt-engine/stun_codec.rs:95-107 | class and method determine the 14-bit type |
| Stun.PartsFromType | examples/modulecsqtt/native/csqtt-engine/stun_codec.rs:95-107 | the type determines class and method |
| Stun.KnownTypes | examples/modulecsqtt/native/csqtt-engine/stun_codec.rs:95-107 | the standard's own types have their classes and methods |
| DnsCache.Store.RememberLocked | shared/dns/dns_resolver.go:216-236 | the eviction walk removes the first expired entry, else the first named one, in any iteration order, and only from a full cache that does not know the host |
| DnsCache.FindEvicted | shared/dns/dns_resolver.go:220-229 | the walk finds the first expired entry, else the first named one |
| DnsCache.RemembersExactly | shared/dns/dns_resolver.go:216-236 | the cache afterwards, host by host: only a full cache that does not know the host loses one, the first expired met or, without any, the first named |
| DnsCache.GrowsPastTheLimitExactly | shared/dns/dns_resolver.go:216-236 | a full cache grows if and only if the host is new and the first expired entry is the one under the empty name |
| DnsCache.EmptyNameOverflows | shared/dns/dns_resolver.go:218-234 | a cache that takes a 257th entry |
| DnsCache.NamedHostsStayBounded | shared/dns/dns_resolver.go:216-236 | without the empty name the cache keeps its limit |
| DnsResolver.OneQueryPerHost | shared/dns/dns_resolver.go:172-204 | in every interleaving at most one query per host is out |
| DnsResolver.WaitersAreReleased | shared/dns/dns_resolver.go:177-189 | a waiter's channel is closed, or the thread that will close it is the one querying for the waiter's own host |
| DnsResolver.AnswerWakesWaiter | shared/dns/dns_resolver.go:177-204 | once the query for a waiter's host is back, two steps of its thread let the waiter go on |
| DnsResolver.WokenIsServed | shared/dns/dns_resolver.go:181-189 | a woken waiter is given what the cache then holds, if that has not expired, and fails otherwise |
| DnsResolver.AnswerReleasesWaiters | shared/dns/dns_resolver.go:194-204 | once the query is back its thread releases the waiters in two steps |
| DnsResolver.ServedFromOwnQueryInTime | shared/dns/dns_resolver.go:172-204 | what the cache serves came from a query for that host and has not expired |
| DnsResolver.UnexpiredIsServedAtOnce | shared/dns/dns_resolver.go:172-193 | an unexpired entry is given out at once and nothing else changes; otherwise the lookup waits for the query that is out, or sends one |
| DnsResolver.LookupStoresItsAnswer | shared/dns/dns_resolver.go:172-236 | an undisturbed lookup asks once and stores its answer |
| DnsResolver.AnswerLastsItsTime | shared/dns/dns_resolver.go:172-236 | a lookup d seconds later is given that answer without another query if and only if d is below 60, or below 15 when there was none |
| DnsResolver.CacheStaysBounded | shared/dns/dns_resolver.go:216-236 | as long as nobody looks up the empty name the cache holds at most 256 entries |
| DnsResolver.CacheIsCurrent | shared/dns/dns_resolver.go:122-134 | over a whole run in which no server list arrives while a query is out, the cache holds only answers of the current list |
| DnsResolver.NewListIsSafeExactly | shared/dns/dns_resolver.go:122-134 | at any moment of any run: a new list keeps the old servers' answers out of the cache if and only if no query is out when it arrives |
| DnsResolver.OldAnswerOutlivesItsServers | shared/dns/dns_resolver.go:122-134 | a run in which an answer from the previous servers is cached after the list was replaced |

## Left out

- EpochQueue.DeliveredInItsOwnEpoch: equality of epochs is stated below 2^63 resumes, and modulo 2^63 in general, because the epoch field has 63 bits.
- ReplayWindow.EachPacketDeliveredOnce: covers the runs whose arrivals are recoverable from 16 bits; on any other run the code itself widens some arrival to another counter, as `TracksExactly` proves.
- Obfs.Unwrap: does not say what an audio packet holds after a failed authentication, because the cipher library leaves it open and the caller drops the packet.
- Dispatch.Lanes.DispatchNow: one dispatch is one uninterrupted operation; lanes that change while it runs are covered only by the queue's own model.
- PacketQueue.Queue.Send: wake-ups of a waiting receiver are not modelled; neither are fair schedules and cancellation anywhere: what gets done is stated for operations left undisturbed.
- WriterLanes.WriterLoop: packets that others push while a batch is gathered are modelled; evictions from the lanes meanwhile, and the cancellation that ends the loop, are not.
- Writer.TransportWriter.FlushQueuedData: the decision to duplicate is an arbitrary function of the packet and its number; the budget behind it is not part of this model.
- Logging.CountersMatch: the producers' admission at shutdown, flush requests and the 4096-byte bound of a line are not modelled.
- IdleRace.OneOpeningPerEpoch: `enter`, `exit` and the registration's store are single steps; resets are covered by `Idle` only, one operation at a time.
- DnsResolver.OneQueryPerHost: IP literals, which return at once, and the system resolver used without servers are not modelled; what one query asks of which server is a parameter.
- The lock of the DNS resolver makes each stay under it one step that sees one reading of the clock.
- STUN fingerprints, and message building outside the decoder's format.
- The classification of packets, the return path's flow reassembly and forward framing, the tunnel devices, sockets, TLS, timers and the rest of the TURN control plane.
- VK authentication, captcha, browser profiles, name generation, lifecycle and build scripts.
- Batch-limit adaptation, worker-count normalisation, URI and command parsing, stall and timeout counting: one-function members with nothing to relate.
