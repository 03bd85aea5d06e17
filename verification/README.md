# simple-dcc, verified

This project models the logic of the simple-dcc command station that runs without hardware, and proves what the
firmware relies on: what goes out on the track for a packet, who may reply to an LCC request, who owns which packet,
which node may claim an alias, what a consist does with a throttle command, when power may come back. Everything is
stated for all inputs, or for every run of the tasks involved in any interleaving; nothing is executed.

One module stands for one source file or one property that spans several:

| module | what it models |
|---|---|
| `Bits`, `Wrappers` | fixed-width unsigned integers, bytes in words, 32-bit wrap-around; an optional value |
| `Packet`, `Pio`, `Wavegen` | packet encoding; a small interpreter of the PIO instruction set (RP2350 datasheet, section 11.4) with the wavegen program; the DCC waveform it puts on the track |
| `PriorityQueue`, `PacketFlow` | the packet scheduler's heap, and the ownership of packets along the whole pipeline |
| `Functions`, `Dcc` | function groups, the loco table, emergency stops and the reminder loop |
| `Datagram`, `Memconfig`, `Deferred`, `PomRead` | LCC datagrams, memory configuration requests, the deferred-request slot shared by two tasks, reading a CV on the main |
| `AliasSequence`, `Alias` | alias candidates, and the allocation protocol of all nodes |
| `Traction`, `CvSpace` | traction commands and consists; a train's CV memory space |
| `SvcAck`, `SvcCv` | the service-mode acknowledgment detector, and reading and writing CVs with it |
| `Float16`, `GridConnect`, `TrainSearch` | codecs |
| `Motor` | track power |

Conventions. Pointers into static arrays are indices. Code that updates structures in place is a class whose methods
are proved against functions on values, and the functions are what the theorems speak about. Concurrent tasks are
state machines whose actions are the tasks' single steps: atomic loads and stores for the deferred slot, critical
sections for track power, sections under the engine mutex for the DCC engine, queue operations for the packet
pipeline. A theorem over a list of actions holds for every interleaving, since an action that is not enabled does
nothing. Unsigned C arithmetic that can wrap is written out (`Wrap`, `% 0x100`, `% 0x1_0000`). Callbacks, the current
sensor, the clock, queue acceptance, and a decoder's answers are parameters.

Where the code and its comments differ, the model follows the code. Each case has its exact condition and an input
that shows it:

- `src/wavegen/wavegen.pio:9` says that idle packets go out while the FIFO is empty. That holds at a frame's pull; a
  packet whose second word is late holds the pin high until it comes. The waveform is exact if and only if the word
  makes its deadline, at least 3.7 ms after the pull (`Wavegen.LateWord`); `Wavegen.LateExample` is a host that misses it.
- `src/servicemode/svc_ack.c:35-36` promises baseline plus floor for a short baseline. With a floor of zero it can be
  up to three raw units more: it holds if and only if the floor is not zero or the number of samples divides their sum
  (`SvcAck.ShortBaseline`). The baseline 0, 1 shows it (`SvcAck.ShortBaselineOff`).
- `src/servicemode/svc_ack.c:31-33` sums the baseline in 32 bits; the mean is right if and only if the sum fits
  (`SvcAck.MeanExact`). 65538 samples at full scale do not (`SvcAck.MeanOff`).
- `src/lcc/lcc_alias.c:104-111`: a node that gives up stays in conflict and lets the lock go again on every later
  tick. Mutual exclusion holds in a run if and only if no node gives up (`Alias.MutualExclusion`); `Alias.GivenUpBreaks`
  is a run in which one does and two others end up allocating at once.
- `src/lcc/lcc_memconfig.c:480-483` compares a 32-bit sum; the bound is right if and only if the sum does not wrap
  (`Memconfig.InBoundsExact`). Address 0xFFFFFFF0 with 0x20 bytes shows it (`Memconfig.InBoundsOff`).
- `src/lcc/lcc_traction.c:33` describes a four-byte CV index, but the register keeps 16 bits: a larger number selects
  its low half (`CvSpace.IndexThenValue`). The number 0x10001 selects CV1 (`CvSpace.IndexTooLarge`).

## Model

| member | source | states |
|---|---|---|
| `Packet.ChecksumCancels` | src/dcc/packet.c:70-77 | a last byte leaves every bit set in an even number of the packet's bytes, which is what a decoder checks, if and only if it is the checksum |
| `Packet.ChecksumBits` | src/dcc/packet.c:70-77 | each bit of the checksum is set if and only if an odd number of the packet's bytes have it set |
| `Packet.EncodedBytes` | src/dcc/packet.c:79-112 | the encoded words hold the count of the bytes that follow, the packet's bytes, a byte with the bits set that an odd number of them have, and zeros |
| `Packet.PackBytes` | src/dcc/packet.c:89-112 | the word loop yields byte count, bytes and checksum, four to a word from the top, the last word filled with zeros |
| `Packet.PacketPool.Alloc` | src/dcc/packet.c:16-31 | allocation resets and claims the first free slot and touches no other; it fails exactly if none is free |
| `Packet.PacketPool.Free` | src/dcc/packet.c:33-38 | freeing clears one in-use flag |
| `Packet.PacketPool.AddChecksum` | src/dcc/packet.c:70-77 | appends the XOR of the packet's bytes |
| `Packet.PacketPool.Encode` | src/dcc/packet.c:89-112 | encoding seals the packet in place and returns its words |
| `Bits.PackedByte` | src/dcc/packet.c:79-112 | byte m of a packet is byte m % 4 of word m / 4, so a shift-left reader gets the bytes in order |
| `Wavegen.OneBit` | src/wavegen/wavegen.pio:50-63 | one turn of the bit loop completes a high half-wave and emits a low one, 29 cycles each for a one and 58 for a zero, the high one longer by just as many cycles as it was held before |
| `Wavegen.OneByte` | src/wavegen/wavegen.pio:50-64 | eight bits, the highest first |
| `Wavegen.Body` | src/wavegen/wavegen.pio:46-68 | every byte goes out behind a zero separator, whatever the byte count |
| `Wavegen.Preamble` | src/wavegen/wavegen.pio:21-25 | the preamble loop emits its ones with exact half-waves |
| `Wavegen.BuildIdle` | src/wavegen/wavegen.pio:30-37 | the default pull value is the encoded idle packet |
| `Wavegen.OneFrame` | src/wavegen/wavegen.pio:19-76 | from any frame boundary the machine takes the next packet, or idle exactly if nothing is waiting; if the packet's second word makes its deadline, it emits exactly that frame, takes all its words and returns to a boundary, so a partial last word never displaces the next packet |
| `Wavegen.LateWord` | src/wavegen/wavegen.pio:50-63 | a second word that comes `late` cycles after its deadline makes the half-wave it is waited for in exactly that much longer, and nothing before it; the word is in time if and only if `late` is zero |
| `Wavegen.LateExample` | src/wavegen/wavegen.c:109-121 | a host whose first packet's second word is late by any number of cycles, for any such packet |
| `Wavegen.PacedIsPrompt` | src/wavegen/wavegen.c:109-121 | a host that puts each packet's words within 1859 cycles of each other meets the stream's condition without looking at the FIFO |
| `Wavegen.StreamOfPackets` | src/wavegen/wavegen.pio:19-76 | for every stream of packets of one to five bytes from a host that stops between packets as long as it likes, but puts the rest of a packet it has begun within 3.7 ms of the FIFO running empty, the pin carries exactly the frames' waveform; the frames carry a prefix of the stream, none lost, repeated or cut; idle frames go out exactly when nothing is waiting; each frame's first word is reported |
| `Wavegen.FrameReceived` | src/wavegen/wavegen.pio:4-13 | a receiver that reads half-waves as NMRA S-9.2 says gets back the packet's bytes and one more, with which every bit is set in an even number of bytes |
| `PriorityQueue.SiftUpOrders` | src/queue/priority_queue.c:11-20 | sifting up restores heap order and permutes |
| `PriorityQueue.SiftDownOrders` | src/queue/priority_queue.c:22-43 | sifting down restores heap order and permutes |
| `PriorityQueue.TopIsHighest` | src/queue/priority_queue.c:69-89 | in an ordered heap nothing outranks the top |
| `PriorityQueue.PushOrders` | src/queue/priority_queue.c:55-63 | a push keeps heap order and adds exactly the packet |
| `PriorityQueue.RemoveOrders` | src/queue/priority_queue.c:45-53 | removing the top keeps heap order and removes exactly the top |
| `PriorityQueue.PushSound` | src/queue/priority_queue.c:55-63 | a push keeps the queue sound, also when the heap is full and the packet is freed |
| `PriorityQueue.PopUsesOne` | src/queue/priority_queue.c:69-89 | popping lowers the sum of (repeats + 1) by exactly one |
| `PriorityQueue.PopSound` | src/queue/priority_queue.c:69-89 | a pop fails if and only if the heap is empty or a copy is needed and the pool has none; a successful one yields a packet of the highest priority, keeps order and uses up exactly one copy; a failed one changes nothing |
| `PriorityQueue.CopiesTogether` | src/queue/priority_queue.c:66-89 | once a packet has come out, all its remaining copies come out on consecutive successful pops, over any run in which nothing of higher priority is pushed |
| `PriorityQueue.PQueue.SiftUpItem` | src/queue/priority_queue.c:11-20 | the in-place loop computes the specified sift |
| `PriorityQueue.PQueue.SiftDownItem` | src/queue/priority_queue.c:22-43 | the in-place loop computes the specified sift |
| `PriorityQueue.PQueue.PushPacket` | src/queue/priority_queue.c:55-63 | pushes, or frees the packet if the heap is full |
| `PriorityQueue.PQueue.PopPacket` | src/queue/priority_queue.c:69-89 | removes the last copy, or allocates a copy and counts down, or fails without effect |
| `PriorityQueue.PQueue.ContainsPacket` | src/queue/priority_queue.c:91-100 | finds a queued packet with the same address and bytes |
| `PacketFlow.StepSort` | src/queue/priority_queue.c:110-117 | pushing or dropping a duplicate keeps every packet with exactly one holder |
| `PacketFlow.StepPop` | src/queue/priority_queue.c:119-127 | popping a last copy, popping an earlier copy into a fresh packet and failing for want of one keep every packet with exactly one holder |
| `PacketFlow.StepSend` | src/dcc/dcc.c:142-147 | queueing, or freeing when the queue is full, keeps every packet with exactly one holder |
| `PacketFlow.StepKeeps` | src/queue/priority_queue.c:106-132 | every step of every task keeps the books |
| `PacketFlow.OneHolderEach` | src/wavegen/wavegen.c:123-133 | in every interleaving of producers, scheduler and wavegen task each packet in use has exactly one holder and each free packet none: nothing leaks, is freed twice or is shared |
| `PacketFlow.SortExact` | src/queue/priority_queue.c:110-117 | a packet with an address and bytes that no waiting packet has is added to the heap if there is room; any other is freed; nothing else changes |
| `PacketFlow.SentStays` | src/queue/priority_queue.c:106-132 | over any run, a packet sent is in the pipeline as its producer filled it in, until it is a duplicate, finds a queue or the heap full, or has been handed to the wavegen task |
| `PacketFlow.OutputInOrder` | src/wavegen/wavegen.c:123-133 | the wavegen task receives the packets queued for it in order, each once |
| `Functions.GroupAgrees` | src/dcc/functions.c:3-69 | a group's instruction sets a decoder's functions of that group to the engine's and leaves the others alone, for each of the ten groups |
| `Dcc.DoKeeps` | src/dcc/dcc.c:28-76 | every command keeps active addresses distinct and functions of groups never changed all off |
| `Dcc.ThrottleStores` | src/dcc/dcc.c:149-180 | if the table has the loco or room for it, exactly its row gets the commanded step, and exactly one packet with that step goes to it unless the hold is on; with a full table nothing happens |
| `Dcc.FunctionStores` | src/dcc/dcc.c:196-225 | exactly the commanded function of that loco is switched as commanded, and its group is marked if and only if that is a change |
| `Dcc.StopStores` | src/dcc/dcc.c:232-256 | exactly one packet with the emergency stop step goes to the train in its own direction; its stored speed becomes zero in that direction and no other row changes |
| `Dcc.OthersStore` | src/dcc/dcc.c:258-279 | the global stop broadcasts once and holds until cleared; entering and forgetting a loco change its row alone |
| `Dcc.ReminderMeans` | src/dcc/dcc.c:345-448 | an active loco's reminder is its stored speed, or the stop step with its direction under the hold, in the first state, and in every other state its function group if that was ever changed |
| `Dcc.HeldStaysStopped` | src/dcc/dcc.c:149-463 | in any interleaving, every speed packet queued while the global stop is held, by a command or by the reminder loop, carries the emergency stop step |
| `Dcc.TrainStaysStopped` | src/dcc/dcc.c:232-256 | after a train's emergency stop no running speed for it is queued until its next throttle command |
| `Dcc.HoldKeepsSpeeds` | src/dcc/dcc.c:258-279 | setting and clearing the hold leaves the loco table as it is |
| `Dcc.ReleaseRestores` | src/dcc/dcc.c:345-463 | a speed pass with no hold queues every active loco's stored speed, whatever commands run beside it |
| `Dcc.CycleAgrees` | src/dcc/dcc.c:345-463 | from any state of the loop, one full cycle brings a decoder that starts all off to agree on speed and on F0 to F68 |
| `Dcc.Engine.FindOrCreate` | src/dcc/dcc.c:28-56 | finds the loco, takes the first free row for it, or reports a full table |
| `Dcc.Engine.SetThrottle` | src/dcc/dcc.c:149-180 | stores the speed and sends it unless the hold is on |
| `Dcc.Engine.SwitchFunction` | src/dcc/dcc.c:196-225 | changes one function and marks its group if it did change |
| `Dcc.Engine.EmergencyStop` | src/dcc/dcc.c:232-256 | zeroes the stored speed, keeping the direction, and sends the emergency stop step |
| `Dcc.Engine.Update` | src/dcc/dcc.c:450-463 | one pass sends exactly the reminders of the current state, as far as pool and queue take them, and moves to the next state |
| `Dcc.KeptOne` | src/dcc/dcc.c:142-147 | a packet is queued if and only if the pool and the queue have room for it at its turn |
| `Dcc.KeptAll` | src/dcc/dcc.c:142-147 | with room throughout, all packets are queued in order |
| `Dcc.Engine.EmergencyStopAll` | src/dcc/dcc.c:258-273 | sets the hold and sends the broadcast stop |
| `Dcc.Engine.ClearEmergencyStopAll` | src/dcc/dcc.c:275-279 | lets the hold go and sends nothing |
| `Datagram.CanIdFields` | src/lcc/lcc_datagram.c:42-83 | a datagram frame's CAN ID gives back its type and both aliases |
| `Datagram.Node.HandleFrame` | src/lcc/lcc_datagram.c:119-179 | each frame changes the buffer as specified, and each completed datagram is answered once, OK or Rejected |
| `Datagram.Reassembly` | src/lcc/lcc_datagram.c:161-178 | over any frames from any senders, a FINAL delivers exactly if it ends a whole datagram of its sender of at most 72 bytes, and delivers exactly that |
| `Datagram.OtherFrames` | src/lcc/lcc_datagram.c:126-159 | a ONE is its own datagram; FIRST and MIDDLE deliver nothing |
| `Datagram.RejectedExactly` | src/lcc/lcc_datagram.c:145-178 | a frame is rejected as out of order if and only if it is a MIDDLE or FINAL whose sender has no datagram in flight, and for good if and only if it would make that one too long |
| `Datagram.AnsweredOnce` | src/lcc/lcc_datagram.c:85-111 | a datagram that ends is answered once and to its sender, with OK and the protocol's flags if and only if it is whole, not empty and the protocol takes it |
| `Datagram.Send` | src/lcc/lcc_datagram.c:42-83 | the frames carry the payload in order, as ONE, or as FIRST, MIDDLEs and FINAL |
| `Datagram.FragmentsArrive` | src/lcc/lcc_datagram.c:42-179 | a datagram sent in fragments arrives whole, after any history and with other senders' MIDDLE and FINAL frames in between, if and only if it has at most 72 bytes |
| `Datagram.NothingElseArrives` | src/lcc/lcc_datagram.c:119-179 | meanwhile nothing else is delivered |
| `Memconfig.SpaceFound` | src/lcc/lcc_memconfig.c:41-57 | the space found is the first with that ID in the node's own table, or else in the global one, or none if neither has it |
| `Memconfig.RequestParses` | src/lcc/lcc_memconfig.c:240-271 | for any space tables, a request that is encoded and parsed comes back as it was, or is turned down for the first thing that is wrong with it |
| `Memconfig.AcceptedAsAsked` | src/lcc/lcc_memconfig.c:240-271 | every accepted datagram encodes the request it is taken for, but for bytes after a read's count |
| `Memconfig.ReplyMatchesRequest` | src/lcc/lcc_memconfig.c:90-122 | a requester that decodes a reply finds its own address, space and direction, and the error or the data |
| `Memconfig.InBoundsExact` | src/lcc/lcc_memconfig.c:480-483 | the in-bounds count is right if and only if address plus count does not wrap |
| `Memconfig.InBoundsOff` | src/lcc/lcc_memconfig.c:480-483 | an address, count and size for which the bound lets through more than the space holds |
| `Memconfig.ReadsMemory` | src/lcc/lcc_memconfig.c:428-447 | from a memory a read brings the bytes at its address, as many as it asks for, the memory has and a reply takes |
| `Memconfig.WritesMemory` | src/lcc/lcc_memconfig.c:485-498 | in a memory a write puts the bytes taken at its address and behind it and changes nothing else, however the handler splits it up |
| `Memconfig.WriteAnswer` | src/lcc/lcc_memconfig.c:485-502 | a write is answered without an error if and only if every byte was taken and the handler found no fault in the end |
| `Memconfig.EveryByteOnce` | src/lcc/lcc_memconfig.c:485-498 | whatever a write handler answers, the bytes it takes are the request's first bytes, in order and each once |
| `Memconfig.Service.SendReply` | src/lcc/lcc_memconfig.c:90-122 | fills the reply datagram as specified, at most 72 bytes |
| `Memconfig.Service.StartDeferred` | src/lcc/lcc_memconfig.c:149-183 | claims the slot without a reply if and only if the address is in bounds, the slot is free and the hook takes the request; otherwise sends exactly one reply, with the reason |
| `Memconfig.Service.Complete` | src/lcc/lcc_memconfig.c:185-197 | stores a result in a pending slot and ignores any other completion |
| `Memconfig.Service.FlushDeferred` | src/lcc/lcc_memconfig.c:199-207 | replies once for a finished slot and frees it |
| `Memconfig.Service.HandleRead` | src/lcc/lcc_memconfig.c:415-459 | one reply, or a claimed slot, for every read; a deferred one is accepted if and only if it is in bounds, finds the slot free and the hook takes it |
| `Memconfig.Service.HandleWrite` | src/lcc/lcc_memconfig.c:463-503 | a space that cannot write defers; for any other the loop ends for any handler, offers each byte until taken, and sends one reply whose error says whether all of it was |
| `Deferred.StepHolds` | src/lcc/lcc_memconfig.c:149-207 | every single load, store and group of field writes of either task keeps the invariant |
| `Deferred.ExactlyOneReply` | src/lcc/lcc_memconfig.c:149-207 | in every interleaving, replies sent plus one if the slot is taken equal the requests accepted; none is answered twice, and each reply is its own request's: the result of its own read if it was read, else out of bounds exactly if its address is, or temporary or unimplemented |
| `Deferred.FateOfRequest` | src/lcc/lcc_memconfig.c:149-183 | after any run a request was turned away, with the error that says why, if it was out of bounds, found the slot taken, or its hook found the RailCom task off or busy; and if none of that happened it holds the slot or has been replied to with its own result |
| `Deferred.TakenUp` | src/lcc/lcc_memconfig.c:149-183 | an in-bounds request that comes while the slot is free and the RailCom task on and not busy gets the slot after three steps of the LCC task and holds it after six, with no reply, however the tasks interleave |
| `Deferred.FinishedIsTold` | src/lcc/lcc_memconfig.c:199-207 | the LCC task's next look at a finished slot sends its reply and frees it, however the RailCom task interleaves |
| `Deferred.NoSharedWrites` | src/railcom/railcom.c:194-211 | the two tasks are never at the slot, nor at the RailCom request, at once |
| `Deferred.CompletionOwed` | src/railcom/railcom.c:255-311 | whenever a request is pending the RailCom task is at work on that very request, and its read has ended before only while its result is being handed over: the hook completes each at most once |
| `Deferred.CompletionComes` | src/railcom/railcom.c:255-311 | in every interleaving a pending request is completed once the RailCom task has taken seven steps more than two for each poll that ended nothing |
| `PomRead.ReadStands` | src/railcom/pom_read.c:14-49 | after any polls and cutouts the read has asked for as many packets as it made attempts, at most four, and is done exactly if a value came behind one of its packets, with the first such value |
| `PomRead.FailsExactly` | src/railcom/pom_read.c:32-49 | it fails exactly when four packets were sent, none was answered with a value and the last attempt is over; a poll that finds the attempt over never just waits |
| `PomRead.OverMeans` | src/railcom/pom_read.c:14-40 | an attempt is over if and only if none was made, two cutouts behind its packets brought no value, or 250 ms have gone by since it was sent |
| `PomRead.EndsInTime` | src/railcom/pom_read.c:32-49 | polled at most some gap apart, on a clock that wraps, a read has ended by the first poll that comes four attempts' time and three gaps after its first, whatever is heard |
| `PomRead.Reader.HearCutout` | src/railcom/pom_read.c:14-30 | a cutout counts only behind one of the read's own packets; with a value it ends the read, without one it uses up a copy |
| `PomRead.Reader.PollAt` | src/railcom/pom_read.c:32-49 | a poll sends, waits or fails as specified, on a clock that wraps |
| `AliasSequence.CandidatesDiffer` | src/lcc/lcc_alias.c:11-29 | from any node ID the candidates are never zero and all different for 91 steps, and then start over |
| `AliasSequence.CandidateIsSteps` | src/lcc/lcc_alias.c:21-29 | the register's reset to one is never needed |
| `AliasSequence.SeedsDiffer` | src/lcc/lcc_alias.c:11-19 | node IDs that differ in one 12-bit piece start at different aliases, unless both start at one |
| `Alias.TickExact` | src/lcc/lcc_alias.c:70-120 | a tick keeps the lock held exactly by the one allocating node, if and only if the node does not give up |
| `Alias.LoopKeeps` | src/lcc/lcc_task.c:29-37 | so does a whole turn of the tick loop, if and only if no node gives up in it |
| `Alias.MutualExclusion` | src/lcc/lcc_alias.c:70-136 | over any run of ticks, collisions and registrations the lock is held exactly while one node is allocating, and never by two, if and only if no node exhausts its retries |
| `Alias.GivenUpBreaks` | src/lcc/lcc_alias.c:104-111 | for any three node IDs, a run of registrations, ticks and collisions in which one node gives up and the two others are then allocating at once |
| `Alias.ClaimedAfterSilence` | src/lcc/lcc_alias.c:88-102 | in any run a confirmed node took the lock for its alias and then three turns passed without a collision on it before it claimed it |
| `Alias.FreshCandidates` | src/lcc/lcc_alias.c:104-114 | in any run, whether or not a node has given up, each retry is the next candidate of its sequence: one that its last 90 retries have not tried |
| `Alias.TurnProgresses` | src/lcc/lcc_task.c:29-37 | without collisions each turn strictly lowers the stages to go, until every node is confirmed |
| `Alias.AllConfirmed` | src/lcc/lcc_task.c:29-37 | every node is confirmed after at most that many turns |
| `Alias.Allocator.Tick` | src/lcc/lcc_alias.c:70-120 | one node's tick, frames sent and lock included |
| `Alias.Allocator.TickAll` | src/lcc/lcc_task.c:29-37 | the loop over all nodes |
| `Alias.Allocator.HandleControl` | src/lcc/lcc_alias.c:122-136 | a control frame reaches every node with its source alias |
| `Alias.TickSends` | src/lcc/lcc_alias.c:31-120 | a tick that takes the lock sends the four checks with the pieces of the ID and the alias tried; one that confirms claims, maps and announces; any other sends nothing |
| `Alias.HeardTurnsBack` | src/lcc/lcc_alias.c:122-136 | a collision turns back exactly the nodes that are trying its alias |
| `Alias.HeardDefends` | src/lcc/lcc_alias.c:122-136 | a collision is answered if and only if a node has claimed its alias, and only with that claim |
| `Alias.MappedIsConfirmed` | src/lcc/lcc_alias.c:42-102 | over any run an alias has been mapped to a node ID on the bus if and only if a node with that ID has it confirmed |
| `Traction.CommandReaches` | src/lcc/lcc_traction.c:629-715 | for any graph of consists a throttle's command acts on its train, on each member's share once and in slot order, sends each member its share, and changes no other node |
| `Traction.SetSpeedReaches` | src/lcc/lcc_traction.c:581-662 | Set Speed: each other local member takes the speed once, sign flipped exactly if its slot is reversed; no other train changes, and no train's reassembly is disturbed |
| `Traction.SetFunctionReaches` | src/lcc/lcc_traction.c:612-627 | Set Function: a member follows F0 or the other functions exactly if its slot links them |
| `Traction.EmergencyStopReaches` | src/lcc/lcc_traction.c:292-301 | Emergency Stop: the train and each other local member stop in the direction they had, no other train changes, and the command station is told to stop each once |
| `Traction.SetSpeedTells` | src/lcc/lcc_traction.c:253-265 | Set Speed: the command station is told of the train's speed, forward if and only if its sign bit is clear, and then of each member's, reversed exactly if its slot says so; each member is sent its own command |
| `Traction.SetFunctionTells` | src/lcc/lcc_traction.c:267-290 | Set Function: the command station is told to switch that function of the train and of each member that links it, on if and only if the value is not zero |
| `Traction.FunctionNumber` | src/lcc/lcc_traction.c:267-276 | the functions up to F68 are the ones whose number is in the last of the three address bytes |
| `Traction.ListenerActs` | src/lcc/lcc_traction.c:633-635 | a command passed on to a train acts on that train alone and is told to the command station once |
| `Traction.TooShort` | src/lcc/lcc_traction.c:253-276 | a command that is too short or for a function above F68 changes no train and is told to nobody |
| `Traction.IsMember` | src/lcc/lcc_traction.c:637-661 | a node gets a command exactly if a slot names it, it is neither the train nor the sender, and the slot's links let the command through |
| `Traction.MembersDistinct` | src/lcc/lcc_traction.c:629-662 | no member gets a command twice |
| `Traction.ListenerStops` | src/lcc/lcc_traction.c:633-635 | a command that was passed on goes no further |
| `Traction.AttachKeeps` | src/lcc/lcc_traction.c:473-509 | attaching lists the member exactly once with its flags, or says why not, and leaves the others alone, whatever ID is given |
| `Traction.DetachKeeps` | src/lcc/lcc_traction.c:511-528 | detaching removes the member and nothing else, whatever ID is given |
| `Traction.ConsistAnswered` | src/lcc/lcc_traction.c:459-528 | attach and detach change that consist alone and are answered once to the sender, with no error if and only if the member is attached now, or was before |
| `Traction.DispatchKeeps` | src/lcc/lcc_traction.c:689-715 | every command leaves every consist with distinct members and without the train itself |
| `Traction.TrafficKeeps` | src/lcc/lcc_traction.c:717-766 | from empty consists on, after any frames to any nodes from any senders, every consist has distinct members and not the train itself |
| `Traction.FramesReassemble` | src/lcc/lcc_traction.c:717-766 | a message of up to 32 bytes cut into frames and put together again does what the whole message does |
| `Traction.SendersApart` | src/lcc/lcc_traction.c:731-766 | frames of senders that have begun no message do not disturb one that has |
| `Traction.SendAddressed` | src/lcc/lcc_node.c:86-116 | cuts a message into frames of at most six bytes |
| `Traction.Registry.Dispatch` | src/lcc/lcc_traction.c:689-715 | the mutual recursion of dispatch, forwarding and frame handling ends, and does what is specified; a command too long for the forwarding buffer goes no further |
| `Traction.Registry.ForwardToConsist` | src/lcc/lcc_traction.c:581-662 | the slot loop passes the command to the specified members |
| `Traction.Registry.HandleFrame` | src/lcc/lcc_traction.c:717-766 | single frames are acted on at once, others reassembled per sender |
| `Traction.Registry.OnConsistConfig` | src/lcc/lcc_traction.c:473-572 | attach and detach with their replies |
| `CvSpace.CvWrite` | src/lcc/lcc_traction.c:119-200 | together with the write loop: a write of CVs sets exactly the written bytes at consecutive CVs, in order and each once, cut off at CV1024, and is answered OK exactly if all were taken |
| `CvSpace.CvPairs` | src/lcc/lcc_traction.c:119-143 | CV17 and CV18, and CV19 and CV20, go out in one instruction whenever both are written |
| `CvSpace.IndexThenValue` | src/lcc/lcc_traction.c:155-186 | the index register selects the CV written to it if and only if the number fits 16 bits; then a value written sets that CV if there is one |
| `CvSpace.IndexTooLarge` | src/lcc/lcc_traction.c:155-186 | the number 0x10001 selects CV1, and a value written then sets it |
| `CvSpace.IndexParts` | src/lcc/lcc_traction.c:155-171 | the index can be written a byte at a time: each of the low two bytes replaces its half of the number |
| `CvSpace.NothingElse` | src/lcc/lcc_traction.c:145-200 | only the CVs and the value register send anything, and only the index register is remembered |
| `CvSpace.TrainCvs.Write` | src/lcc/lcc_traction.c:145-200 | one call of the write handler: direct CVs, index register, value register, verify registers and everything else |
| `CvSpace.TrainCvs.WriteCvs` | src/lcc/lcc_traction.c:119-143 | the instruction for the next CV or pair of CVs |
| `SvcAck.RingStep` | src/servicemode/svc_ack.c:6-15 | replacing the oldest sample keeps the running sum the true sum of the last four |
| `SvcAck.PeakIsHighest` | src/servicemode/svc_ack.c:22-29 | the baseline peak is the highest full window |
| `SvcAck.ThresholdIsLeast` | src/servicemode/svc_ack.c:31-51 | the threshold is the least that clears the true mean by the floor and by one and a half times what any window of the baseline rises above it, so none of them is over it |
| `SvcAck.MeanExact` | src/servicemode/svc_ack.c:31-33 | the mean is the true one if and only if the 32-bit sum has not overflowed; 65537 samples never overflow it |
| `SvcAck.MeanOff` | src/servicemode/svc_ack.c:31-33 | 65538 samples at full scale, where the mean is not the true one |
| `SvcAck.ShortBaseline` | src/servicemode/svc_ack.c:35-41 | with too short a baseline the threshold is baseline plus floor if and only if the floor is not zero or the number of samples divides their sum |
| `SvcAck.ShortBaselineOff` | src/servicemode/svc_ack.c:35-41 | the samples 0 and 1 with a floor of zero, where it is not |
| `SvcAck.OneMore` | src/servicemode/svc_ack.c:53-73 | one more sample adds at most the pulse it ends |
| `SvcAck.RealWidth` | src/servicemode/svc_ack.c:67-79 | on the wrapping clock a pulse below 71 minutes has its real width, and a pulse that can still end well keeps the caller listening |
| `SvcAck.Listen` | src/servicemode/svc_ack.c:22-73 | after any baseline and samples the detector reports an acknowledgment if and only if some maximal run of four-sample windows over the threshold has ended with a width of 2000 to 20000 microseconds |
| `SvcAck.Detector.Smooth` | src/servicemode/svc_ack.c:6-15 | the ring always holds the last four samples and `ringSum` is their sum |
| `SvcAck.Detector.Arm` | src/servicemode/svc_ack.c:31-51 | the threshold is the mean plus the larger of the floor and one and a half times the baseline's swing |
| `SvcAck.Detector.Sample` | src/servicemode/svc_ack.c:53-73 | the flags say exactly what the trace so far says |
| `SvcCv.Read` | src/servicemode/svc_cv.c:19-51 | at most 18 instructions; a value is reported only if the decoder confirmed it; if byte verifies are answered honestly it is the CV, whatever the bit answers were; an honest decoder is always read; one wrong or lost answer in the first attempt does no harm; no loco means no answer at all |
| `SvcCv.ConfirmedIsRight` | src/servicemode/svc_cv.c:38-45 | if byte verifies are answered honestly, a byte confirmed is the CV |
| `SvcCv.Write` | src/servicemode/svc_cv.c:53-69 | a write succeeds exactly if it is acknowledged or then verified, and after a success an honest decoder's CV is the value |
| `SvcCv.ByteMeans` | src/dcc/packet.c:225-243 | a byte verify asks for the CV that is meant, for every CV from 1 to 1024 |
| `SvcCv.BitMeans` | src/dcc/packet.c:245-250 | a bit verify asks for the bit and CV that are meant |
| `SvcCv.WriteMeans` | src/dcc/packet.c:225-243 | a byte write names the CV and value that are meant |
| `Float16.RoundsTowardZero` | src/lcc/lcc_float16.c:53-81 | for every finite binary32 below 65536 in magnitude the result has its sign and the largest binary16 magnitude that does not exceed it |
| `Float16.Overflows` | src/lcc/lcc_float16.c:62-68 | everything else becomes infinite, and exactly the NaNs become NaN |
| `Float16.ToSingleExact` | src/lcc/lcc_float16.c:20-51 | a binary16 becomes the binary32 of exactly its value |
| `Float16.ThereAndBack` | src/lcc/lcc_float16.c:20-81 | there and back gives the same bits for everything but NaN |
| `Float16.Normalise` | src/lcc/lcc_float16.c:34-39 | the normalising loop ends with the implicit bit in place and the exponent to match |
| `Float16.FromFloat` | src/lcc/lcc_float16.c:53-81 | the branches on the bit fields give the specified fields |
| `Float16.ToFloat` | src/lcc/lcc_float16.c:20-51 | the branches and the loop give the specified fields |
| `GridConnect.RoundTrip` | src/lcc/lcc_gc.c:20-110 | parsing the text of any list of frames gives exactly that list |
| `GridConnect.TextOf` | src/lcc/lcc_gc.c:20-45 | the text has the ID as eight capital hexadecimal digits from the highest, and each byte as two |
| `GridConnect.AnyStateRecovers` | src/lcc/lcc_gc.c:47-110 | from any parser state one frame's text ends idle and brings out the frame if the parser was idle, else nothing |
| `GridConnect.AfterGarbage` | src/lcc/lcc_gc.c:47-110 | after any garbage at most one frame is lost |
| `GridConnect.Encode` | src/lcc/lcc_gc.c:20-45 | prints the frame, or nothing if the buffer might be too small; the text and its NUL always fit |
| `GridConnect.LineParser.ParseByte` | src/lcc/lcc_gc.c:47-110 | each character moves the in-place parser as specified and reports a frame exactly on the semicolon that ends one |
| `TrainSearch.AddressBack` | src/lcc/lcc_train_search.c:16-65 | a search event for any 16-bit address and flags is in the search space and gives back both |
| `TrainSearch.EventReads` | src/lcc/lcc_train_search.c:44-65 | the event for address 1234, written in hexadecimal, shows the decimal digits behind two F's |
| `TrainSearch.SearchFinds` | src/lcc/lcc_train_search.c:91-132 | a search for a finds train t if and only if t is a, or, without the exact flag, a is t with some of its last digits cut off |
| `TrainSearch.CreateEvent` | src/lcc/lcc_train_search.c:44-65 | right-justified decimal digits, padded with 0xF |
| `TrainSearch.Address` | src/lcc/lcc_train_search.c:32-42 | the loop reads the decimal nibbles in order, skipping padding, in 16 bits |
| `TrainSearch.DoesAddressMatch` | src/lcc/lcc_train_search.c:91-132 | the array loops agree with the comparison of decimal digits, exact or as a prefix, for any six nibbles |
| `Motor.PinFollowsMode` | src/motor/motor.c:112-123 | in every interleaving the power pin is high exactly in the modes On and Alert |
| `Motor.StaysOff` | src/motor/motor.c:129-147 | after an off command power stays off until an on command, whatever the monitor was doing |
| `Motor.BackoffHolds` | src/motor/motor.c:172-216 | power comes back from overload only by the monitor and not before the backoff has really gone by, clock wrap or not; it trips only after a real 100 ms in Alert |
| `Motor.BackoffGrows` | src/motor/motor.c:200-222 | after k returns from overload since its reset the backoff is min(40 times 2^k, 10000) ms |
| `Motor.UpdateMeans` | src/motor/motor.c:153-234 | what one update does in real time, in each mode |
| `Motor.TripsInTime` | src/motor/motor.c:153-198 | with updates at most some gap apart that all find a fault, power is cut within 100 ms and one gap |
| `Motor.RecoversInTime` | src/motor/motor.c:172-216 | once the fault is gone, power is back on after the backoff, 21 ms and one gap |
| `Motor.CommandMeans` | src/motor/motor.c:138-147 | off cuts the power in any mode; on starts a track that is off and leaves any other alone |
| `Motor.Driver.Update` | src/motor/motor.c:153-234 | an update that nothing interrupts is its steps in a row |
| `Motor.Driver.SetPower` | src/motor/motor.c:138-147 | off always wins; on only starts a track that is off |

## Left out

- Hardware: GPIO, ADC, SPI, UART, flash, timers, USB and interrupt handlers; readings, times and queue acceptance are inputs.
- FreeRTOS itself; tasks are interleaved steps, mutexes and queues are abstract. Task priorities and deadlines are not modelled.
- The PIO programs wavegen_nocutout.pio, wavegen_servicemode.pio and cutout.pio; the cutout is an external signal that ends at some time.
- The RX FIFO of the wavegen state machine is a list of the words offered to it; its depth, and words dropped when nobody reads, are not part of the model.
- StreamOfPackets: puts no limit on the TX FIFO; a host that waits for room in its four words is one of the hosts covered.
- Speed modes with 14 and 28 steps, which no code selects; the conversion of a binary16 speed to a DCC step, whose C float rounding is not modelled, so the throttle hook is given the binary16 speed.
- The address bytes of the DCC engine's packets; a decoder in `Dcc` hears what is sent to its address.
- Registry.Dispatch: leaves out commands of seven or eight bytes that would be passed on, which fit the forwarding buffer but not the six bytes of the frame they are then copied to; controller assignment and the speed and function queries do nothing here.
- Registry.ForwardToConsist: leaves out the same commands of seven or eight bytes.
- Registry.HandleFrame: leaves out the same commands, as `Fits` says.
- Registry.OnConsistConfig: a query, which only answers, does nothing here.
- CommandReaches: takes commands of seven or eight bytes as passed on like shorter ones.
- SentStays: does not say that a packet comes out of the heap; packets of higher priority can keep it waiting.
- Listen: is stated for baselines of fewer than 2^32 samples, which is when the sample count does not wrap.
- GET_OPTIONS, GET_SPACE_INFO, update, reboot and factory reset of memory configuration, and the programming track as a completing task of deferred requests.
- That two nodes of this station never choose the same alias; its own checks are not fed back to its other nodes.
- Decoding of channel 2 data (the 4-of-8 code); a cutout carries a value or none.
- The train match's long and short address filter, allocation of trains by a search, events, SNIP, PIP, the display and the configuration descriptions.
