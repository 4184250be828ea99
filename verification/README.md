# Verification of the BadVPN components

This project models the single-threaded, event-driven parts of BadVPN, the native part of
this repository, and proves what they promise. Each component is modelled twice. A value-level
state machine says what every handler does, and theorems over all its runs are proved about
it. A class with the fields and loops of the C code, which update arrays, lists and maps in
place, is proved to do exactly those steps.

- **Fair queue** (`FairQueue`, `FairQueueRuns`, `FairQueueService`, `FairQueueIdle`,
  `FairQueueClass`): the start-time fair packet scheduler. Its 64-bit clocks, renormalised by an intentional underflow
  and overflow, refine natural-number clocks, with the exact condition under which they do;
  backlogged flows share fairly; waiting is bounded; the queue is work-conserving.
- **Fragmentation and reassembly** (`FragmentProto`, `Disassembler`, `Assembler`,
  `AssemblerTheorems`, `AssemblerOrder`, `AssemblerTiming`, `FragmentRoundTrip`,
  `FragmentIntegrity`, `DisassemblerClass`, `AssemblerClass`): the end-to-end stream round trip,
  end-to-end integrity under any loss, repetition and reordering, independence of arrival
  order, and the renormalised packet clock.
- **Frame decider** (`FrameTables`, `SigIndex`, `MacTable`, `MulticastIndex`, `GroupTable`,
  `FrameDecider`): MAC learning with a least-recently-used table per peer, and the multicast
  index with one master per signature. Decisions equal a scan of the peers' own tables.
- **BProto** (`LittleEndian`, `BProto`, `BProtoIndex`, `BProtoWriter`, `BProtoParser`,
  `BProtoExchange`): the generated writers and parsers, for any schema. A buffer is accepted if
  and only if it is a message; it is read back as what was written; no assertion of a parser
  can fail.
- **Flows and relays** (`FlowBuffers`, `DataProto`, `RelayLinks`, `Relay`): the deferred detach
  of flow buffers from sinks, and the link and relay bookkeeping of the client on top of it.
- **SPProto** (`SPProto`, `SPProtoCodec`), **DHCP client** (`Dhcp`, `DhcpClass`) and **line
  buffer** (`Lines`, `LineBuffer`).

`Wrappers.dfy` holds optional values, bytes and duplicate-free lists. Check everything with
`dafny verify dfyconfig.toml`.

Search trees are maps or sets, intrusive lists are duplicate-free sequences, calls into the
packet interfaces are returned values, and calls from them are method calls. An ASSERT of the
code is a `requires` where it speaks of the caller and a proved assertion or invariant
elsewhere. Handlers are methods, and what a method leaves unsaid is outside its `modifies`.

Where the code differs from what one might expect, the model follows the code:

- `get_current_time` restarts at 0 when the fair queue is idle, while idle flows keep their
  clocks, which an overflow of a busy flow lowers and clamps. Up to the first overflow the
  64-bit clock and the ideal one agree over any number of idle periods, and after it until the
  queue is next idle (`FairQueueRuns.RunRefines`). From then on they agree if and only if no
  flow is left whose ideal time has moved (`FairQueueIdle.IdleExact`); for every weight and MTU
  that Init accepts some run makes them send different packets (`FairQueueIdle.Diverges`).
- The two branches of `DataProtoFlow_Attach` and `DataProtoFlow_Free` for a buffer that has a
  sink and is not busy can never be taken: a flow that desires no sink has a buffer without a
  sink or a busy one. The model proves them dead.
- The DHCP client counts a lease from the arrival of the ACK, not from the request that it
  answers (`Dhcp.CountedFromAck`).
- Reassembly gives up the frame allocated first, not the one updated longest ago
  (`Assembler.FirstAllocatedGoes`).
- fragmentproto_max_chunks_for_frame does not count what a small chunk limit adds
  (`FragmentRoundTrip.SmallLimit`); the round trip holds with `FragmentRoundTrip.ChunkCap`.
- A multicast decision returns a peer once for each of its groups with the frame's signature
  (`FrameTables.ReturnedTwice`).

## Model

| member | source | states |
|---|---|---|
| FairQueue.StepKeepsInv | app/src/main/jni/badvpn/flow/PacketPassFairQueue.c:52-217 | every handler, on the wrapping and on the ideal clock, keeps flags, tree and clocks in agreement, never lets the sending flow get ahead of a queued one, and keeps the queue work-conserving: packets wait only behind a packet or the schedule job |
| FairQueue.IncrementExact | app/src/main/jni/badvpn/flow/PacketPassFairQueue.c:79-116 | the underflow of the subtraction and the overflow of the addition cancel: the finished flow gets the exact natural number, queued flows lose exactly the subtrahend, only flows not queued are clamped to 0, nothing leaves the 64-bit range |
| FairQueue.WrapCancels | app/src/main/jni/badvpn/flow/PacketPassFairQueue.c:96-113 | the difference of a smaller and a larger time wraps to 2^64 less their distance, and with the amount added is the natural number again |
| FairQueue.TakenBack | app/src/main/jni/badvpn/flow/PacketPassFairQueue.c:79-116 | an overflow brings the first queued flow to zero, or leaves the finished one with its charge when none is queued |
| FairQueue.StepClock | app/src/main/jni/badvpn/flow/PacketPassFairQueue.c:79-217 | one step moves all active clocks back by one common amount and charges the finished flow its packet; idle flows fall back no further than zero |
| FairQueue.StepRefines | app/src/main/jni/badvpn/flow/PacketPassFairQueue.c:52-217 | one step of the 64-bit queue is one step of the natural-number queue: the same packet is handed on and the states agree up to a common offset; only a send into an idle queue needs the clocks to agree before, and only an overflow moves the offset, by at least the time of the finished flow |
| FairQueueRuns.RunRefines | app/src/main/jni/badvpn/flow/PacketPassFairQueue.c:52-217 | for every sequence of arrivals, completions, job runs and flows coming and going, with any idle periods, in which no packet comes to an idle queue after the first overflow of increment_sent_flow: the run is one of the 64-bit queue just when it is one of the natural-number queue, both send exactly the same packets, 64-bit times stay in range, and without an overflow both end in the same state |
| FairQueueRuns.WhenAligned | app/src/main/jni/badvpn/flow/PacketPassFairQueue.c:79-116 | that condition on arrivals holds over any one busy period, and over any run in which no increment overflows |
| FairQueueIdle.Diverge | app/src/main/jni/badvpn/flow/PacketPassFairQueue.c:52-116 | any two idle queues of which one is the other with some times taken back by overflows, clamped or not, send different packets on some run |
| FairQueueIdle.IdleExact | app/src/main/jni/badvpn/flow/PacketPassFairQueue.c:52-116 | after any such run from the initial state that ends idle, the two clocks send the same packets on every later run that meets the condition, if and only if no increment has overflowed or every remaining flow has ideal time zero |
| FairQueueIdle.Diverges | app/src/main/jni/badvpn/flow/PacketPassFairQueue.c:52-116 | for every weight and MTU that Init accepts, a run from the initial state after which the two clocks have sent different packets |
| FairQueueRuns.StepFair | app/src/main/jni/badvpn/flow/PacketPassFairQueue.c:118-202 | one step keeps the lead of one active flow over another within the gap and changes it by what the two are charged |
| FairQueueRuns.StepWaits | app/src/main/jni/badvpn/flow/PacketPassFairQueue.c:118-202 | every packet sent while a flow waits is paid for when it is finished, which takes one off the waiting bound |
| FairQueueRuns.BoundedWaiting | app/src/main/jni/badvpn/flow/PacketPassFairQueue.c:118-202 | with no flow joining, a queued flow sees at most the sum over flows not later than it of (difference of times)/weight + 1 other packets, counting one on its way, even if packets are empty |
| FairQueueService.ChargedIsSent | app/src/main/jni/badvpn/flow/PacketPassFairQueue.c:118-202 | over every run on either clock, what a flow is charged is weight plus length of each of its packets handed to the output, less the one still there and plus the one there at the start |
| FairQueueService.LastInOutput | app/src/main/jni/badvpn/flow/PacketPassFairQueue.c:118-202 | the packet with the output is the last one handed to it, with its length |
| FairQueueService.InOrder | app/src/main/jni/badvpn/flow/PacketPassFairQueue.c:118-202 | while a flow is not freed, the packets it gives to the queue come out unchanged and in their order, all but the one that waits |
| FairQueueService.Fairness | app/src/main/jni/badvpn/flow/PacketPassFairQueue.c:118-202 | while two flows stay backlogged, on either clock their times differ by at most the larger of the initial gap and weight plus MTU, and the bytes and packet weights handed to the output for the one exceed those for the other by at most twice that |
| FairQueueService.CurrentIsLeast | app/src/main/jni/badvpn/flow/PacketPassFairQueue.c:52-77 | the current time is that of the active flow furthest behind, or 0 when none is active |
| FairQueueService.StepActive | app/src/main/jni/badvpn/flow/PacketPassFairQueue.c:139-351 | a flow becomes active only by a packet, at the current time at least, and stays so until its last packet is done and the schedule job has run; a new flow starts at 0 |
| FairQueueClass.TreeFirst | app/src/main/jni/badvpn/flow/PacketPassFairQueue.c:39-47 | the tree's first flow has the least time, ties broken by address |
| FairQueueClass.PacketPassFairQueue.Init | app/src/main/jni/badvpn/flow/PacketPassFairQueue.c:219-266 | initialisation fails exactly when weight plus MTU exceed the clock; else the queue is new and valid |
| FairQueueClass.PacketPassFairQueue.GetCurrentTime | app/src/main/jni/badvpn/flow/PacketPassFairQueue.c:52-77 | returns the specified current time |
| FairQueueClass.PacketPassFairQueue.LowerAll | app/src/main/jni/badvpn/flow/PacketPassFairQueue.c:96-109 | the loop over the list of flows lowers every clock exactly once, clamping all but the finished flow |
| FairQueueClass.PacketPassFairQueue.IncrementSentFlow | app/src/main/jni/badvpn/flow/PacketPassFairQueue.c:79-116 | in place, with the loop over the list of flows, the clocks become the specified ones |
| FairQueueClass.PacketPassFairQueue.Schedule | app/src/main/jni/badvpn/flow/PacketPassFairQueue.c:118-137 | takes the first flow out of the tree, sends its packet and remembers its length |
| FairQueueClass.PacketPassFairQueue.ScheduleJobHandler | app/src/main/jni/badvpn/flow/PacketPassFairQueue.c:139-151 | is the specified step |
| FairQueueClass.PacketPassFairQueue.InputHandlerSend | app/src/main/jni/badvpn/flow/PacketPassFairQueue.c:153-180 | is the specified step: the flow keeps its clock if it was the previous one, else it is raised to the current time |
| FairQueueClass.PacketPassFairQueue.OutputHandlerDone | app/src/main/jni/badvpn/flow/PacketPassFairQueue.c:182-217 | is the specified step, and reports the one-shot busy handler of the finished flow |
| FairQueueClass.PacketPassFairQueue.FlowInit | app/src/main/jni/badvpn/flow/PacketPassFairQueue.c:296-321 | is the specified step: a new flow at time 0, in the list once |
| FairQueueClass.PacketPassFairQueue.FlowFree | app/src/main/jni/badvpn/flow/PacketPassFairQueue.c:323-351 | is the specified step: the flow leaves the tree, the list and the previous-flow reference |
| FairQueueClass.PacketPassFairQueue.IsBusy | app/src/main/jni/badvpn/flow/PacketPassFairQueue.c:362-370 | tells whether the flow may not be freed yet: a busy one is not waiting, its completion is the next event of the output, no job is pending, and no queued flow is before it |
| FragmentProto.ParseEncode | app/src/main/jni/badvpn/client/FragmentProtoAssembler.c:285-324 | the chunks of a written packet are read back exactly |
| FragmentProto.HeaderBytes | app/src/main/jni/badvpn/protocol/fragmentproto.h:46-79 | a chunk is the bytes of its frame number, place and length, least significant first, the mark of the last one, and the data |
| FragmentProto.ParseExact | app/src/main/jni/badvpn/client/FragmentProtoAssembler.c:300-340 | the reader takes a chunk exactly where a written one stands, and stops everywhere else |
| FragmentProto.ParseAllExact | app/src/main/jni/badvpn/client/FragmentProtoAssembler.c:285-346 | a packet is read as the written chunks it starts with, up to the first place where none stands |
| LittleEndian.LeBytes | app/src/main/jni/badvpn/misc/byteorder.h:107-116 | numbers are written least significant byte first |
| Disassembler.CutPieces | app/src/main/jni/badvpn/client/FragmentProtoDisassembler.c:49-70 | the do-while loop cuts consecutive pieces of the frame, marks exactly the last one, and ends with the frame or with a full packet, never past its end |
| Disassembler.CutMaximal | app/src/main/jni/badvpn/client/FragmentProtoDisassembler.c:49-70 | no chunk exceeds the limit, and each has just its length unless it ends the frame or fills the packet |
| Disassembler.LeavesFull | app/src/main/jni/badvpn/client/FragmentProtoDisassembler.c:72-102 | a packet leaves only when its timer goes off, or without latency, or when it has no room for another byte of data, and otherwise waits |
| Disassembler.StepKeepsInv | app/src/main/jni/badvpn/client/FragmentProtoDisassembler.c:39-162 | frame, position and packet stay consistent over every call but a cancel |
| Disassembler.OutUsedIsLength | app/src/main/jni/badvpn/client/FragmentProtoDisassembler.c:67-69 | the count of written bytes is the length of the encoded packet |
| DisassemblerClass.FragmentProtoDisassembler.WriteChunk | app/src/main/jni/badvpn/client/FragmentProtoDisassembler.c:56-69 | writes header and data in place behind what the packet holds |
| DisassemblerClass.FragmentProtoDisassembler.WriteLoop | app/src/main/jni/badvpn/client/FragmentProtoDisassembler.c:49-70 | the loop writes exactly the specified chunks and advances both positions over them |
| DisassemblerClass.FragmentProtoDisassembler.WriteChunks | app/src/main/jni/badvpn/client/FragmentProtoDisassembler.c:39-102 | is the specified step: frame finished with the 16-bit id incremented, packet finished when full or without latency, else the timer started |
| DisassemblerClass.FragmentProtoDisassembler.InputHandlerSend | app/src/main/jni/badvpn/client/FragmentProtoDisassembler.c:104-120 | is the specified step |
| DisassemblerClass.FragmentProtoDisassembler.OutputHandlerRecv | app/src/main/jni/badvpn/client/FragmentProtoDisassembler.c:134-149 | is the specified step |
| DisassemblerClass.FragmentProtoDisassembler.TimerHandler | app/src/main/jni/badvpn/client/FragmentProtoDisassembler.c:151-162 | is the specified step: the packet goes out as it is |
| Assembler.Tiling | app/src/main/jni/badvpn/client/FragmentProtoAssembler.c:257-268 | disjoint spans below n have total length at most n, and exactly n if and only if they cover every byte below n: the reason the sum test means completeness |
| Assembler.ProcessKeeps | app/src/main/jni/badvpn/client/FragmentProtoAssembler.c:154-283 | every chunk keeps the invariant: used and free entries partition the slots, the tree finds each used entry by its unique id, chunks are disjoint and in bounds, sums exact, room for a chunk in every entry, times not after the clock |
| Assembler.ProcessFrame | app/src/main/jni/badvpn/client/FragmentProtoAssembler.c:154-283 | a chunk leaves every frame of another id untouched, unless it is evicted |
| Assembler.ReduceTimesInvisible | app/src/main/jni/badvpn/client/FragmentProtoAssembler.c:117-152 | renormalising removes exactly the timed-out frames, keeps age and contents of all others, strictly lowers the clock if frames remain and restarts it at 0 if not |
| Assembler.TickKeeps | app/src/main/jni/badvpn/client/FragmentProtoAssembler.c:326-345 | the end of a packet keeps the invariant, ages every surviving frame by one and frees only timed-out frames, whether or not the clock wraps |
| Assembler.FirstAllocatedGoes | app/src/main/jni/badvpn/client/FragmentProtoAssembler.c:54-103 | a chunk of a live frame never moves it in the order of allocation, and a chunk of an unknown frame that finds the table full gives up the frame allocated first, whenever it was updated last, and no other |
| Assembler.FeedKeeps | app/src/main/jni/badvpn/client/FragmentProtoAssembler.c:285-346 | a whole packet keeps the invariant |
| AssemblerTheorems.FeedIsRun | app/src/main/jni/badvpn/client/FragmentProtoAssembler.c:285-346 | processing a packet is the run of its chunks and its end |
| AssemblerTheorems.CompleteIsFrame | app/src/main/jni/badvpn/client/FragmentProtoAssembler.c:257-278 | an entry whose chunks were all cut from a frame and that counts as complete holds the whole frame, with no stale byte of its reused buffer |
| AssemblerTheorems.Integrity | app/src/main/jni/badvpn/client/FragmentProtoAssembler.c:154-346 | if all chunks received with an id were cut from one frame, then whatever was lost, repeated or reordered every frame emitted with that id is that frame, byte for byte |
| AssemblerTheorems.InitialInv | app/src/main/jni/badvpn/client/FragmentProtoAssembler.c:370-445 | a new assembler is valid whatever its buffers hold |
| AssemblerTheorems.GivesUp | app/src/main/jni/badvpn/client/FragmentProtoAssembler.c:154-283 | a chunk beyond the largest frame changes nothing; one that repeats a byte, ends the frame twice, too early or too late, or takes the last place without completing it makes the frame be given up |
| AssemblerOrder.PieceArrives | app/src/main/jni/badvpn/client/FragmentProtoAssembler.c:179-278 | a missing piece of a frame is taken in; the frame is delivered and its entry freed if and only if it was the last one missing |
| AssemblerOrder.AnyOrder | app/src/main/jni/badvpn/client/FragmentProtoAssembler.c:154-346 | pieces of a frame delivered once each in any order, among chunks of other frames and packet ends, emit the frame exactly once and with the last missing piece, if it is neither evicted nor timed out |
| AssemblerTiming.AnyOrderInTime | app/src/main/jni/badvpn/client/FragmentProtoAssembler.c:54-346 | said of the wire alone: pieces that each come once, in any order, with at most as many packets ending between two of them as there are frame entries and fewer chunks of other frames in between, emit the frame exactly once |
| AssemblerTiming.TooLate | app/src/main/jni/badvpn/client/FragmentProtoAssembler.c:110-193 | a chunk that finds its frame not written to for one packet longer starts it anew |
| FragmentRoundTrip.ChunkBound | app/src/main/jni/badvpn/protocol/fragmentproto.h:81-98 | the pieces of an unfinished frame stay below fragmentproto_max_chunks_for_frame, wherever in a packet it begins, and with a small chunk limit below twice its full chunks and two |
| FragmentRoundTrip.SmallLimit | app/src/main/jni/badvpn/protocol/fragmentproto.h:81-98 | with a small chunk limit the disassembler makes more chunks of a frame than fragmentproto_max_chunks_for_frame counts |
| FragmentRoundTrip.NextPiece | app/src/main/jni/badvpn/client/FragmentProtoAssembler.c:154-283 | the next piece in order is taken in, and the last delivers the frame and empties the assembler |
| FragmentRoundTrip.RoundTrip | app/src/main/jni/badvpn/client/FragmentProtoDisassembler.c:39-162 | for every chunk limit or none, every sequence of frames and every schedule of output packets and timers, across wraps of frame ids and packet clock, feeding the disassembler's packets to a new assembler yields the same frames in the same order: always a prefix, and all of them when nothing is under way |
| FragmentIntegrity.Numbers | app/src/main/jni/badvpn/client/FragmentProtoDisassembler.c:39-102 | over every run the chunks of the n-th frame carry the number n modulo 2^16, counted from any first one |
| FragmentIntegrity.OnlySentFrames | app/src/main/jni/badvpn/client/FragmentProtoDisassembler.c:39-162 | end to end without assuming anything of numbers: of 2^16 frames in a row, with any packets lost, repeated or reordered, the assembler emits nothing but these frames, each under its number |
| FragmentIntegrity.NumbersRepeat | app/src/main/jni/badvpn/client/FragmentProtoDisassembler.c:75-79 | 2^16 is exact: frames that far apart share a number, and parts of the two make up a frame that was never sent |
| AssemblerClass.FragmentProtoAssembler.constructor | app/src/main/jni/badvpn/client/FragmentProtoAssembler.c:370-445 | a new assembler, all slots free |
| AssemblerClass.FragmentProtoAssembler.FreeFrame | app/src/main/jni/badvpn/client/FragmentProtoAssembler.c:46-55 | moves the slot to the free list and out of the tree |
| AssemblerClass.FragmentProtoAssembler.AllocateNewFrame | app/src/main/jni/badvpn/client/FragmentProtoAssembler.c:70-103 | takes a free slot, or the one allocated first, and enters it under the new id |
| AssemblerClass.FragmentProtoAssembler.LocateFrame | app/src/main/jni/badvpn/client/FragmentProtoAssembler.c:179-193 | the live entry of the id, or a new one in its place |
| AssemblerClass.FragmentProtoAssembler.OverlapsAny | app/src/main/jni/badvpn/client/FragmentProtoAssembler.c:197-204 | the loop finds an overlapping chunk if there is one |
| AssemblerClass.FragmentProtoAssembler.Refuses | app/src/main/jni/badvpn/client/FragmentProtoAssembler.c:197-226 | refuses exactly chunks that overlap, come second as last, or break the known bounds |
| AssemblerClass.FragmentProtoAssembler.StoreChunk | app/src/main/jni/badvpn/client/FragmentProtoAssembler.c:228-254 | updates the entry and copies the payload in place |
| AssemblerClass.FragmentProtoAssembler.ProcessChunk | app/src/main/jni/badvpn/client/FragmentProtoAssembler.c:154-283 | is the specified processing of one chunk, in place |
| AssemblerClass.FragmentProtoAssembler.SweepFrames | app/src/main/jni/badvpn/client/FragmentProtoAssembler.c:119-135 | frees the timed-out frames of the used list and finds the least time of the others |
| AssemblerClass.FragmentProtoAssembler.SubtractTimes | app/src/main/jni/badvpn/client/FragmentProtoAssembler.c:143-151 | lowers every used entry's time once |
| AssemblerClass.FragmentProtoAssembler.ReduceTimes | app/src/main/jni/badvpn/client/FragmentProtoAssembler.c:117-152 | is the specified renormalisation |
| AssemblerClass.FragmentProtoAssembler.EndPacket | app/src/main/jni/badvpn/client/FragmentProtoAssembler.c:326-345 | is the specified end of a packet |
| AssemblerClass.FragmentProtoAssembler.ProcessInput | app/src/main/jni/badvpn/client/FragmentProtoAssembler.c:285-346 | processes the rest of a packet up to the next complete frame; all calls for one packet together do what the specification does with it |
| AssemblerClass.FragmentProtoAssembler.InputHandlerSend | app/src/main/jni/badvpn/client/FragmentProtoAssembler.c:348-360 | starts a packet |
| AssemblerClass.FragmentProtoAssembler.OutputHandlerDone | app/src/main/jni/badvpn/client/FragmentProtoAssembler.c:362-368 | goes on with the packet behind the frame that was sent |
| FrameTables.SigIsMapping | app/src/main/jni/badvpn/client/FrameDecider.c:120-131 | a multicast address and a group have the same signature if and only if section 6.4 of RFC 1112 maps the group to that address, but for the bit the standard keeps zero |
| FrameTables.SeeMacKeeps | app/src/main/jni/badvpn/client/FrameDecider.c:69-118 | after a frame its address belongs to the peer it came from; an address leaves a table only when another peer sends from it or as the least recently used of a full table; one owner per address, at most max_peer_macs per peer |
| FrameTables.OwnerIsLastSender | app/src/main/jni/badvpn/client/FrameDecider.c:69-118 | over any run of frames, arrivals and departures the owner of a known address is the peer that last sent from it, and each table is in the order of those last frames |
| FrameTables.ReturnedTwice | app/src/main/jni/badvpn/client/FrameDecider.c:540-551 | a multicast decision returns a peer more than once if and only if two of its groups have the frame's signature |
| FrameTables.JoinKeeps | app/src/main/jni/badvpn/client/FrameDecider.c:199-252 | after a report the group is the peer's latest; the earliest goes exactly if it is new and the table full; the others stay in order and no other peer's table changes |
| FrameTables.JoinAllLast | app/src/main/jni/badvpn/client/FrameDecider.c:671-795 | the groups a peer reports in one frame, each once and no more than it may have, are afterwards its last ones in that order |
| SigIndex.AddBehind | app/src/main/jni/badvpn/client/FrameDecider.c:133-164 | a member of a known signature goes behind the master, and the index is that of one member more |
| SigIndex.AddLonely | app/src/main/jni/badvpn/client/FrameDecider.c:133-164 | the first member of a signature becomes its master and the tree's entry |
| SigIndex.RemoveKeeps | app/src/main/jni/badvpn/client/FrameDecider.c:166-197 | taking a member out, with promotion of a neighbour if it was the master, leaves the index of exactly the other members |
| SigIndex.FromWithout | app/src/main/jni/badvpn/client/FrameDecider.c:166-197 | unlinking a list element takes it out of what an iterator elsewhere in the list has left |
| SigIndex.FromNext | app/src/main/jni/badvpn/client/FrameDecider.c:166-197 | an iterator at an unlinked element moves on to the next |
| MulticastIndex.MulticastIndex.Add | app/src/main/jni/badvpn/client/FrameDecider.c:133-164 | the index becomes that of the members with the new one |
| MulticastIndex.MulticastIndex.Remove | app/src/main/jni/badvpn/client/FrameDecider.c:166-197 | the index becomes that of the members without it: signature in the tree if and only if a member has it, each list exactly those members, one master, which is the tree's entry; an iterator loses only that member |
| MulticastIndex.MulticastIndex.StartWalk | app/src/main/jni/badvpn/client/FrameDecider.c:481-499 | starts over exactly the members with the signature, once each, and says whether there are any |
| MulticastIndex.MulticastIndex.Next | app/src/main/jni/badvpn/client/FrameDecider.c:541-550 | returns what the iterator has left, in order |
| MacTable.MacTable.AddMacToPeer | app/src/main/jni/badvpn/client/FrameDecider.c:69-118 | the tables become the specified ones, and the tree finds every address at its owner |
| MacTable.MacTable.AcquireMacEntry | app/src/main/jni/badvpn/client/FrameDecider.c:89-104 | a free entry, or the oldest used one taken out of the tree |
| MacTable.MacTable.PeerInit | app/src/main/jni/badvpn/client/FrameDecider.c:558-600 | a peer with an empty table |
| MacTable.MacTable.PeerFree | app/src/main/jni/badvpn/client/FrameDecider.c:648-655 | the peer's addresses leave the tree, no others |
| GroupTable.GroupTable.AddGroupToPeer | app/src/main/jni/badvpn/client/FrameDecider.c:199-252 | the peer's table becomes the specified one, its earliest group going if it is full; the group's timer restarts and no other changes; trees and multicast index keep holding exactly the used entries |
| GroupTable.GroupTable.RemoveGroupEntry | app/src/main/jni/badvpn/client/FrameDecider.c:254-279 | the entry leaves table, trees, timers and index; another member is promoted if it was a master |
| GroupTable.GroupTable.LowerGroupTimersToLmqt | app/src/main/jni/badvpn/client/FrameDecider.c:281-314 | lowers to the last member query time the timers of exactly the members of the group |
| GroupTable.GroupTable.PeerInit | app/src/main/jni/badvpn/client/FrameDecider.c:595-616 | a peer with an empty table |
| GroupTable.GroupTable.PeerFree | app/src/main/jni/badvpn/client/FrameDecider.c:637-646 | all the peer's groups leave, and a walk under way loses exactly that peer |
| FrameDecider.FrameDecider.PeerInit | app/src/main/jni/badvpn/client/FrameDecider.c:558-624 | a peer at the end of the list, with empty tables |
| FrameDecider.FrameDecider.PeerFree | app/src/main/jni/badvpn/client/FrameDecider.c:626-669 | the peer leaves list, tables and the decision under way, which then returns all other destinations as before |
| FrameDecider.FrameDecider.Analyze | app/src/main/jni/badvpn/client/FrameDecider.c:671-795 | learns the source address and joins the reported groups, in order; the membership of each runs for the whole interval from now, and that of no other group changes |
| FrameDecider.FrameDecider.GroupTimerHandler | app/src/main/jni/badvpn/client/FrameDecider.c:316-321 | the expired membership leaves table, timers and index; a multicast decision under way loses just that member's turn and any other decision nothing |
| FrameDecider.FrameDecider.AnalyzeAndDecide | app/src/main/jni/badvpn/client/FrameDecider.c:361-510 | what NextDestination will return is the specified decision: all peers once for broadcast, IGMP and unknown addresses, the owner of a known one, and for multicast the peers of exactly the members whose group has the signature; a group-specific query lowers that group's timers |
| FrameDecider.FrameDecider.NextDestination | app/src/main/jni/badvpn/client/FrameDecider.c:512-556 | returns the destinations one by one, then none |
| FrameDecider.FrameDecider.Forward | app/src/main/jni/badvpn/client/client.c:2666-2682 | the client's drained use: every destination of the decision is routed once in order, and told whether more follow |
| GroupTable.LoweredIs | app/src/main/jni/badvpn/client/FrameDecider.c:281-314 | a lowered timer goes off no later than the limit, and no timer is put off |
| BProto.EncodeSize | app/src/main/jni/badvpn/bproto_generator/bproto_functions.php:177-188 | a message is as long as the SIZE macros of its entries add up to |
| BProto.EntryBytes | app/src/main/jni/badvpn/bproto/BProto.h:41-85 | an entry is the bytes of its id and type number, then a number of the width of its type, or four bytes of length and the data |
| BProto.FindUnique | app/src/main/jni/badvpn/bproto_generator/bproto_functions.php:491-576 | with ids distinct per switch, the case that is found is the entry's own |
| BProto.ReadEncoded | app/src/main/jni/badvpn/bproto_generator/bproto_functions.php:457-576 | an encoded entry is read as that entry |
| BProto.ReadIsEncoded | app/src/main/jni/badvpn/bproto_generator/bproto_functions.php:457-576 | whatever is read as an entry is that entry's encoding |
| BProtoIndex.ParseSound | app/src/main/jni/badvpn/bproto_generator/bproto_functions.php:457-576 | if the loop gets through, the buffer is the encoding of the entries read |
| BProtoIndex.ParseComplete | app/src/main/jni/badvpn/bproto_generator/bproto_functions.php:457-576 | if the buffer is the encoding of entries, the loop gets through and reads those |
| BProtoIndex.Unambiguous | app/src/main/jni/badvpn/bproto_generator/bproto_functions.php:421-610 | a buffer is the encoding of at most one sequence of entries |
| BProtoIndex.RoundTrip | app/src/main/jni/badvpn/bproto_generator/bproto_functions.php:348-415 | any entries that fit the schema and meet the cardinalities make a message that is accepted and can be read as those entries only |
| BProtoIndex.MeetsConforms | app/src/main/jni/badvpn/bproto_generator/bproto_functions.php:579-605 | the checks on the counters accept exactly entries with one value of each required field, at least one of each that is required and repeated, and at most one of each optional field |
| BProtoIndex.ValuesLeft | app/src/main/jni/badvpn/bproto_generator/bproto_functions.php:611-640 | a field has values left if and only if its position is before the end of its span |
| BProtoWriter.Writer.AddNumber | app/src/main/jni/badvpn/bproto_generator/bproto_functions.php:348-390 | appends the entry's encoding and counts it |
| BProtoWriter.Writer.AddData | app/src/main/jni/badvpn/bproto_generator/bproto_functions.php:348-415 | appends the entry's encoding, data in its place, and counts it |
| BProtoWriter.Writer.Finish | app/src/main/jni/badvpn/bproto_generator/bproto_functions.php:320-340 | the message accepted by the parser, of exactly the summed sizes |
| BProtoParser.Parser.Init | app/src/main/jni/badvpn/bproto_generator/bproto_functions.php:422-610 | returns 1 if and only if the buffer is a concatenation of well-formed known entries with exactly one value of each required field, at least one of each required repeated and at most one of each optional one; then every field has all its values, in order, yet to be got |
| BProtoParser.Parser.Scan | app/src/main/jni/badvpn/bproto_generator/bproto_functions.php:457-578 | the loop computes for every field the span from its first entry to the end of its last, and its count |
| BProtoParser.Parser.CheckCardinalities | app/src/main/jni/badvpn/bproto_generator/bproto_functions.php:579-605 | accepts exactly counts of one for required, at least one for required repeated and at most one for optional fields |
| BProtoParser.Parser.ReadEntry | app/src/main/jni/badvpn/bproto_generator/bproto_functions.php:457-576 | reads one entry or gives up, exactly where there is none |
| BProtoParser.Parser.Take | app/src/main/jni/badvpn/bproto_generator/bproto_functions.php:656-755 | one round of Get's loop; every ASSERT holds, and the value is returned exactly if the entry is the field's |
| BProtoParser.Parser.Get | app/src/main/jni/badvpn/bproto_generator/bproto_functions.php:648-759 | returns the field's values in order and then 0, and changes no other field |
| BProtoParser.Parser.Reset | app/src/main/jni/badvpn/bproto_generator/bproto_functions.php:761-764 | all the field's values are to be got again; no other field changes |
| BProtoParser.Parser.Forward | app/src/main/jni/badvpn/bproto_generator/bproto_functions.php:766-769 | none of the field's values is left; no other field changes |
| BProtoParser.Parser.GotEverything | app/src/main/jni/badvpn/bproto_generator/bproto_functions.php:612-640 | true if and only if no field has a value left |
| BProtoExchange.Exchange | app/src/main/jni/badvpn/bproto_generator/bproto_functions.php:320-640 | the bytes of any finished message are accepted by the parser, and every field then has exactly the values added to it, in order |
| BProtoExchange.GetRequired | app/src/main/jni/badvpn/bproto_generator/bproto_functions.php:656-755 | after a successful Init the first Get of a required field returns its value and the second none |
| FlowBuffers.AttachedHasSink | app/src/main/jni/badvpn/client/DataProto.c:146-225 | an attached flow's buffer has a sink: the desired one, or one where it is detaching and busy |
| FlowBuffers.OneDetaching | app/src/main/jni/badvpn/client/DataProto.c:180-198 | two buffers at one sink, each of which has lost its flow or belongs to a flow that desires another sink, are the same buffer, and the sink is sending its packet |
| FlowBuffers.SettleKeeps | app/src/main/jni/badvpn/client/DataProto.c:200-216 | a buffer that has left its sink goes to the sink its flow desires, or away, and the protocol invariant holds again |
| FlowBuffers.ScheduleKeeps | app/src/main/jni/badvpn/client/DataProto.c:180-198 | a busy buffer stays, detaching, whatever its flow desires from now on; no other buffer was detaching there |
| FlowBuffers.FlowGoes | app/src/main/jni/badvpn/client/DataProto.c:458-484 | when a detached flow goes, its buffer has no sink or is busy and detaching |
| FlowBuffers.SinkGoes | app/src/main/jni/badvpn/client/DataProto.c:297-309 | once its detaching buffer is gone no buffer refers to a sink that no flow desires |
| DataProto.DataProto.BufferDetach | app/src/main/jni/badvpn/client/DataProto.c:160-178 | the queue flow leaves the sink, which forgets the buffer |
| DataProto.DataProto.BufferScheduleDetach | app/src/main/jni/badvpn/client/DataProto.c:180-198 | marks the busy buffer as detaching; nothing if it already is |
| DataProto.DataProto.BufferFinishDetach | app/src/main/jni/badvpn/client/DataProto.c:200-216 | the buffer goes to the desired sink or is freed, once |
| DataProto.DataProto.QueueDone | app/src/main/jni/badvpn/client/DataProto.c:218-225 | the end of a packet moves a detaching buffer to the sink its flow desires, or frees it if its flow is gone |
| DataProto.DataProto.SinkInit | app/src/main/jni/badvpn/client/DataProto.c:227-295 | a sink with nothing sending and nothing detaching |
| DataProto.DataProto.SinkFree | app/src/main/jni/badvpn/client/DataProto.c:297-337 | lets the detaching buffer go; then no buffer refers to the sink |
| DataProto.DataProto.FlowInit | app/src/main/jni/badvpn/client/DataProto.c:396-456 | a detached flow with a buffer never used before |
| DataProto.DataProto.FlowFree | app/src/main/jni/badvpn/client/DataProto.c:458-484 | frees the buffer now, or leaves it detaching without a flow; every buffer is freed at most once and none is lost |
| DataProto.DataProto.Attach | app/src/main/jni/badvpn/client/DataProto.c:516-543 | the flow desires the sink; its buffer is there at once, or when its packet at another sink is done |
| DataProto.DataProto.Detach | app/src/main/jni/badvpn/client/DataProto.c:545-566 | the flow desires no sink; its buffer leaves at once, or is detaching if busy |
| RelayLinks.InstalledKeeps | app/src/main/jni/badvpn/client/client.c:1802-1822 | flags and lists still agree after a peer is given a relay |
| RelayLinks.UninstalledKeeps | app/src/main/jni/badvpn/client/client.c:1824-1845 | flags and lists still agree after a peer leaves its relay |
| RelayLinks.AssignedSettles | app/src/main/jni/badvpn/client/client.c:2684-2709 | assign_relays gives every waiting peer the first relay if there is one, changes nothing else, and leaves no peer waiting while there is a relay |
| RelayLinks.DisconnectedEmpties | app/src/main/jni/badvpn/client/client.c:1780-1790 | disconnecting users leaves the relay without users, all of them waiting, and no other peer changed |
| RelayLinks.RelayDisabledKeeps | app/src/main/jni/badvpn/client/client.c:1771-1800 | after a relay is disabled its users use the first other relay or wait, the peer keeps its link, and all else is as before |
| RelayLinks.CleanedKeeps | app/src/main/jni/badvpn/client/client.c:1729-1748 | after cleaning up a peer it has no link, no relay, waits for none and is none; only users of it as a relay change |
| RelayLinks.NeedingServes | app/src/main/jni/badvpn/client/client.c:1847-1868 | a peer that needs a relay gives up its link and uses the first relay, or waits exactly if there is none |
| RelayLinks.StepKeeps | app/src/main/jni/badvpn/client/client.c:1606-1898 | every top-level handler keeps: link, relay and waiting mutually exclusive, only peers with a link are relays, lists exactly what the flags say, and no peer waits while a relay exists |
| RelayLinks.NewPeerDoes | app/src/main/jni/badvpn/client/client.c:1440-1475 | a new peer is unconnected, its relay-server flag is recorded, and nothing else changes |
| RelayLinks.RemovePeerDoes | app/src/main/jni/badvpn/client/client.c:1509-1535 | a removed peer is gone from every list, and its users use the first other relay or wait |
| RelayLinks.ConnectDoes | app/src/main/jni/badvpn/client/client.c:2346-2356 | a connection attempt leaves the peer with a fresh link and nothing else, or with nothing if the link cannot be made |
| RelayLinks.ResetDoes | app/src/main/jni/badvpn/client/client.c:1900-1914 | a reset leaves the peer without any connection; only its users change besides |
| RelayLinks.NeedRelayDoes | app/src/main/jni/badvpn/client/client.c:1847-1868 | a peer that needs a relay uses the first one or waits, unless it is a relay itself, and no other peer changes |
| RelayLinks.LinkUpDoes | app/src/main/jni/badvpn/client/client.c:2626-2637 | a relay server whose link comes up is a relay, last in the list; nobody waits any more, all who waited use the first relay, and no other peer changes |
| RelayLinks.LinkDownDoes | app/src/main/jni/badvpn/client/client.c:2638-2645 | a peer whose link goes down is no relay but keeps its link, and its users use the first other relay or wait |
| Relay.Client.InitLink | app/src/main/jni/badvpn/client/client.c:1606-1693 | a sink for the peer, its local flow attached to it |
| Relay.Client.FreeLink | app/src/main/jni/badvpn/client/client.c:1695-1727 | detaches the local flow and frees the sink, which no local flow desires |
| Relay.Client.InstallRelaying | app/src/main/jni/badvpn/client/client.c:1802-1822 | the local flow is attached to the relay's sink |
| Relay.Client.FreeRelaying | app/src/main/jni/badvpn/client/client.c:1824-1845 | the local flow is detached from the relay's sink |
| Relay.Client.RegisterNeedRelay | app/src/main/jni/badvpn/client/client.c:1870-1883 | the peer waits, at the end of the list |
| Relay.Client.UnregisterNeedRelay | app/src/main/jni/badvpn/client/client.c:1885-1898 | the peer no longer waits |
| Relay.Client.AssignRelays | app/src/main/jni/badvpn/client/client.c:2684-2709 | terminates and is the specified assignment |
| Relay.Client.EnableRelayProvider | app/src/main/jni/badvpn/client/client.c:1750-1769 | a relay without users, and then the assignment |
| Relay.Client.DisableRelayProvider | app/src/main/jni/badvpn/client/client.c:1771-1800 | is the specified disabling |
| Relay.Client.CleanupConnections | app/src/main/jni/badvpn/client/client.c:1729-1748 | is the specified clean-up |
| Relay.Client.NeedRelay | app/src/main/jni/badvpn/client/client.c:1847-1868 | is the specified step, for callers that skip relays |
| Relay.Client.ResetPeer | app/src/main/jni/badvpn/client/client.c:1900-1914 | is the specified step |
| Relay.Client.Connect | app/src/main/jni/badvpn/client/client.c:2346-2356 | is the specified step: a fresh link, or a reset |
| Relay.Client.LinkReportsUp | app/src/main/jni/badvpn/client/client.c:2626-2637 | is the specified step |
| Relay.Client.LinkReportsDown | app/src/main/jni/badvpn/client/client.c:2638-2645 | is the specified step |
| Relay.Client.AddPeer | app/src/main/jni/badvpn/client/client.c:1440-1475 | is the specified step: a peer with a detached local flow |
| Relay.Client.PeerRemove | app/src/main/jni/badvpn/client/client.c:1509-1535 | is the specified step: the local flow is detached when it is freed |
| Relay.Client.SinkDone | app/src/main/jni/badvpn/client/DataProto.c:218-225 | the end of a packet at any sink leaves links, relays and what local flows desire as they are |
| SPProto.RoundTrip | app/src/main/jni/badvpn/client/SPProtoEncoder.c:87-152 | for every payload up to the MTU, block size, and choice of hash, one-time password and encryption, decoding the encoded packet returns payload, seed number and password, assuming only that decryption undoes encryption of whole blocks; the packet has the computed length |
| SPProto.Accepted | app/src/main/jni/badvpn/client/SPProtoDecoder.c:42-155 | the decoder accepts a packet with a given result if and only if the packet is that message's plaintext, or decrypts to it followed by a 1 and zeros of 1 to block size bytes |
| SPProto.PadFound | app/src/main/jni/badvpn/client/SPProtoEncoder.c:125-134 | the padding takes 1 to block size bytes and the backward scan finds its start |
| SPProto.StrippedPlaintext | app/src/main/jni/badvpn/client/SPProtoDecoder.c:107-154 | both sides hash the same bytes, with the hash field zeroed |
| SPProto.PlaintextBytes | app/src/main/jni/badvpn/protocol/spproto.h:117-128 | a plaintext is seed number, one-time password, hash and payload, those that are used |
| SPProto.HashedBytes | app/src/main/jni/badvpn/client/SPProtoEncoder.c:112-122 | what is hashed is the whole plaintext with exactly the bytes of the hash field zeroed |
| SPProto.SameHash | app/src/main/jni/badvpn/client/SPProtoDecoder.c:107-154 | two accepted plaintexts with the same hash field are equal, or with that field zeroed two different strings with one hash |
| SPProto.DecodedOk | app/src/main/jni/badvpn/client/SPProtoDecoder.c:42-155 | only messages come out of the decoder |
| SPProto.MtuExact | app/src/main/jni/badvpn/protocol/spproto.h:152-191 | a payload's packet fits a carrier if and only if the payload is no longer than the payload MTU for that carrier |
| SPProtoCodec.SPProtoEncoder.EncodeWork | app/src/main/jni/badvpn/client/SPProtoEncoder.c:87-152 | in place, the output holds the specified packet of the payload that was received |
| SPProtoCodec.SPProtoEncoder.WriteHash | app/src/main/jni/badvpn/client/SPProtoEncoder.c:113-122 | zeroes the field, hashes, and writes the hash into it |
| SPProtoCodec.SPProtoEncoder.WritePadding | app/src/main/jni/badvpn/client/SPProtoEncoder.c:127-134 | writes a 1 and zeros up to a whole block |
| SPProtoCodec.SPProtoDecoder.DecodeWork | app/src/main/jni/badvpn/client/SPProtoDecoder.c:42-155 | returns the specified result and leaves the packet's bytes as they were |
| SPProtoCodec.SPProtoDecoder.FindPadding | app/src/main/jni/badvpn/client/SPProtoDecoder.c:90-104 | the backward loop finds the specified place, or that there is none |
| SPProtoCodec.SPProtoDecoder.CheckHash | app/src/main/jni/badvpn/client/SPProtoDecoder.c:133-150 | compares with the hash over the zeroed field and restores the field |
| Dhcp.StepKeeps | app/src/main/jni/badvpn/dhcpclient/BDHCPClientCore.c:406-678 | the running timers are exactly those of the state, at most 4 requests per offer and 8 processes per transaction number are counted |
| Dhcp.StepReports | app/src/main/jni/badvpn/dhcpclient/BDHCPClientCore.c:406-678 | Up is reported exactly on entering FINISHED or RENEWING from outside, Down exactly on leaving them |
| Dhcp.StepSends | app/src/main/jni/badvpn/dhcpclient/BDHCPClientCore.c:73-198 | a message goes out only if none is on its way, with the current transaction number; a REQUEST asks for the offered address, of the server that offered it at first and of any when renewing |
| Dhcp.StepTurns | app/src/main/jni/badvpn/dhcpclient/BDHCPClientCore.c:406-562 | the client comes up exactly by an ACK of its request, from the server and for the address of the offer, goes down exactly by a NAK from that server or the lease timer, and rests exactly after such a NAK |
| Dhcp.StepKnows | app/src/main/jni/badvpn/dhcpclient/BDHCPClientCore.c:406-562 | the offer kept is the one taken while discovering, and lease, mask, router, servers and address kept are those of the ACK that brought the client up; a renewing ACK brings a lease only |
| Dhcp.StepTimers | app/src/main/jni/badvpn/dhcpclient/BDHCPClientCore.c:42-52 | each timer runs 4 s, 3 s, half the lease, 20 s or half the lease from its start, and running timers are not touched |
| Dhcp.StepAsks | app/src/main/jni/badvpn/dhcpclient/BDHCPClientCore.c:406-678 | what is sent when nothing is under way: DISCOVER on a new start, the REQUEST of an offer up to four times, the REQUEST of a renewal; and when a start takes a new transaction number |
| Dhcp.InitialAsks | app/src/main/jni/badvpn/dhcpclient/BDHCPClientCore.c:770-790 | a new client sends a DISCOVER with a new transaction number and waits 4 s |
| Dhcp.Runs | app/src/main/jni/badvpn/dhcpclient/BDHCPClientCore.c:406-678 | over all runs: timers are those of the state, reports alternate with the last one right, and the renew timer runs half a lease from the last accepted ACK, the lease timer to its end |
| Dhcp.NeverUpTooLong | app/src/main/jni/badvpn/dhcpclient/BDHCPClientCore.c:527-678 | with timers at most d late the client is never up later than 1000*lease + 2*d ms after the last ACK it accepted; with punctual timers (section 4.4.5 of RFC 2131) d is 0 |
| Dhcp.CountedFromAck | app/src/main/jni/badvpn/dhcpclient/BDHCPClientCore.c:509-530 | the bound is reached and the lease runs from the ACK: with punctual timers, a client whose REQUEST went out at 0 and was acknowledged after a delay is up until that delay after the lease from its REQUEST |
| DhcpClass.BDHCPClientCore.StartProcess | app/src/main/jni/badvpn/dhcpclient/BDHCPClientCore.c:565-589 | is the specified start: a new transaction number if forced or used 8 times |
| DhcpClass.BDHCPClientCore.ResetTimerHandler | app/src/main/jni/badvpn/dhcpclient/BDHCPClientCore.c:591-599 | is the specified step |
| DhcpClass.BDHCPClientCore.RequestTimerHandler | app/src/main/jni/badvpn/dhcpclient/BDHCPClientCore.c:601-626 | is the specified step |
| DhcpClass.BDHCPClientCore.RenewTimerHandler | app/src/main/jni/badvpn/dhcpclient/BDHCPClientCore.c:628-646 | is the specified step |
| DhcpClass.BDHCPClientCore.RenewRequestTimerHandler | app/src/main/jni/badvpn/dhcpclient/BDHCPClientCore.c:648-660 | is the specified step |
| DhcpClass.BDHCPClientCore.LeaseTimerHandler | app/src/main/jni/badvpn/dhcpclient/BDHCPClientCore.c:662-678 | is the specified step |
| DhcpClass.BDHCPClientCore.RecvHandlerDone | app/src/main/jni/badvpn/dhcpclient/BDHCPClientCore.c:406-562 | is the specified step for a parsed reply |
| Lines.CutMeaning | app/src/main/jni/badvpn/flow/LineBuffer.c:47-60 | the first packet is complete exactly with the first newline within buf_size bytes, or at buf_size |
| Lines.PacketsGrow | app/src/main/jni/badvpn/flow/LineBuffer.c:39-96 | packets can be cut off the stream as it comes: more input changes no complete packet |
| Lines.StepKeeps | app/src/main/jni/badvpn/flow/LineBuffer.c:39-96 | every handler keeps: packets sent and packets of the buffered bytes are the canonical packets of the input, sent and buffered bytes are the input |
| Lines.AnySlicing | app/src/main/jni/badvpn/flow/LineBuffer.c:39-96 | for every way of slicing the input, what was sent is a prefix of its canonical packets, all of them while the buffer waits for input, and sent plus buffered bytes equal the input |
| Lines.SlicingIrrelevant | app/src/main/jni/badvpn/flow/LineBuffer.c:39-96 | two runs over the same input that both wait for more have sent the same packets |
| LineBuffer.LineBuffer.FindNl | app/src/main/jni/badvpn/flow/LineBuffer.c:47-53 | the search from a place that no newline comes before finds the first newline of the buffer |
| LineBuffer.LineBuffer.InputHandlerDone | app/src/main/jni/badvpn/flow/LineBuffer.c:39-68 | searching only the new bytes is the specified step |
| LineBuffer.LineBuffer.Move | app/src/main/jni/badvpn/flow/LineBuffer.c:77-79 | the bytes behind the packet move to the front |
| LineBuffer.LineBuffer.OutputHandlerDone | app/src/main/jni/badvpn/flow/LineBuffer.c:70-96 | is the specified step |

## Left out

- Flows, entries, peers, sinks and buffers are named by numbers, or by what they hold, and
  kept as map or sequence elements instead of objects of their own, so aliasing between two
  references to one of them is not modelled.
- The frame decider is split into four objects (addresses, groups, multicast index, decisions)
  that the code keeps in one structure.
- FrameDecider.FrameDecider.AnalyzeAndDecide: takes the parsed frame (destination, whether it is
  IGMP, group of a group-specific query); the Ethernet, IPv4 and IGMP headers are not parsed.
  Requires the previous multicast decision to be drained, as the client's loop does; the early
  return otherwise, with the walk's iterator released, is not modelled.
- FrameDecider.FrameDecider.Analyze: takes the source address and the reported groups instead of
  the bytes of the frame, and so leaves out frames too short for an Ethernet header.
- FragmentRoundTrip.RoundTrip: cancelling a partly sent frame is excluded, since it keeps the
  frame id. With a chunk limit below a packet's room the assembler needs more chunks per frame
  than fragmentproto_max_chunks_for_frame counts.
- AssemblerOrder.AnyOrder: assumes that the frame is not evicted and no piece finds it timed
  out; `AssemblerTiming.AnyOrderInTime` says of the wire alone when that is so.
- FragmentIntegrity.OnlySentFrames: 2^16 frames in a row, since numbers then repeat.
- FairQueueClass.PacketPassFairQueue.FlowFree: not of the sending flow, which the code allows
  once the whole queue is being freed.
- The freeing state and the cancel request of the fair queue, but for what freeing a sink does
  to its detaching buffer.
- BProtoWriter.Writer.AddData: copies the data itself where the code returns a pointer for the
  caller to fill; `BProtoParser.Parser.Get` likewise returns the bytes instead of a pointer.
- The bproto compiler itself: its grammar, and the text of the C code it prints. Message types
  are schemas here.
- DataProto: frame MTUs, keepalives, inactivity monitors and the up and down reports of sinks,
  routing into buffers, and the flows of relayed traffic, which attach to sinks in the same way.
- Relay: the messages, timers and transports that lead to link, relay and reset decisions.
- SPProto: the order of seed and one-time password checks in OTPChecker, and threads.
- Dhcp.StepSends: says what a message asks for, not the bytes of its header and options.
- DhcpClass.BDHCPClientCore.RecvHandlerDone: takes the reply that the header checks and the loop
  over the options yield; a malformed reply changes nothing and is no event. Allocation failures and integer overflow of lengths.
- Ciphers, hashes and random numbers are arbitrary functions or inputs.
- Sockets, TLS, the tap device, reactor, JNI glue, logging and command line; ArpProbe, packet
  copiers and connectors, FIFO queues, stream buffers and the password listener.
