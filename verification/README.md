# Verified model of an mlx5 provider and of a kernel RDMA layer on top of it

The repository is a kernel RDMA layer (`KRdmaKit-syscall`) on a copy of the mlx5 user-space
provider (`mlnx-ofed-4.9-driver/src`). This project models the parts of both whose correctness
rests on state that many operations share, and proves what they keep over every run:

| files | component | main results |
|---|---|---|
| `Common.dfy`, `Ring.dfy` | shared notions; positions that grow for ever, slots, laps | a 32-bit counter and the unwrapped position name the same slot and lap |
| `Cqe.dfy`, `CqInvariant.dfy`, `CqClean.dfy`, `CompletionQueue.dfy` | completion queue: owner bits, lazy and eager decompression, cleaning, resizing | every run of device writes, polls, cleans and resizes is a run of a plain queue of completions, in which each is seen at most once and in order and the others were removed; what is polled from a compressed session is what the device packed into it; cleaning filters, resizing keeps what is pending; lazy then eager expansion is the expansion |
| `SqSizing.dfy`, `SendQueue.dfy` | send queue: sizing, overflow check, completion lookup | sizing succeeds exactly for requests that can be met; in every run the device reads off the ring exactly the uncompleted requests, and a completion finds its own request |
| `WrapCopies.dfy` | copies that wrap round the ring | they equal linear ones |
| `Burst.dfy`, `BurstQueue.dfy` | aggregation of frames into multi-packet WQEs | decoding the ring gives the frames that were sent, in order and with their flags; exactly which frames share a WQE |
| `Srq.dfy` | shared receive queue: a free list that the device walks too | the WQEs stay partitioned; in every run receives are consumed in posting order |
| `ErasureMatrix.dfy`, `ErasureCalc.dfy`, `Selection.dfy`, `ErasureUpdate.dfy`, `ErasureDecode.dfy`, `ErasureRecover.dfy` | erasure coding: section layout, update matrix, decode sections | an update leaves the code of the new data; decode launches cover the erasures in order and restore the erased blocks exactly with a matrix that undoes the code; exactly when they fit the pool and stay inside the matrix |
| `ErasureCompletion.dfy` | counted completion of split calculations | in every run one callback per call, exactly when as many launches as it asked for have been tried and all posted ones have completed, failing if and only if one failed; no object is lost |
| `ImplicitLkey.dfy` | on-demand memory regions in a two-level table | exactly which ranges a region covers; in every run of short lookups in one half each gets its own region; prefetch tiles its range, exactly for ranges that stay in their half |
| `Words.dfy`, `Masks.dfy`, `RangeBitmap.dfy`, `HugePages.dfy` | range allocation in huge-page regions | in every run with requests of at most 4 MB live ranges are disjoint, answers are determined by them and regions go with their last buffer; for every larger limit a run that overlaps |
| `DbRecords.dfy` | doorbell records | in every run outstanding records are distinct cache lines inside their pages |
| `CqLocks.dfy` | locking the completion queues of a queue pair | no deadlock and mutual exclusion for any number of threads |
| `VirtualQueue.dfy` | batched push, and per-peer accounting of a bound queue | exactly what is posted, over which transport, and what both ends see of it, whenever the queue migrates; sends, signals, receives and waits balance, in a batch and over a whole push, exactly for which peers |

State that the source updates in place is a class with `modifies` clauses; the ring buffers are
arrays. Each such class carries ghost fields that say what the state means (`hist`, the
completions written so far; `sent` and `recs`, the WQEs written; `chain`, `queue` and `held`,
the WQEs of a receive queue), and its methods are proved against an invariant stated on plain
values. Memory, kernel and device calls that may fail are parameters.

Whole runs are stated against reference machines: a script of events is played on the class and
on a small abstract state (`View` in the queues, `State` in `ErasureCompletion.dfy`), and the two
agree after every script; what the documentation promises is then proved about the abstract run.
Where an answer depends on memory the environment hands out (`HugePages.Run`, `DbRecords.Run`), the
abstract state is what the script and the answers tell, and each answer is characterised by it.

Where a promise does not hold, the code is modelled as it is, a concrete input shows the
failure, and the exact condition is proved:

* Cleaning a completion queue that is full leaves its newest entry out of the sweep: two entries
  of one resource in a ring of two, one of which stays (`CompletionQueues.FullRing`; exactly when:
  `CqClean.CleanExactness`).
* A 16-bit WQE counter names the right block exactly in rings of at most 65536 blocks
  (`SendQueues.SixteenBits`). The device reads a request off the ring exactly when its WQE has fewer
  than 64 units (`SendQueues.DeviceReads`), which is so for every request that is taken exactly up to
  972 inline bytes (`SendQueues.AllCounted`, with 973 bytes as the failing request;
  `BurstQueues.InlineLimit` for aggregated WQEs).
* Decoding reads one entry past its matrix exactly when the number of erasures leaves three for
  the last launch (`ErasureDecode.DecodeReads`), and its launches fit the pool matrices exactly
  when there are no more erasures than code blocks or at least three code blocks
  (`ErasureDecode.PoolFits`).
* Lengths from 2^27 up to 2^28 are let through by an implicit-key lookup although the region
  found may not contain the range (`ImplicitLkeys.CoversIff`, `ImplicitLkeys.SafeLengths`);
  addresses that differ only in their top 15 bits share a table entry, and for every range the
  second of two such lookups gets a region that does not contain it
  (`ImplicitLkeys.HighAddressCollides`; exactly when: `ImplicitLkeys.ImplicitLkey.GetRealMr`).
* The range allocator masks with the region size less one and returns starts combined with a
  `top`, which is right exactly when the size is a power of two and `top` is zero
  (`Masks.MaskExact`, `Masks.MaskZero`, `RangeBitmaps.StartsExact`); regions are multiples of 2 MB,
  not powers of two. For every request size whose region is no power of two, a run of requests no
  larger than it puts two live buffers on the same chunk (`HugePages.LiveOverlap`; with 129, 63 and
  2 chunks: `HugePages.SixMegabytes`). A limit on request sizes excludes this exactly if it is at
  most 4 MB (`HugePages.SafeLimit`), and without such requests every run is in order
  (`HugePages.Run`).
* A push on a queue that nothing connects when its first batch is taken can be answered ok with
  that batch lost (`VirtualQueues.LostBatch`; exactly when: `VirtualQueues.AllPosted`).
* Peer number 0 of a bound queue is never settled (`VirtualQueues.PeerTwelve`; exactly when:
  `VirtualQueues.PeerZero`).

`dafny verify dfyconfig.toml` takes all files.

## Model

| member | source | states |
|---|---|---|
| Ring.CounterWrap | mlnx-ofed-4.9-driver/src/cq.c:130-143 | for a power-of-two ring, slot and lap bit computed from the wrapped 32-bit consumer index are those of the unwrapped position |
| CompletionQueues.CompletionQueue.constructor | mlnx-ofed-4.9-driver/src/cq.c:130-143 | a new queue of any size is in order and nothing is pending |
| CompletionQueues.CompletionQueue.Poll | mlnx-ofed-4.9-driver/src/cq.c:1038-1048 | a poll finds nothing exactly when nothing is pending, otherwise it returns the oldest pending completion, whether its slot is plain or inside a compressed session, and keeps the invariant; what a session's completions are is `Cqes.ExpandsPacked` |
| CompletionQueues.CompletionQueue.OpenSession | mlnx-ofed-4.9-driver/src/cq.c:817-822 | meeting a compressed title saves it and the first mini array and leaves a valid open session |
| CompletionQueues.CompletionQueue.NextChunk | mlnx-ofed-4.9-driver/src/cq.c:758-759 | when the mini array is used up, the next one is read from the slot the device put it in and the invariant holds again |
| CompletionQueues.CompletionQueue.DecompNextCqe | mlnx-ofed-4.9-driver/src/cq.c:754-786 | the completion produced from the next mini entry is the one due at the consumer index |
| CompletionQueues.CompletionQueue.SaveMiniArr | mlnx-ofed-4.9-driver/src/cq.c:728-735 | the mini array is copied before its slot and the following ones are re-marked, up to eight and no further than the session |
| CompletionQueues.CompletionQueue.UpdateCqeOwnership | mlnx-ofed-4.9-driver/src/cq.c:702-725 | exactly the next `size` slots get an opcode byte that holds just the owner bit of their lap, across the ring end too; no other slot changes |
| CompletionQueues.CompletionQueue.CopyCqes | mlnx-ofed-4.9-driver/src/cq.c:574-612 | each mini entry of a chunk is expanded into its slot with the owner bit of its lap, although the title may be one of the slots being overwritten; that is what was packed into them (`Cqes.ExpandsPacked`) |
| CompletionQueues.CompletionQueue.DecompressIdx | mlnx-ofed-4.9-driver/src/cq.c:634-661 | eager expansion turns the whole session into plain entries in place and touches nothing else |
| CompletionQueues.CompletionQueue.DecompressCurr | mlnx-ofed-4.9-driver/src/cq.c:665-699 | what a lazily opened session has not delivered becomes plain entries; the pending sequence is unchanged |
| CompletionQueues.LazyThenEager | mlnx-ofed-4.9-driver/src/cq.c:665-826 | for every session and every `j`, `j` lazy polls followed by eager expansion of the rest give the entries of the full expansion |
| CompletionQueues.PollPacked | mlnx-ofed-4.9-driver/src/cq.c:754-826 | the device packs completions into a session and as many polls give them back in order, each with its own counter and opcode, or its hash, stride position and byte count |
| Cqes.ExpandsPacked | mlnx-ofed-4.9-driver/src/cq.c:574-612 | expanding mini entries packed from completions gives the completions: counter and opcode of sends, hash and byte count of receives, and the receive counter advanced by one or by the strides of those before |
| Cqes.CounterAt | mlnx-ofed-4.9-driver/src/cq.c:595-605 | the receive counter of entry `i` is the first plus `i`, or plus the strides of the entries before on a multi-packet queue, modulo 2^16 |
| Cqes.OpcodeKinds | mlnx-ofed-4.9-driver/src/cq.c:545-568 | no opcode is both a requestor's and a responder's, and invalid entries and resize markers are neither |
| CqClean.TaggedMatches | mlnx-ofed-4.9-driver/src/cq.c:1535-1555 | in either entry format a clean of a resource removes exactly the entries that the device tagged with its number, and gives a WQE back for those of a responder, or of a queue with a shared receive queue |
| CompletionQueues.SessionMeaning | mlnx-ofed-4.9-driver/src/cq.c:574-612 | the pending completions of an unread session are its expansion |
| CompletionQueues.CompletionQueue.DevicePlain | mlnx-ofed-4.9-driver/src/cq.c:130-143 | the device appends a plain entry with the owner bit of its lap: one more pending completion, invariant kept |
| CompletionQueues.CompletionQueue.DeviceSession | mlnx-ofed-4.9-driver/src/cq.c:634-661 | the device appends a compressed session: its expansion becomes pending, invariant kept, also across the ring end |
| CompletionQueues.Step | mlnx-ofed-4.9-driver/src/cq.c:145-176 | each event does to the queue what it does to the plain sequence of pending completions: a write appends, a poll takes the oldest, a clean filters and gives WQEs back, a resize keeps what precedes the marker |
| CompletionQueues.Run | mlnx-ofed-4.9-driver/src/cq.c:145-176 | for every script of device writes, polls, cleans and resizes, what was polled, what was given back and what is pending are those of the plain sequence |
| CompletionQueues.Conserved | mlnx-ofed-4.9-driver/src/cq.c:145-176 | over every interleaving of device writes and polls, pending before followed by all that was written is all that was polled followed by pending after: nothing lost, doubled, invented or reordered |
| CompletionQueues.SeenOnceInOrder | mlnx-ofed-4.9-driver/src/cq.c:145-176 | over every script, with cleans and resizes, what was polled and what is pending is a subsequence of what was pending or written, and the rest is what cleans and resizes removed |
| CompletionQueues.FullRing | mlnx-ofed-4.9-driver/src/cq.c:1577-1602 | in a full ring of two entries of one resource, cleaning it of that resource leaves one of them pending |
| CqInvariant.HeadOfQueue | mlnx-ofed-4.9-driver/src/cq.c:130-176 | the slot at the consumer index looks software-owned exactly when something is pending, and its format tells plain from compressed |
| CqInvariant.SwOwnedIffPending | mlnx-ofed-4.9-driver/src/cq.c:1577-1583 | scanning ahead over plain entries, a slot looks software-owned exactly when it is pending |
| CqInvariant.ConsumedIsNotOwned | mlnx-ofed-4.9-driver/src/cq.c:130-143 | a slot left from this lap is not taken as valid on the next |
| CqInvariant.AppendKeepsInv | mlnx-ofed-4.9-driver/src/cq.c:130-176 | writing behind the pending entries keeps the invariant of an open or closed session |
| Cqes.StripTells | mlnx-ofed-4.9-driver/src/cq.c:130-143 | the pending sequence records everything of a plain entry but its owner bit |
| CqInvariant.MarkedByte | mlnx-ofed-4.9-driver/src/cq.c:702-725 | the opcode byte of a re-marked slot is just the owner bit |
| CqInvariant.LoadChunkKeepsInv | mlnx-ofed-4.9-driver/src/cq.c:728-735 | re-marking the slots of a chunk after saving it keeps the invariant |
| CqInvariant.DeliverKeepsInv | mlnx-ofed-4.9-driver/src/cq.c:754-786 | delivering the next mini entry yields the completion due and keeps the invariant |
| CqClean.CleanExactness | mlnx-ofed-4.9-driver/src/cq.c:1577-1602 | cleaning equals filtering exactly when the queue is not full or its newest entry belongs to another resource |
| CqClean.KeepConcat | mlnx-ofed-4.9-driver/src/cq.c:1556-1613 | filtering distributes over concatenation |
| CqClean.KeepAndGone | mlnx-ofed-4.9-driver/src/cq.c:1589-1602 | what a clean keeps and what it removes make up what was there |
| CqClean.SweepStep | mlnx-ofed-4.9-driver/src/cq.c:1589-1602 | one step of the backward compaction keeps: entries behind are the filtered ones in order, each with the owner bit of the slot it now occupies |
| CqClean.SweepDone | mlnx-ofed-4.9-driver/src/cq.c:1604-1613 | when the sweep ends, advancing the consumer index leaves the invariant on the filtered sequence |
| CompletionQueues.CompletionQueue.ExpandPending | mlnx-ofed-4.9-driver/src/cq.c:1576-1583 | before the sweep every pending entry is plain and the scan stops behind the last one, or one slot short in a full ring |
| CompletionQueues.CompletionQueue.Sweep | mlnx-ofed-4.9-driver/src/cq.c:1589-1602 | the backward loop compacts the entries that stay and frees each removed responder entry's WQE once, newest first |
| CompletionQueues.CompletionQueue.Clean | mlnx-ofed-4.9-driver/src/cq.c:1556-1613 | the pending sequence becomes the old one without the resource's entries, in order, and exactly the removed responder entries' WQEs are returned to the receive queue |
| CompletionQueues.CompletionQueue.ResizeCopyCqes | mlnx-ofed-4.9-driver/src/cq.c:1632-1687 | if a resize marker is pending, everything before it is pending in the new ring, in order, from the next consumer index on, with the new ring's owner bits and nothing else software-owned; otherwise, and exactly then, the copy gives up and nothing changes |
| CompletionQueues.CompletionQueue.CopyPending | mlnx-ofed-4.9-driver/src/cq.c:1656-1687 | the copy loop finds the marker exactly if one is pending, also when it walks the whole ring and comes back to its start |
| CqInvariant.CopiedStep | mlnx-ofed-4.9-driver/src/cq.c:1666-1685 | copying one entry to its slot in the new ring keeps the copied prefix |
| CqInvariant.CopiedInv | mlnx-ofed-4.9-driver/src/cq.c:1622-1687 | a complete copy satisfies the invariant of the new ring |
| SqSizing.RoundUpPowerOfTwo | mlnx-ofed-4.9-driver/src/verbs.c:592-605 | the least power of two not below the argument, failing only beyond 2^30 |
| SqSizing.Overhead | mlnx-ofed-4.9-driver/src/verbs.c:1277-1399 | the fixed part of a reliable-connection WQE is whole segments and at least control plus remote address |
| SqSizing.SendWqeSize | mlnx-ofed-4.9-driver/src/verbs.c:1401-1455 | a WQE size of whole blocks that has room for the overhead and the requested gather entries, and for the requested inline data |
| SqSizing.WqeSizeIsLeast | mlnx-ofed-4.9-driver/src/verbs.c:1401-1455 | the WQE size is found exactly if the largest WQE of the device holds each kind that was asked for, with gather entries, inline keys, inline data and atomic operands, and it is the least number of whole blocks that does |
| SqSizing.OverheadIs | mlnx-ofed-4.9-driver/src/verbs.c:1285-1297 | the fixed part takes 32 bytes, 144 with memory registration, 192 with memory window binding |
| SqSizing.MaxGsIsMost | mlnx-ofed-4.9-driver/src/verbs.c:1511-1574 | the number of gather entries is the most that fit behind 32 bytes within 512, and behind the overhead within the WQE |
| SqSizing.CalcSqSize | mlnx-ofed-4.9-driver/src/verbs.c:1511-1574 | it succeeds exactly when some ring of a power of two of bytes has room for the requested WQEs of the computed size within all limits; then the ring has a power of two of blocks in which `max_post` such WQEs fit; an empty request and an impossible WQE size are told apart |
| SqSizing.RoundedIsLeast | mlnx-ofed-4.9-driver/src/verbs.c:1552-1557 | the rounded-up ring size is within the device limit exactly when any power of two that is large enough is |
| SendQueues.FastPathFits | mlnx-ofed-4.9-driver/src/qp.c:2046-2089 | every WQE the fast path builds, and every partial one it gives up on, fits the computed WQE size |
| SendQueues.InlineFits | mlnx-ofed-4.9-driver/src/qp.c:550-595 | inline data that is accepted under `max_inline_data`, with its unsigned wrap-around, fits the WQE size |
| SendQueues.RoomForOne | mlnx-ofed-4.9-driver/src/qp.c:360-383 | if the overflow test passes, a whole WQE fits before the oldest uncompleted one |
| SendQueues.StartsBounded | mlnx-ofed-4.9-driver/src/qp.c:2258-2260 | the blocks between two WQEs are bounded by their number times the WQE size |
| SendQueues.PostKeepsInv | mlnx-ofed-4.9-driver/src/qp.c:2258-2260 | recording a WQE keeps every uncompleted WQE's image, request id and ordinal |
| SendQueues.WriteKeepsInv | mlnx-ofed-4.9-driver/src/qp.c:2046-2089 | writing beyond the uncompleted WQEs keeps the invariant |
| SendQueues.CompleteKeepsInv | mlnx-ofed-4.9-driver/src/cq.c:1148-1165 | completing any uncompleted WQE, skipping unsignalled ones, keeps the invariant |
| SendQueues.Lookup | mlnx-ofed-4.9-driver/src/cq.c:1148-1165 | the 16-bit counter of an uncompleted WQE, if it names its block, indexes that WQE's own request id and ordinal |
| SendQueues.SendQueue.constructor | mlnx-ofed-4.9-driver/src/verbs.c:1511-1574 | a queue of the computed geometry starts in order and empty |
| SendQueues.SendQueue.PostSend | mlnx-ofed-4.9-driver/src/qp.c:2207-2293 | exactly the accepted prefix is encoded in order behind the old WQEs; the device reads each of them off the ring as it was asked for; the first refused request is reported, and it is refused exactly for lack of room, too many entries or too much inline data |
| SendQueues.SendQueue.PostOne | mlnx-ofed-4.9-driver/src/qp.c:2046-2089 | one request adds the WQE that encodes it, off which the device reads the request; one refused for its inline data leaves the queue and its control unit as they were and writes beyond them just what `SendQueues.ResidueHolds` tells |
| SendQueues.ResidueHolds | mlnx-ofed-4.9-driver/src/qp.c:550-595 | what a request refused for its inline data leaves is its remote address and the bytes of the entries that fitted |
| SendQueues.SendQueue.WriteUnits | mlnx-ofed-4.9-driver/src/qp.c:2046-2089 | the segments of a WQE land in consecutive ring units, wrapping, and nothing in use changes |
| SendQueues.SendQueue.Complete | mlnx-ofed-4.9-driver/src/cq.c:1148-1165 | a completion whose counter names its block returns its WQE's request id and frees everything up to it |
| SendQueues.Run | mlnx-ofed-4.9-driver/src/qp.c:2207-2293 | for every script of posts and completions, the WQEs encode exactly the accepted requests in order, the device reads every uncompleted one off the ring (operation, signalling, remote address and key, and the gathered bytes), and each completion reports the request it is for |
| SendQueues.Step | mlnx-ofed-4.9-driver/src/qp.c:2207-2293 | each event does to the queue what it does to the list of accepted requests |
| SendQueues.ReportedInOrder | mlnx-ofed-4.9-driver/src/cq.c:1148-1165 | over every run the completions reported are of accepted requests in strictly ascending order, from the first uncompleted one on |
| SendQueues.DeviceReads | mlnx-ofed-4.9-driver/src/qp.c:2046-2089 | reading a WQE off the ring by the size in its control unit, with data inline or in host memory, gives the request's operation, signalling, block, remote address and key and its gathered bytes, if and only if it has fewer than 64 units |
| SendQueues.AllCounted | mlnx-ofed-4.9-driver/src/qp.c:550-595 | every request that a queue takes has fewer than 64 units exactly when the inline limit is at most 972 bytes or no gather entry is taken |
| SendQueues.PointersReach | mlnx-ofed-4.9-driver/src/qp.c:2046-2089 | the pointer units lead to the gathered bytes in order, empty entries left out, and a proper prefix of them to fewer |
| SendQueues.HeaderReads | mlnx-ofed-4.9-driver/src/qp.c:588-592 | the four bytes of the inline length word read back as the length with the top bit set |
| SendQueues.SixteenBits | mlnx-ofed-4.9-driver/src/cq.c:1148-1165 | the 16-bit counter of every WQE names its block exactly when the ring has at most 65536 blocks |
| WrapCopies.PutWrapped | mlnx-ofed-4.9-driver/src/qp.c:578-586 | a copy split at the ring end stores the bytes as read round the ring and leaves the pointer behind them |
| WrapCopies.GatherInline | mlnx-ofed-4.9-driver/src/qp.c:550-595 | inline gather stores the header and the concatenated bytes of all entries round the ring, nothing at all if they are empty, or reports too much data after the entries that fitted |
| WrapCopies.BfCopy | mlnx-ofed-4.9-driver/src/doorbell.h:123-132 | the write-combining copy emits the blocks in ring order |
| WrapCopies.CopyToScat | mlnx-ofed-4.9-driver/src/qp.c:175-223 | the loop writes what scattering over its descriptors prescribes and returns the rest |
| WrapCopies.CopyToSendWqe | mlnx-ofed-4.9-driver/src/qp.c:310-332 | scatter split at the end of the send queue writes the same bytes to the same places, with the same status, as over the unrolled descriptor list |
| WrapCopies.ScatterSplit | mlnx-ofed-4.9-driver/src/qp.c:312-332 | scattering over two descriptor lists in turn is scattering over their concatenation |
| WrapCopies.ScatterConserves | mlnx-ofed-4.9-driver/src/qp.c:175-223 | what is written, in order, and what is left over make up the data |
| Burst.DecodeImage | mlnx-ofed-4.9-driver/src/qp.c:2720-2980 | decoding a WQE as the device does, with gathered data read from host memory, gives exactly the frames aggregated in it, with the completion, solicited, fence and checksum flags of each |
| Burst.ChopStream | mlnx-ofed-4.9-driver/src/qp.c:2720-2980 | cutting the concatenation of frames of one length gives the frames |
| BurstQueues.WalkIsSent | mlnx-ofed-4.9-driver/src/qp.c:2720-2980 | walking the ring by the sizes in the control segments finds the frames of the WQEs, with their flags, in order |
| BurstQueues.PlaceKeepsInv | mlnx-ofed-4.9-driver/src/qp.c:2962-2973 | writing a WQE at the producer position, or rewriting the last one in place, keeps all other WQEs and makes the position the sum of the rounded-up sizes |
| BurstQueues.Grow | mlnx-ofed-4.9-driver/src/qp.c:2732-2756 | a frame of the same length and flags extends the open WQE into a well-formed larger one that stays below 64 units |
| BurstQueues.InlineLimit | mlnx-ofed-4.9-driver/src/qp.c:2735-2742 | every aggregated inline WQE that an inline limit admits stays below 64 units exactly when the limit is at most 972 bytes |
| BurstQueues.BurstQueue.OpenNew | mlnx-ofed-4.9-driver/src/qp.c:2757-2965 | a frame that cannot be added opens a new multi-packet WQE with just that frame |
| BurstQueues.BurstQueue.AppendInline | mlnx-ofed-4.9-driver/src/qp.c:2732-2980 | an inline frame is added to the open inline WQE, across the ring end too |
| BurstQueues.BurstQueue.AppendPointers | mlnx-ofed-4.9-driver/src/qp.c:2745-2980 | a gathered frame is added to the open WQE, at most five entries in all |
| BurstQueues.BurstQueue.SendSingle | mlnx-ofed-4.9-driver/src/qp.c:2774-2965 | a frame too long for aggregation gets its own WQE with 18 header bytes inline; it is refused exactly when its first buffer is not longer than that |
| BurstQueues.BurstQueue.SendPending | mlnx-ofed-4.9-driver/src/qp.c:2695-2986 | the frame joins the open WQE exactly if that holds frames of its kind and length and with it keeps within five gather entries or the inline limit, and otherwise starts one; the WQE stays open exactly if the frame is not signalled and there is room for more; the frames in the queue become the old ones followed by this one, and WQEs whose doorbell has rung do not change |
| BurstQueues.TracksNext | mlnx-ofed-4.9-driver/src/qp.c:2695-2986 | within a burst a buffer starts a WQE exactly if the burst is signalled, it is too long to share, or the buffers of its length before it fill WQEs of five |
| BurstQueues.FiveToAWqe | mlnx-ofed-4.9-driver/src/qp.c:2745-2756 | a burst of `n` unsignalled buffers of one length that may share takes `(n + 4) / 5` WQEs |
| BurstQueues.OneToAWqe | mlnx-ofed-4.9-driver/src/qp.c:2945-2953 | signalled buffers and those too long to share take a WQE each |
| BurstQueues.BurstQueue.RingMeaning | mlnx-ofed-4.9-driver/src/qp.c:2695-2986 | what the device reads from its position on is exactly the frames of the unfinished WQEs, with their flags, in order |
| BurstQueues.BurstQueue.Flush | mlnx-ofed-4.9-driver/src/qp.c:3371-3379 | ringing the doorbell closes the open WQE and covers all WQEs; the block it is told is behind the last one, and the blocks that may be pushed along are exactly the newest WQE, none if there is no new one |
| BurstQueues.BurstQueue.DeviceDone | mlnx-ofed-4.9-driver/src/qp.c:3371-3379 | finishing WQEs whose doorbell has rung keeps the invariant of the others |
| BurstQueues.BurstQueue.SendMsgList | mlnx-ofed-4.9-driver/src/qp.c:3294-3319 | although the loop ignores the outcome of each send, a burst of single-buffer frames is sent completely, the device finds exactly these frames, with the given flags, behind the unfinished ones, and from a closed WQE on it takes exactly as many WQEs as lengths and signalling prescribe (`BurstQueues.FiveToAWqe`, `BurstQueues.OneToAWqe`) |
| SharedReceiveQueues.Srq.constructor | mlnx-ofed-4.9-driver/src/srq.c:264-275 | initially every WQE is in the free chain, linked in index order |
| SharedReceiveQueues.Srq.PostRecv | mlnx-ofed-4.9-driver/src/srq.c:147-218 | exactly the accepted prefix is appended to the posted receives; it stops at the first request with too many entries, or for lack of space exactly when one free WQE is left |
| SharedReceiveQueues.Srq.FreeWqe | mlnx-ofed-4.9-driver/src/srq.c:76-87 | a consumed WQE goes to the end of the free chain |
| SharedReceiveQueues.Srq.DeviceConsume | mlnx-ofed-4.9-driver/src/srq.c:182-185 | the device, following the links, meets the receives in posting order with their ids and scatter lists |
| SharedReceiveQueues.Srq.Requeue | mlnx-ofed-4.9-driver/src/srq.c:108-145 | requeueing keeps the multiset of outstanding receives, also with a single free WQE |
| SharedReceiveQueues.PostKeepsInv | mlnx-ofed-4.9-driver/src/srq.c:182-198 | posting moves the head of the chain to the device's queue and keeps the partition |
| SharedReceiveQueues.FreeKeepsInv | mlnx-ofed-4.9-driver/src/srq.c:76-87 | freeing keeps chain, queue and held WQEs a partition and the chain linked |
| SharedReceiveQueues.ConsumeKeepsInv | mlnx-ofed-4.9-driver/src/srq.c:182-185 | the device's step keeps the invariant and yields the oldest posted receive |
| SharedReceiveQueues.RequeueKeepsInv | mlnx-ofed-4.9-driver/src/srq.c:108-145 | requeueing keeps the invariant and the outstanding receives |
| SharedReceiveQueues.OneLeft | mlnx-ofed-4.9-driver/src/srq.c:173-180 | head equals tail exactly when the free chain has one element |
| SharedReceiveQueues.WriteSegs | mlnx-ofed-4.9-driver/src/srq.c:188-198 | the scatter list written, with its terminator, means the request's list |
| SharedReceiveQueues.CopySegs | mlnx-ofed-4.9-driver/src/srq.c:127-134 | copying up to the terminator preserves the meaning of a scatter list |
| SharedReceiveQueues.Run | mlnx-ofed-4.9-driver/src/srq.c:76-218 | for every script of posts, consumptions, frees and requeues, what was posted, what the device received and which requests are held are those of the plain list |
| SharedReceiveQueues.Step | mlnx-ofed-4.9-driver/src/srq.c:76-218 | each event does to the queue what it does to the plain list of requests |
| SharedReceiveQueues.EffectiveStops | mlnx-ofed-4.9-driver/src/srq.c:183-197 | the device uses a scatter list up to its first invalid key, all of it if there is none |
| SharedReceiveQueues.NoneLost | mlnx-ofed-4.9-driver/src/srq.c:76-218 | over every run the free WQEs, those still to be consumed and those consumed and not given back are all there are |
| SharedReceiveQueues.ReceivedInOrder | mlnx-ofed-4.9-driver/src/srq.c:147-218 | over every run what the device receives is a stretch of what was posted, in order, each once |
| ErasureMatrix.SectionCols | mlnx-ofed-4.9-driver/src/ec.h:55-73 | the section macros cut `m` columns into fours with the rest last |
| ErasureMatrix.ByteSymbols | mlnx-ofed-4.9-driver/src/ec.c:82-189 | bytes under exclusive or with any GF(2^8) multiplication satisfy what the proofs assume of symbols |
| ErasureMatrix.FillSection | mlnx-ofed-4.9-driver/src/ec.c:576-589 | one section's cells hold the matrix columns from its offset, the padding column zero, other cells unchanged |
| ErasureMatrix.RegEncodeMatrix | mlnx-ofed-4.9-driver/src/ec.c:539-598 | all sections of the encode matrix are stored in the one allocation, without overlap |
| ErasureCalc.SectionDot | mlnx-ofed-4.9-driver/src/ec.c:539-598 | multiplying by a column of a stored section is multiplying by the matrix column it was taken from |
| ErasureCalc.PaddingDot | mlnx-ofed-4.9-driver/src/ec.c:579-582 | the fourth output of a three-column section is zero |
| ErasureCalc.EncodeBigM | mlnx-ofed-4.9-driver/src/ec.c:1635-1674 | encoding section by section gives every code block of the whole matrix |
| ErasureUpdate.EncodeEntry | mlnx-ofed-4.9-driver/src/ec.c:144-163 | the section lookup yields the encode-matrix entry |
| ErasureUpdate.IdentityRows | mlnx-ofed-4.9-driver/src/ec.c:112-126 | the first rows are the identity |
| ErasureUpdate.CopyRows | mlnx-ofed-4.9-driver/src/ec.c:130-181 | each changed data block's selected entries fill two rows |
| ErasureUpdate.GetUpdateMat | mlnx-ofed-4.9-driver/src/ec.c:82-189 | the update matrix for a section: identity, doubled rows, zero padding column |
| ErasureUpdate.UpdateIsEncode | mlnx-ofed-4.9-driver/src/ec.c:82-189 | over symbols of characteristic two, the update matrix times old codes and old/new pairs is the selected columns of the encode matrix times the new data |
| ErasureUpdate.CheckUpdateParams | mlnx-ofed-4.9-driver/src/ec.c:1706-1718 | counts the changed blocks; refuses exactly when the update matrix would have at least `k` rows |
| ErasureUpdate.PoolRoom | mlnx-ofed-4.9-driver/src/ec.c:779-815 | a pool matrix has room for every admitted update matrix |
| ErasureUpdate.SectionInputs | mlnx-ofed-4.9-driver/src/ec.c:1783-1799 | the inputs assembled for a section are its old codes and all old/new pairs |
| ErasureUpdate.UpdateBigM | mlnx-ofed-4.9-driver/src/ec.c:1750-1819 | an update of any number of codes makes one launch for every four and leaves in all of them the codes of the new data |
| ErasureUpdate.UpdateAsync | mlnx-ofed-4.9-driver/src/ec.c:1821-1852 | an update is refused exactly when encoding is preferred, otherwise every selected code block gets the code of the new data |
| ErasureDecode.EnoughSurvivors | mlnx-ofed-4.9-driver/src/ec.c:1878-1976 | with at most `m` erasures there are `k` inputs |
| ErasureDecode.SetDecodeKlms | mlnx-ofed-4.9-driver/src/ec.c:1878-1976 | outputs are the section's erased blocks, inputs the first `k` survivors, in index order; it fails exactly for more than four outputs or a block of another length |
| ErasureDecode.GetDecodeMat | mlnx-ofed-4.9-driver/src/ec.c:49-79 | the launch matrix holds the decode-matrix columns from the offset; what is read past a row is overwritten |
| ErasureDecode.ReadsInside | mlnx-ofed-4.9-driver/src/ec.c:64-72 | a launch reads inside the matrix exactly when its columns, padded to four if there are three, are all there; it never reads more than one entry past the end |
| ErasureDecode.DecodeReads | mlnx-ofed-4.9-driver/src/ec.c:2087-2152 | all launches of a call read inside its matrix exactly when the number of erasures does not leave three for the last |
| ErasureDecode.PoolFits | mlnx-ofed-4.9-driver/src/ec.c:779-815 | all launches of a call fit a pool matrix exactly when there are no more erasures than code blocks, or at least three code blocks |
| ErasureDecode.DecodeSection | mlnx-ofed-4.9-driver/src/ec.c:1978-2085 | a launch, built in a pool matrix, computes for its erased blocks the decode-matrix columns of the same numbers times the survivors |
| ErasureDecode.DecodeBigM | mlnx-ofed-4.9-driver/src/ec.c:2087-2152 | exactly one launch for every four erasures; launch `s` is for the erased blocks from number `4 s` on |
| ErasureDecode.DecodeAsync | mlnx-ofed-4.9-driver/src/ec.c:2154-2182 | the same for any number of erasures, none included |
| ErasureRecover.RestoresIff | mlnx-ofed-4.9-driver/src/ec.c:1978-2085 | a column of the decode matrix gives a block of the encoded data from the survivors, whatever the data, exactly when it undoes the code for that block |
| ErasureRecover.BlockMeans | mlnx-ofed-4.9-driver/src/ec.c:1635-1674 | the blocks of the encoded data are the data blocks and, after them, the code blocks that encoding computes |
| ErasureRecover.DecodeRestores | mlnx-ofed-4.9-driver/src/ec.c:2154-2182 | after decoding with such a matrix every erased block has been given its block of the encoded data |
| ErasureCompletion.AnsweredOnce | mlnx-ofed-4.9-driver/src/ec.c:1600-1633 | in every state that satisfies the invariant a call has been called back at most once, exactly when all its launches are accounted for, with failure exactly when one failed |
| ErasureCompletion.AnsweredInEveryRun | mlnx-ofed-4.9-driver/src/ec.c:1600-1674 | in every run from the start a call is answered at most once, exactly when the history shows as many launches tried as it asked for and all posted ones completed, and with failure exactly when one was not posted or completed badly |
| ErasureCompletion.RunAgrees | mlnx-ofed-4.9-driver/src/ec.c:1600-1674 | what the state knows of a call, its launches, failures and outstanding posts, is what the history of the run shows |
| ErasureCompletion.RunTotals | mlnx-ofed-4.9-driver/src/ec.c:239-265 | in every run the calls known are those that found fewer calls waiting than there are objects, each with the number of launches it asked for |
| ErasureCompletion.RunConserves | mlnx-ofed-4.9-driver/src/ec.c:239-334 | in every run each multi-completion object is free or serves one waiting call, and each launch object is free or posted: none is lost |
| ErasureCompletion.AfterKeepsInv | mlnx-ofed-4.9-driver/src/ec.c:1601-1674 | every step of the system keeps the invariant of all calls |
| ErasureCompletion.BeginKeepsInv | mlnx-ofed-4.9-driver/src/ec.c:239-265 | taking an object for a new call keeps the invariant of all calls |
| ErasureCompletion.PostKeepsInv | mlnx-ofed-4.9-driver/src/ec.c:1658-1672 | posting a launch keeps it |
| ErasureCompletion.AccountKeepsInv | mlnx-ofed-4.9-driver/src/ec.c:1600-1625 | accounting for a launch keeps it; the object returns to the pool only with the callback |
| ErasureCompletion.ReleaseOwes | mlnx-ofed-4.9-driver/src/ec.c:320-333 | releasing a launch object owes exactly one accounting |
| ErasureCompletion.Calc.GetMultiComp | mlnx-ofed-4.9-driver/src/ec.c:239-265 | a call gets an object of its own that counts exactly the launches asked for, or is refused |
| ErasureCompletion.Calc.SetStatusCheckDone | mlnx-ofed-4.9-driver/src/ec.c:1600-1625 | failure is remembered, the count goes down, zero frees the object and calls back |
| ErasureCompletion.Calc.LaunchNext | mlnx-ofed-4.9-driver/src/ec.c:1658-1672 | a launch is posted, or accounted for at once as failed |
| ErasureCompletion.Calc.HandleEcComp | mlnx-ofed-4.9-driver/src/ec.c:291-334 | a receive completion frees its launch object and accounts for it |
| ErasureCompletion.Calc.Step | mlnx-ofed-4.9-driver/src/ec.c:1601-1674 | the driver carries out each event as the transition of the system |
| ErasureCompletion.Calc.Run | mlnx-ofed-4.9-driver/src/ec.c:1601-1674 | for every script of calls, launches and completions the driver ends in the state the transitions lead to, and no answered call is answered again |
| ImplicitLkeys.IndexMeans | mlnx-ofed-4.9-driver/src/implicit_lkey.c:153-156 | the second region of a pair is chosen exactly when the range comes within a byte of the first one's end |
| ImplicitLkeys.CoversIff | mlnx-ofed-4.9-driver/src/implicit_lkey.c:149-164 | the region chosen covers the range exactly for admissible offset and length |
| ImplicitLkeys.SafeLengths | mlnx-ofed-4.9-driver/src/implicit_lkey.c:158-162 | a length is covered at every address exactly when it is below 2^27 |
| ImplicitLkeys.SlotDetermines | mlnx-ofed-4.9-driver/src/implicit_lkey.c:149-156 | the table entry determines the region's base up to the top bits |
| ImplicitLkeys.CoverExact | mlnx-ofed-4.9-driver/src/implicit_lkey.c:236-239 | the assertion after a lookup holds exactly for an admissible range whose entry was made for the same top bits |
| ImplicitLkeys.ImplicitLkey.Slot | mlnx-ofed-4.9-driver/src/implicit_lkey.c:184-234 | tables and region are made on demand, and it fails exactly if one that is missing cannot be had; an existing entry never changes and no other entry does |
| ImplicitLkeys.ImplicitLkey.GetRealMr | mlnx-ofed-4.9-driver/src/implicit_lkey.c:144-241 | refused exactly for long ranges and non-canonical addresses; every entry always holds the region its keys determine; the region found contains the range exactly when the range is admissible and its entry was free or made for the same top bits |
| ImplicitLkeys.HighAddressCollides | mlnx-ofed-4.9-driver/src/implicit_lkey.c:144-241 | for every range below 2^49: after its lookup, the same range in the upper half is answered with the same region, which does not contain it |
| ImplicitLkeys.Run | mlnx-ofed-4.9-driver/src/implicit_lkey.c:144-241 | in every run of lookups shorter than 2^27 bytes that stay in one half, each is answered with the region for its range, which contains it, unless memory or a registration fails |
| ImplicitLkeys.SameSlot | mlnx-ofed-4.9-driver/src/implicit_lkey.c:149-156 | addresses that differ only in their top bits have the same keys and different region bases |
| ImplicitLkeys.ImplicitLkey.Prefetch | mlnx-ofed-4.9-driver/src/implicit_lkey.c:257-292 | from any table, the pieces lie end to end from the start, to the end on success, each inside its region exactly when its entry was usable before; it succeeds only if the range stays in its half of the canonical addresses, and then exactly if no step fails; existing entries are kept |
| ImplicitLkeys.TilesExactly | mlnx-ofed-4.9-driver/src/implicit_lkey.c:257-292 | an address is in some piece exactly when it is in the range |
| ImplicitLkeys.TilesInOrder | mlnx-ofed-4.9-driver/src/implicit_lkey.c:257-292 | the pieces are in order and do not overlap |
| ImplicitLkeys.TiledCovered | mlnx-ofed-4.9-driver/src/implicit_lkey.c:257-292 | with regions for the same top bits only, every piece is inside its region |
| Words.FindFirstZeroBit | mlnx-ofed-4.9-driver/src/bitmap.h:72-94 | the lowest clear bit below the size, or the size |
| Words.PutBit | mlnx-ofed-4.9-driver/src/bitmap.h:96-109 | setting or clearing a bit changes that bit only |
| Words.ClearsPut | mlnx-ofed-4.9-driver/src/bitmap.h:96-104 | setting or clearing a bit changes the number of clear bits by one exactly if the bit changes |
| Masks.BitByBit | mlnx-ofed-4.9-driver/src/buf.c:92-97 | the mask and the combination with `top` work bit by bit |
| Masks.MaskExact | mlnx-ofed-4.9-driver/src/buf.c:92 | masking with `n - 1` keeps every number below `n` exactly when `n` is a power of two |
| Masks.MaskZero | mlnx-ofed-4.9-driver/src/buf.c:97 | the mask `n - 1` takes all of `n` away, so that `top` stays zero, exactly when `n` is a power of two |
| Masks.MaskLeaves | mlnx-ofed-4.9-driver/src/buf.c:97 | of a multiple of 64 that is no power of two the mask leaves something, and at least 64 less |
| RangeBitmaps.StartsExact | mlnx-ofed-4.9-driver/src/buf.c:87-214 | every place is returned as its own start and found again by freeing exactly when `top` is zero and the size a power of two |
| RangeBitmaps.FindAlignedRange | mlnx-ofed-4.9-driver/src/buf.c:148-175 | the least suitable aligned start from a given one, none exactly when there is none |
| RangeBitmaps.Bitmap.constructor | mlnx-ofed-4.9-driver/src/buf.c:71-85 | a new bitmap is clear and all of it available |
| RangeBitmaps.Bitmap.Alloc | mlnx-ofed-4.9-driver/src/buf.c:126-146 | a single chunk is the lowest clear bit |
| RangeBitmaps.Bitmap.AllocRange | mlnx-ofed-4.9-driver/src/buf.c:177-214 | fails exactly when no suitable clear run exists; sets exactly the bits of the range found; `avail` stays the number of clear bits |
| RangeBitmaps.Bitmap.FreeRange | mlnx-ofed-4.9-driver/src/buf.c:87-99 | clears the bits of the masked range and counts them |
| HugePages.Allocator.AllocHugeBuf | mlnx-ofed-4.9-driver/src/buf.c:263-333 | a buffer is a range of the first region with a suitable run, disjoint from all live ones; a new region, of the size the request makes, exactly if no region has a suitable run; it fails exactly when neither is to be had or the fork exclusion fails, and then leaves nothing behind |
| HugePages.Allocator.Search | mlnx-ofed-4.9-driver/src/buf.c:276-287 | the list walk stops at the first region with a suitable range, exactly when some region has one |
| HugePages.Allocator.AddRegion | mlnx-ofed-4.9-driver/src/buf.c:289-310 | a new region, of the request's size rounded up to 2 MB, satisfies the request it was made for; it goes to the front of the list if it has room left, else to the back |
| HugePages.Allocator.FreeHugeBuf | mlnx-ofed-4.9-driver/src/buf.c:335-348 | a buffer whose start survives the mask, and whose region is a power of two or held only that buffer, is gone, and its region stays exactly if another live buffer is in it |
| HugePages.PowerRegion | mlnx-ofed-4.9-driver/src/buf.c:87-214 | in a region whose size is a power of two every search and every free is safe |
| HugePages.Step | mlnx-ofed-4.9-driver/src/buf.c:263-348 | one request or free: the answer is determined by the buffers that are out, and they stay disjoint |
| HugePages.Run | mlnx-ofed-4.9-driver/src/buf.c:263-348 | in every run of requests that make power-of-two regions, and of frees: after each event the buffers that are out, told by script and answers, are disjoint and inside their regions, each request is met exactly when there is room or a new region, and a region is kept exactly while a buffer is in it |
| HugePages.RoomyMeans | mlnx-ofed-4.9-driver/src/buf.c:276-287 | the bitmaps have a suitable range exactly when the buffers that are out leave one |
| HugePages.SafeLimit | mlnx-ofed-4.9-driver/src/buf.c:216-245 | a limit on request sizes makes all regions powers of two exactly when it is at most 128 chunks |
| HugePages.LiveOverlap | mlnx-ofed-4.9-driver/src/buf.c:87-348 | for every request size whose region is no power of two: two requests no larger, a free of the first and a third request leave two live buffers that share a chunk |
| HugePages.SixMegabytes | mlnx-ofed-4.9-driver/src/buf.c:87-348 | with requests of 129, 63 and 2 chunks the starts are 0, 129 and 128 |
| HugePages.EmptyMeansUnused | mlnx-ofed-4.9-driver/src/buf.c:101-104 | the emptiness test holds exactly when no live buffer is in the region |
| HugePages.AddBuf | mlnx-ofed-4.9-driver/src/buf.c:198-206 | marking a clear range for a buffer keeps the account and disjointness |
| HugePages.DropBuf | mlnx-ofed-4.9-driver/src/buf.c:94-95 | clearing a buffer's range keeps the account and disjointness |
| DbRecords.AddrMeans | mlnx-ofed-4.9-driver/src/dbrec.c:112 | a record's address determines its page and line, and the line lies inside the page |
| DbRecords.FreeLine | mlnx-ofed-4.9-driver/src/dbrec.c:96-105 | with fewer records out than lines, some line below `num_db` is free |
| DbRecords.Scan | mlnx-ofed-4.9-driver/src/dbrec.c:105-110 | the scan ends inside the table, on the lowest free line, below `num_db` although the spare bits are marked free |
| DbRecords.Page.Take | mlnx-ofed-4.9-driver/src/dbrec.c:102-111 | takes exactly the lowest free line and counts it |
| DbRecords.Page.Give | mlnx-ofed-4.9-driver/src/dbrec.c:134-137 | frees exactly that line and counts it |
| DbRecords.Context.AddPage | mlnx-ofed-4.9-driver/src/dbrec.c:53-85 | a new page with all lines free at the head of the list |
| DbRecords.Context.AllocDbrec | mlnx-ofed-4.9-driver/src/dbrec.c:87-118 | a record that is not outstanding, the lowest free line of a page and inside it; a new page exactly if all are full; failure exactly if then none can be had |
| DbRecords.Context.FreeDb | mlnx-ofed-4.9-driver/src/dbrec.c:120-152 | exactly that record is no longer outstanding; a page is unlinked exactly with its last record |
| DbRecords.OutApart | mlnx-ofed-4.9-driver/src/dbrec.c:87-118 | two outstanding records share no byte |
| DbRecords.OutMeans | mlnx-ofed-4.9-driver/src/dbrec.c:87-118 | an outstanding record is a line of its page and lies inside it |
| DbRecords.Step | mlnx-ofed-4.9-driver/src/dbrec.c:87-152 | one event: the answer is determined by the records that are out |
| DbRecords.Run | mlnx-ofed-4.9-driver/src/dbrec.c:87-152 | in every run: after each event the outstanding records, told by script and answers, are distinct cache lines inside their pages; a record is the lowest free line of a page in use or, exactly if all are full, of the new page; a page is kept exactly while a record of it is out |
| CqLocks.ReleasesWhatItTook | mlnx-ofed-4.9-driver/src/verbs.c:2800-2842 | unlocking releases what locking took, in reverse, whatever queues are equal or absent |
| CqLocks.ProgramFollows | mlnx-ofed-4.9-driver/src/verbs.c:2800-2842 | a thread only takes locks above those it holds and ends with none |
| CqLocks.StepKeepsInv | mlnx-ofed-4.9-driver/src/verbs.c:2800-2842 | any step keeps mutual exclusion and the order |
| CqLocks.Progress | mlnx-ofed-4.9-driver/src/verbs.c:2800-2842 | in every state of every run with an unfinished thread some thread can step |
| CqLocks.ProgramAt | mlnx-ofed-4.9-driver/src/verbs.c:2800-2842 | a thread locks and unlocks the queues of each of its queue pairs in turn |
| CqLocks.WorkingHolds | mlnx-ofed-4.9-driver/src/verbs.c:2800-2820 | a thread that has locked for a queue pair and not begun to unlock holds exactly that pair's queues |
| CqLocks.Exclusive | mlnx-ofed-4.9-driver/src/verbs.c:2800-2842 | in every state of every run two threads at work on queue pairs share no completion queue |
| CqLocks.FinishedHoldsNothing | mlnx-ofed-4.9-driver/src/verbs.c:2822-2842 | in every state of every run a finished thread holds no lock |
| CqLocks.RunLength | mlnx-ofed-4.9-driver/src/verbs.c:2800-2842 | every step uses up one action, so runs end |
| VirtualQueues.VQ.PushOn | KRdmaKit-syscall/src/virtual_queue.rs:741-788 | a batch goes out in order up to the first refusal, all of it exactly if the answer is ok |
| VirtualQueues.VQ.RcPush | KRdmaKit-syscall/src/virtual_queue.rs:722-789 | the same on RC; nothing without a migrated queue |
| VirtualQueues.VQ.DcPush | KRdmaKit-syscall/src/virtual_queue.rs:791-850 | the same on DC; nothing without a DC connection |
| VirtualQueues.VQ.Push | KRdmaKit-syscall/src/virtual_queue.rs:294-358 | the requests are taken in order, in batches of at most 64, up to the first one refused; what is posted, the answer and whether the queue has migrated are determined by the batches at which it was connected; on a connected queue each request taken is served by one posting, in order |
| VirtualQueues.PushServes | KRdmaKit-syscall/src/virtual_queue.rs:722-850 | on a connected queue, whenever it migrates, posting `i` does what request `i` asks for: its operation, at its offset of the peer's region as the transport addresses it, with its local bytes and length, reported exactly if flagged |
| VirtualQueues.TranslateServes | KRdmaKit-syscall/src/virtual_queue.rs:741-779 | the same for one posting over RC or DC; over RC it carries the virtual id, and exactly the writes shorter than 64 bytes are inline, read through their kernel address |
| VirtualQueues.ConnectedPush | KRdmaKit-syscall/src/virtual_queue.rs:307-341 | on a queue connected at the first batch every request is posted once, in order, and request `i` over RC exactly when the queue had migrated by its batch |
| VirtualQueues.UnconnectedPush | KRdmaKit-syscall/src/virtual_queue.rs:307-341 | on a queue that nothing connects at first, exactly the requests from the batch that first sees the migration on are posted, over RC |
| VirtualQueues.AllPosted | KRdmaKit-syscall/src/virtual_queue.rs:307-341 | everything taken is posted exactly when the queue is connected at the first batch |
| VirtualQueues.LostBatch | KRdmaKit-syscall/src/virtual_queue.rs:307-341 | sixty-five requests, a queue connected between the first batch and the second: answered ok, and only the last request was posted |
| VirtualQueues.SendMore | KRdmaKit-syscall/src/virtual_queue.rs:944-1006 | a send keeps the counters equal to the sends and signals exactly the first of its peer and transport |
| VirtualQueues.PostAll | KRdmaKit-syscall/src/virtual_queue.rs:944-1006 | request `i` is posted to its peer over the transport the peer is served by at that moment; all are, exactly if none is refused |
| VirtualQueues.SettleMore | KRdmaKit-syscall/src/virtual_queue.rs:1009-1047 | settling one peer and transport reposts as many receives as sends and waits once |
| VirtualQueues.BindServerPush | KRdmaKit-syscall/src/virtual_queue.rs:933-1051 | after an ok answer the posts are the requests in order, each peer and transport with sends has one signalled send, its first, and except for peer 0 as many reposted receives as sends and one wait; all are settled exactly when no request names a peer number divisible by 12; it is answered ok exactly if nothing fails that its requests need: their posts and, except for peer 0, the receives and the wait of their peers |
| VirtualQueues.PeerZero | KRdmaKit-syscall/src/virtual_queue.rs:947-950 | receives match sends, and waits match signals, for all peers exactly when no request names a peer number divisible by 12 |
| VirtualQueues.PeerTwelve | KRdmaKit-syscall/src/virtual_queue.rs:944-1047 | one request for peer 12, nothing failing: answered ok, its signalled send never waited for and its receive never posted again |
| VirtualQueues.BindPush | KRdmaKit-syscall/src/virtual_queue.rs:307-341 | over all batches of a push on a bound queue that is answered ok the posts are the requests in order, receives match sends and waits match signals for all but peer 0, and for everyone exactly when no request names a peer number divisible by 12; it is answered ok exactly if nothing fails that a request needs in its batch |

## Left out

- CompletionQueues.CompletionQueue.DeviceSession: 64-byte entries only, sessions of at least two mini entries; the receive-only variant of the lazy path and the checksum-carrying mini formats are not modelled.
- CompletionQueues.CompletionQueue.Poll: returns the entry; turning it into a work completion, error entries and the resource lookup are not modelled.
- CompletionQueues.CompletionQueue.ResizeCopyCqes: what precedes the marker fits the new ring; the caller switches rings even if the copy gives up, which is not modelled.
- SqSizing.Overhead: reliable connections only; the other transports differ in the segments they count.
- SendQueues.SendQueue.PostSend: the reliable-connection fast path (send, write), with entries shorter than 2^31 bytes, as the signed lengths require; a completion is looked up in rings of at most 65536 blocks, which `SendQueues.SixteenBits` shows to be exact.
- SendQueues.SendQueue.Complete: completions whose 16-bit counter names their block, which all do exactly in rings of at most 65536 blocks; in a larger ring another request would be reported.
- SendQueues.Step: rings of at most 65536 blocks, as for Complete.
- SendQueues.Run: rings of at most 65536 blocks, as for Complete.
- SharedReceiveQueues.Srq.constructor: at most 65536 WQEs, as the 16-bit link field requires; the last link is to WQE 0, which is what the mask computes for the power-of-two sizes in use; WQE signatures are not modelled.
- BurstQueues.BurstQueue.SendPending: non-empty raw-Ethernet frames of at most 60 buffers, inline ones in a single buffer, an inline limit of at most 972 bytes (exact, `BurstQueues.InlineLimit`), and room in the ring, which the burst interface leaves to its caller; the fence cache, VLAN insertion and the variants without aggregation are not modelled, nor that the lock stays taken when an overlong frame is refused.
- ErasureUpdate.UpdateAsync: all launches succeed, and the caller passes as many code blocks as it selects; padding of blocks to the chunk size is not modelled, nor symbols of fewer than eight bits.
- ErasureDecode.DecodeSection: launches that fit the pool matrix (exactly when: `ErasureDecode.PoolFits`); one that does not would write past it.
- ErasureDecode.DecodeBigM: as for DecodeSection.
- ErasureDecode.DecodeAsync: a launch fails only for a block of another length, and its matrix fits the pool (exactly when: `ErasureDecode.PoolFits`); padding and the order in which matrices return to the pool are not modelled.
- ErasureCompletion.Calc.HandleEcComp: each completion is handled atomically; the shared status field of the object is not modelled as a separate write. Matrix-pool conservation is not claimed: a failed update does not return its matrix.
- Words.FindFirstZeroBit: words of 32 bits, the width the search and the shifts assume.
- RangeBitmaps.FindAlignedRange: rounding up is arithmetic, which is what the masks compute for the power-of-two alignments in use.
- HugePages.Allocator.AllocHugeBuf: buffers are not empty; regions that are searched have sizes that are powers of two or do not need the wrap-around search, and a fork exclusion fails only in regions of a power of two or new ones, because starts are wrong otherwise; `HugePages.Run` needs neither.
- HugePages.Allocator.Search: as for AllocHugeBuf.
- HugePages.Allocator.FreeHugeBuf: buffers whose start survives the mask, in a region of a power of two or of their own; what other frees do is not modelled, since they may clear bits that belong to no range.
- HugePages.LiveOverlap: the calls on the bitmap that the requests lead to while their region is the only one, not the list walk around them.
- DbRecords.Context.FreeDb: the page list is a sequence; its forward and backward links are not modelled.
- VirtualQueues.VQ.Push: one connect per queue, so a queue moves from DC to RC at most once and never back.
- VirtualQueues.BindServerPush: the endpoint cache and the payload of the posts are not modelled; a wait on the shared UD queue counts for the peer it is made for.
- Peer-direct peek, commit and rollback, WQE signatures, TSO, UMR, masked atomics and tag matching: layout cases, or resting on promises of the device.
- Memory barriers and write-combining order: not stated by the code in a provable form.
- Kernel commands, mmap, shared memory, sysfs and environment parsing: foreign calls; where they matter their outcome is a parameter.
- Memory registration, the fault handler, the RPC modules and the connect-time caches of the virtual queue.
- Wrapper variants and dispatch tables of the modelled functions, and the two-level resource tables: they would only add easy members.
- Benchmarks, experiment scripts and build scripts.
