# OpenURMA data paths in Dafny

A Dafny model of the parts of OpenURMA, an RDMA network-interface stack, that move bytes, match
completions and carry frames between nodes, with proofs of what they promise. `dafny verify
dfyconfig.toml` checks everything.

Each component comes in up to three layers. A *specification* says what it does to a value (flat
memory, a queue, a map). *Functions* follow the branches of the source. *Classes and loops* update
fields and arrays in place where the source does, and are proved equal to the functions. Properties
over time are stated on runs: sequences of states in which every step of every thread, node or
process may come next.

## Components

| files | what they model |
|---|---|
| `GuestMemory`, `PageTable`, `WalkFields`, `ArmWalk`, `MrAccess`, `PipePacket`, `MrCopy`, `Protection`, `DmaEngine` | guest memory, the 4-level page walk and how it compares with VMSAv8-64 (4 KB granule, section D8.3 of the Arm Architecture Reference Manual), region access split at pages, the two copy paths, and what regions protect |
| `DataPlane`, `Transfers`, `Conservation`, `ReceiveOrder`, `AtomicCounter`, `Atomics`, `NicDevice` | work-request execution in the NIC, what it does to memory, completion accounting, the order in which receives are used, atomics (section 7.4.2.3 of UB-Base-Specification 2.0.1), and the device object |
| `JfcQueue`, `Completion`, `NicChannel` | completion queues, the layout of a completion record, and runs of the NIC seen through its queues |
| `Flits`, `WrCodec`, `Doorbell`, `CounterRun` | bit fields, the two flits of a work request, doorbell assembly from many contexts, and the atomic counter from doorbell to memory |
| `PeerPacket`, `PeerRing`, `PeerWrite`, `PeerRuns` | the packet and the shared ring between two NICs, and a cross-node WRITE end to end in joint runs |
| `Rings`, `SideChannel`, `Provider`, `ProviderQueues`, `TwoNode`, `TwoNodeRuns`, `Service`, `ServiceRuns`, `StaleStatus`, `StaleRuns`, `WriteRuns`, `ProviderNode` | the Tier-S provider: frames, one node, the invariant of two nodes and their wires, runs, what each request and answer does, what a WR without an answer reports, what success means for each opcode, and the context object |
| `Wire` | the outbound queue and its background sender |
| `Lru`, `LruCache`, `KvTable`, `WirePump`, `RecvQueue` | the resident-page LRU, the key-value table, the RoCE wire pump and the receive queue |
| `Words`, `Division` | little-endian words, bits and integer division |

## How the source is represented

- Machine words are integers with their width written out: additions of addresses, counters and
  request ids wrap where the source wraps, and masks and shifts are divisions and remainders.
- The pipeline is represented by its landing element (`UB_HBM_Write`): the flits of one packet
  reach it in order. Everything between the two pipeline ends is assumed to deliver them so.
- sendto results, malloc failures, pipeline completion flits, the poll backstop, the peer's
  scheduling and what the application stores into memory are arbitrary.
- Process memory of the provider is one byte map per node. The wire between nodes is a FIFO that
  at a failure keeps an arbitrary prefix of what is under way, which is what `Wire` establishes.
- The completion status numbers of liburma are not part of the repository; only that success is 0
  and the others are not is used.

## Where the code does less than one might expect

Each of these is a proved statement, with the exact condition under which the stronger property
does hold.

- A receive posted while a SEND waits for it serves that SEND and stays queued
  (`Conservation.AwaitedReceiveIsUsedTwice`, `Conservation.ReceiveUsedAtMostOnce`).
- The sender of the peer ring does not check for room (`PeerRing.OverwriteIsReachable`,
  `PeerRing.FreshSlotExactly`).
- A cross-node WRITE longer than 8148 bytes is dropped but completes with success, and from
  2^32-40 bytes on its 32-bit packet length wraps and it runs past its slot
  (`PeerWrite.SendsSourceIfItFits`, `PeerWrite.WrappedLengthOverruns`).
- The bounds test of a region adds in 64 bits, so a range that wraps can pass it
  (`Protection.WrappedRangeIsGranted`, `MrCopy.MrReadSucceedsExactly`).
- A SEND for the peer reports success even when its source cannot be read or is too long to be
  sent, and one that finds no receive there is lost (`Transfers.CrossSend`,
  `Transfers.PeerSendLost`); so is a message without a receive buffer (`Service.MessageFills`).
- A full completion queue drops its oldest entry (`JfcQueue.BurstLoses`,
  `JfcQueue.LosslessExactly`).
- JFC ids of 512 and above are pushed as given but polled masked: their own completions are never
  polled, and their polls take those of another JFC (`JfcQueue.HighIdIsNeverPolled`,
  `JfcQueue.HighPollTakes`, `JfcQueue.LosslessExactly`).
- A WRITE_IMM completes without waiting for its ack, so its success says nothing about its bytes; a
  SEND, too, can succeed without the peer (`WriteRuns.ImmSucceedsUnsent`,
  `WriteRuns.WriteSafetyExactly`, `WriteRuns.AcknowledgedExactly`).
- A WR other than WRITE and READ reports the status its ring slot was left with
  (`StaleRuns.SendReportsOlderFailure`, `StaleRuns.SilentSuccessExactly`).
- The comment on tx_drained says it is true once all queued frames have been shipped; its two
  loads can straddle a failure (`Wire.DrainedRace`, `Wire.DrainedExactly`).
- With a prefetch window above 1 a larger cache can miss where a smaller one hits
  (`Lru.PrefetchBreaksInclusion`, `Lru.InclusiveExactly`).
- The page walk also accepts the descriptors that VMSAv8-64 reserves: a block at level 0, which
  the comment on the walk does not name either, and type 1 at level 3 (`ArmWalk.LevelZeroBlock`,
  `ArmWalk.LevelThreeReserved`, `ArmWalk.WalkIsArmExactly`).

## Model

| member | source | states |
|---|---|---|
| `PageTable.SamePage` | eval/twonode/gem5_scaffold/src/NICTopologySC.cc:269-288 | two addresses of one 4 KB page translate to the same frame through L3 pages and through blocks of any level, and read the same descriptors |
| `PageTable.TranslationShape` | eval/twonode/gem5_scaffold/src/NICTopologySC.cc:279-283 | a translation keeps the page offset and is a 48-bit physical address |
| `PageTable.WalkFrame` | eval/twonode/gem5_scaffold/src/NICTopologySC.cc:274-287 | a walk depends on no memory but the descriptors on its path |
| `PageTable.Stage1IsRegime` | eval/twonode/gem5_scaffold/src/NICTopologySC.cc:269-288 | every page table gives a translation regime: contiguous inside a page, unchanged by stores that spare its descriptors |
| `WalkFields.WalkFollowsPath` | eval/twonode/gem5_scaffold/src/NICTopologySC.cc:272-287 | the walk by its bit fields: the address is cut into four 9-bit indices and an offset, each table is read at 8 times its index, and the page, block or invalid descriptor that ends the path gives frame plus offset, block base plus the remaining fields, or no translation |
| `WalkFields.PageIsWalked` | eval/twonode/gem5_scaffold/src/NICTopologySC.cc:272-280 | four levels to a page: the frame of the last descriptor and the offset |
| `WalkFields.WalkLeavesMemory` | eval/twonode/gem5_scaffold/src/NICTopologySC.cc:277-277 | a path that leaves backed memory translates nothing |
| `WalkFields.EveryWalk` | eval/twonode/gem5_scaffold/src/NICTopologySC.cc:269-288 | every table and every 64-bit address has one of these paths, so the fields determine every walk |
| `GuestMemory.DmaExactly` | eval/twonode/gem5_scaffold/src/NICTopologySC.cc:250-264 | a physical access is made exactly if it is not empty and one backed range holds all of it; it touches those bytes only |
| `ArmWalk.WalkIsArmExactly` | eval/twonode/gem5_scaffold/src/NICTopologySC.cc:269-288 | the walk is that of the VMSAv8-64 descriptor types if and only if the path does not end in a type-1 descriptor at level 0 or 3; where it does, the code translates and the architecture does not |
| `ArmWalk.LevelZeroBlock` | eval/twonode/gem5_scaffold/src/NICTopologySC.cc:281-284 | a table with a block at level 0, for every address of the first 512 GB |
| `ArmWalk.LevelThreeReserved` | eval/twonode/gem5_scaffold/src/NICTopologySC.cc:278-280 | a table with a type-1 descriptor at level 3, taken for a page, for every address of that page |
| `MrAccess.RegisterKeepsTableOk` | eval/twonode/gem5_scaffold/src/NICTopologySC.cc:624-649 | registering a region, new or over an old token, keeps every entry of the MR table a translation regime |
| `MrAccess.PiecesAreTheRange` | eval/twonode/gem5_scaffold/src/NICTopologySC.cc:300-307 | cutting at page boundaries loses and repeats no address, also where the address wraps at 2^64 |
| `MrAccess.ReadIsBytewise` | eval/twonode/gem5_scaffold/src/NICTopologySC.cc:292-309 | a successful page-chunked read returns for each byte what is at its own walk |
| `MrAccess.ReadSucceeds` | eval/twonode/gem5_scaffold/src/NICTopologySC.cc:300-307 | with page-aligned memory the read succeeds when every byte is resident |
| `MrAccess.WriteIsBytewise` | eval/twonode/gem5_scaffold/src/NICTopologySC.cc:292-309 | a page-chunked write that spares its own descriptors is the byte-by-byte store, and succeeds exactly when the read would |
| `MrCopy.MrReadIsBytewise` | eval/twonode/gem5_scaffold/src/NICTopologySC.cc:292-309 | a successful ou_dma_mr read of any region and range is the flat gather of its translated addresses |
| `MrCopy.MrReadSucceedsExactly` | eval/twonode/gem5_scaffold/src/NICTopologySC.cc:295-308 | ou_dma_mr succeeds if and only if the token is registered, the range ends inside the region or the 64-bit sum of the test wraps to something that does, and each page of the range translates into one backed range; where backed ranges are page-aligned, if and only if every translated byte is resident |
| `MrCopy.MrWriteIsBytewise` | eval/twonode/gem5_scaffold/src/NICTopologySC.cc:292-309 | a region write that spares its own descriptors is the flat scatter, with the success condition of the read |
| `MrCopy.MrReadBack` | eval/twonode/gem5_scaffold/src/NICTopologySC.cc:292-309 | with an injective mapping, what is written is read back and no other byte of memory changes |
| `Protection.RefusedOutside` | eval/twonode/gem5_scaffold/src/NICTopologySC.cc:295-298 | an access with an unknown token or outside its region is refused, reads nothing and changes nothing |
| `Protection.GrantedInside` | eval/twonode/gem5_scaffold/src/NICTopologySC.cc:298-298 | where the 64-bit sum of the test does not wrap, it passes exactly for ranges inside the region |
| `Protection.WrappedRangeIsGranted` | eval/twonode/gem5_scaffold/src/NICTopologySC.cc:298-298 | where it wraps, it can pass for a range outside the region |
| `Protection.RegisterDefines` | eval/twonode/gem5_scaffold/src/NICTopologySC.cc:632-645 | a registration gives its token exactly these bounds and this page table and leaves every other token |
| `Protection.WriteConfined` | eval/twonode/gem5_scaffold/src/NICTopologySC.cc:292-309 | every byte that a region write changes, also one that fails half-way, is at the translation of an address of its range that lies in its region |
| `PipePacket.PacketShape` | eval/twonode/gem5_scaffold/src/NICTopologySC.cc:378-386 | a packet is meta, extension and payload flits; exactly the last flit has eop, and the payload flits concatenate to the chunk |
| `PipePacket.PayloadBytes` | eval/twonode/gem5_scaffold/src/NICTopologySC.cc:380-386 | unpacking the payload flits gives the bytes they were cut from |
| `PipePacket.PayloadLands` | elements/protocols/ub/UB_HBM_Write.clnp:25-96 | payload flits landing in order write exactly the rest of the chunk behind the part already there |
| `PipePacket.PacketLands` | elements/protocols/ub/UB_HBM_Write.clnp:25-96 | whatever state the landing element is in, a packet lands as its chunk at offset 0 |
| `MrCopy.CopyIsMove` | eval/twonode/gem5_scaffold/src/NICTopologySC.cc:313-325 | the copy bounced 4 KB at a time is the flat move of source bytes to destination addresses, for every length, when ranges are in bounds, mapped and physically disjoint |
| `MrCopy.RouteIsStore` | eval/twonode/gem5_scaffold/src/NICTopologySC.cc:337-402 | bytes routed packet by packet through the pipeline are stored as one flat write |
| `MrCopy.RouteIgnoresHbm` | eval/twonode/gem5_scaffold/src/NICTopologySC.cc:360-400 | bytes left in the landing buffer by earlier packets never reach memory |
| `MrCopy.PipeCopyIsCopy` | eval/twonode/gem5_scaffold/src/NICTopologySC.cc:404-412 | the segmented pipeline copy and the functional copy give the same result and the same final memory |
| `Protection.CopyConfined` | eval/twonode/gem5_scaffold/src/NICTopologySC.cc:313-325 | the same holds for the whole functional copy, whatever its source |
| `Protection.RouteConfined` | eval/twonode/gem5_scaffold/src/NICTopologySC.cc:337-402 | and for bytes routed through the pipeline |
| `Protection.CopySucceeds` | eval/twonode/gem5_scaffold/src/NICTopologySC.cc:313-325 | the functional copy succeeds if and only if both ranges lie in their regions and are mapped, overlapping or not |
| `Protection.RouteSucceeds` | eval/twonode/gem5_scaffold/src/NICTopologySC.cc:337-402 | the routed write succeeds if and only if its range does |
| `DmaEngine.ViewIsTableOk` | eval/twonode/gem5_scaffold/src/NICTopologySC.cc:624-649 | every table of registrations made by the code is one to which the region results apply |
| `DmaEngine.Engine.FindRange` | eval/twonode/gem5_scaffold/src/NICTopologySC.cc:254-263 | the scan succeeds exactly when some backed range holds all of the access |
| `DmaEngine.Engine.OuDmaRead` | eval/twonode/gem5_scaffold/src/NICTopologySC.cc:250-264 | reads the flat bytes, or fails on an empty or uncovered access |
| `DmaEngine.Engine.OuDmaWrite` | eval/twonode/gem5_scaffold/src/NICTopologySC.cc:250-264 | stores the flat bytes, or fails and changes nothing |
| `DmaEngine.Engine.OuWalk` | eval/twonode/gem5_scaffold/src/NICTopologySC.cc:269-288 | the level loop returns the recursive descent, 0 standing for unmapped |
| `DmaEngine.Engine.OuDmaMrRead` | eval/twonode/gem5_scaffold/src/NICTopologySC.cc:292-309 | the chunk loop returns the region read |
| `DmaEngine.Engine.OuDmaMrWrite` | eval/twonode/gem5_scaffold/src/NICTopologySC.cc:292-309 | the chunk loop leaves the memory of the region write, also when it fails half-way |
| `DmaEngine.Engine.OuCopyMr` | eval/twonode/gem5_scaffold/src/NICTopologySC.cc:313-325 | the bounce loop leaves the memory of the functional copy |
| `DmaEngine.Engine.SendPacket` | eval/twonode/gem5_scaffold/src/NICTopologySC.cc:378-394 | the flits of a packet land one after the other on a cleared buffer |
| `DmaEngine.Engine.OuPipeRoute` | eval/twonode/gem5_scaffold/src/NICTopologySC.cc:337-402 | the packet loop leaves the memory of the routed write |
| `DmaEngine.Engine.OuPipeCopy` | eval/twonode/gem5_scaffold/src/NICTopologySC.cc:404-412 | reads the source, then routes it |
| `PeerRing.FreshSlotExactly` | eval/twonode/gem5_scaffold/src/NICTopologySC.cc:523-528 | in every state of the invariant, the slot the 32-bit head selects holds no unread packet if and only if the counters show fewer than 64 unread |
| `PeerRing.StepKeepsInv` | eval/twonode/gem5_scaffold/src/NICTopologySC.cc:460-532 | every guarded step of producer or consumer, send starts included, keeps the ring invariant |
| `PeerRing.StartKeepsInv` | eval/twonode/gem5_scaffold/src/NICTopologySC.cc:516-528 | a send start keeps the ring invariant when fewer than 64 packets are unread |
| `PeerRing.RingSafety` | eval/twonode/gem5_scaffold/src/NICTopologySC.cc:460-532 | in every guarded interleaving the packets handed over are byte-identical to a prefix of those sent, and the slot written is never the slot read, across counter wrap |
| `PeerRing.NeverStuck` | eval/twonode/gem5_scaffold/src/NICTopologySC.cc:485-532 | neither side is ever stuck: a packet being stored can be stored further or published, and an unread one can be read |
| `PeerRing.UnguardedSendOverwrites` | eval/twonode/gem5_scaffold/src/NICTopologySC.cc:523-528 | without the guard, the first byte of a send into 64 unread packets destroys the oldest |
| `PeerRing.OverwriteIsReachable` | eval/twonode/gem5_scaffold/src/NICTopologySC.cc:516-532 | the guard can come to fail: from every fresh ring there is a run of 64 sends after which the next send destroys a packet nobody has read |
| `PeerPacket.RoundTrip` | eval/twonode/gem5_scaffold/src/NICTopologySC.cc:500-513 | every field of a built packet, payload included, is recovered by the reader |
| `PeerPacket.HeaderFields` | eval/twonode/gem5_scaffold/src/NICTopologySC.cc:500-513 | every header field at its byte offset |
| `DataPlane.OutcomeExactly` | eval/twonode/gem5_scaffold/src/NICTopologySC.cc:521-522 | the 32-bit size test sends exactly lengths up to 8148, drops exactly those below 2^32-40, and lets every longer one overrun the slot |
| `PeerWrite.SendsSourceIfItFits` | eval/twonode/gem5_scaffold/src/NICTopologySC.cc:759-765 | a cross-node WRITE completes with success in any case; the source bytes as of that moment are on the ring exactly up to 8148 of them, the packet runs past its slot exactly from 2^32-40 on, and between the two it is dropped |
| `PeerWrite.WrappedLengthOverruns` | eval/twonode/gem5_scaffold/src/NICTopologySC.cc:521-528 | the first wrapped length: 2^32-40 bytes pass the size test as a packet of length 0, and the WR completes with success |
| `PeerWrite.DepositIsStore` | eval/twonode/gem5_scaffold/src/NICTopologySC.cc:565-567 | payload that arrives for a writable range is one flat store, through the pipeline or not |
| `PeerWrite.ApplyStores` | eval/twonode/gem5_scaffold/src/NICTopologySC.cc:548-573 | after a WRITE packet is applied its range reads back the payload and no other byte has changed |
| `PeerRuns.RunCarries` | eval/twonode/gem5_scaffold/src/NICTopologySC.cc:460-532 | in every guarded joint run of two NICs and the ring, the packets sent on the ring are byte for byte the first ones the WRs of the sender queued, in order |
| `PeerRuns.DrainApplies` | eval/twonode/gem5_scaffold/src/NICTopologySC.cc:485-497 | every drain applies at the target the packet queued in that place, with every field and byte of it |
| `PeerRuns.WriteArrives` | eval/twonode/gem5_scaffold/src/NICTopologySC.cc:485-573 | over every such run: whatever both NICs do between the doorbell and the drain, the target range then holds the source bytes as they were at the doorbell, and all other target memory is as before the drain |
| `PeerRuns.SendArrives` | eval/twonode/gem5_scaffold/src/NICTopologySC.cc:485-583 | the same for SEND: over every such run the buffer of the oldest receive holds the source bytes as they were at the doorbell, all else is unchanged, and that receive completes with length, opcode and immediate |
| `AtomicCounter.AtomicIsUpdate` | eval/twonode/gem5_scaffold/src/NICTopologySC.cc:778-802 | on places apart from each other an atomic is the flat update: old word to the result slot, new word in place |
| `AtomicCounter.FaddDone` | eval/twonode/gem5_scaffold/src/NICTopologySC.cc:778-802 | a FADD advances the word by its operand modulo 2^64, delivers the old word and raises one successful completion |
| `Atomics.AtomicDone` | eval/twonode/gem5_scaffold/src/NICTopologySC.cc:778-802 | each of the seven atomics in plain arithmetic or bit by bit: the word after CAS is the new value exactly if it was the expected or already the new one and else unchanged, SWAP, FADD and FSUB modulo 2^64, FAND, FOR and FXOR on each of the 64 bits; the old word is delivered and one success completes |
| `Atomics.SubtractUndoesAdd` | eval/twonode/gem5_scaffold/src/NICTopologySC.cc:784-784 | FSUB undoes FADD of the same operand |
| `Atomics.AtomicExactly` | eval/twonode/gem5_scaffold/src/NICTopologySC.cc:778-802 | an atomic reports success if and only if both its words are in bounds and mapped, and changes no byte outside them |
| `Atomics.LockIsTakenOnce` | eval/twonode/gem5_scaffold/src/NICTopologySC.cc:783-783 | over every interleaving of CAS attempts on a free lock, from any contexts and with calm events in between, exactly the first fetches 0 and every other fetches the mark of the first |
| `AtomicCounter.SumOfOperands` | eval/twonode/gem5_scaffold/src/NICTopologySC.cc:778-802 | for any executor of indivisible updates with any calm events in between, after k updates the word is the start plus the operand sum modulo 2^64 |
| `AtomicCounter.NicIsIndivisible` | eval/twonode/gem5_scaffold/src/NICTopologySC.cc:778-802 | the NIC is such an executor, with or without the pipeline |
| `AtomicCounter.NoLostUpdates` | eval/twonode/gem5_scaffold/src/NICTopologySC.cc:778-802 | for every interleaving of FADDs from any contexts on one word, with any events in between that spare it: the final value is the start plus the operand sum, and the k-th WR gets the prefix sum |
| `AtomicCounter.ActIsCalm` | integration/umdk/apps/atomic_counter_mc.c:68-77 | polls, receives, registrations under other tokens and stores that spare the counter and the page tables are such events |
| `AtomicCounter.ManyActsAreCalm` | integration/umdk/apps/atomic_counter_mc.c:68-77 | so is any number of them in a row |
| `AtomicCounter.ClearingSlotSpares` | integration/umdk/apps/atomic_counter_mc.c:69-69 | clearing a result slot before the next FADD is such a store |
| `AtomicCounter.ConcurrentCounter` | integration/umdk/apps/atomic_counter_mc.c:68-77 | N contexts adding 1 K times each, with such events in between: the counter ends at N*K and the fetched values are 0 .. N*K-1 in execution order |
| `CounterRun.LogIsIncrements` | integration/umdk/apps/atomic_counter_mc.c:53-55 | a finished doorbell run of N clients with K increments executed exactly N*K increments |
| `CounterRun.CounterIsExact` | integration/umdk/apps/atomic_counter_mc.c:53-77 | from eight-byte doorbell stores in any interleaving to memory, with polls and cleared slots between the WRs: the counter is N*K and the k-th executed WR fetched k |
| `Flits.SameField` | integration/umdk/provider/openurma_provider_kernel.c:61-66 | a bit field reads back the low bits of what was set |
| `Flits.OtherField` | integration/umdk/provider/openurma_provider_kernel.c:61-66 | setting a field leaves every field that does not overlap it |
| `Flits.LaneSetLane` | integration/umdk/provider/openurma_provider_kernel.c:61-66 | lane_set changes its field of its lane and no other lane |
| `WrCodec.FieldBack` | integration/umdk/provider/openurma_provider_kernel.c:61-66 | in any list of pairwise disjoint fields each reads back the value it was given, whatever is set after it |
| `WrCodec.DecodesAsPosted` | eval/twonode/gem5_scaffold/src/NICTopologySC.cc:707-736 | every field the NIC decodes from the two flits is the one encoded, the destination modulo 2^24, and sop and eop mark meta and extension |
| `WrCodec.FlitLayout` | integration/umdk/provider/openurma_provider_kernel.c:357-373 | every field at its byte offset in the two flits |
| `WrCodec.LaneSetInPlace` | integration/umdk/provider/openurma_provider_kernel.c:61-66 | lane_set on the byte buffer |
| `WrCodec.BuildMeta` | integration/umdk/provider/openurma_provider_kernel.c:357-365 | the in-place lane_set calls produce the meta flit |
| `WrCodec.BuildExt` | integration/umdk/provider/openurma_provider_kernel.c:366-373 | the in-place copies produce the extension flit |
| `Doorbell.AddressDecodes` | eval/twonode/gem5_scaffold/src/NICTopologySC.cc:609-612 | an address in the control region decodes to its context and offset |
| `Doorbell.StoreFaithful` | eval/twonode/gem5_scaffold/src/NICTopologySC.cc:650-660 | one store of a context executes a WR exactly when it is the last word of an extension flit, and that WR is the one posted |
| `Doorbell.StoreWord` | eval/twonode/gem5_scaffold/src/NICTopologySC.cc:707-712 | whatever flit is stored word by word, nothing happens before its last word; then an extension flit executes exactly if a meta flit came before or it is one itself |
| `Doorbell.OtherUntouched` | eval/twonode/gem5_scaffold/src/NICTopologySC.cc:650-712 | a store of one context changes neither the slot nor the executed WRs of another |
| `Doorbell.ExecutesAsPosted` | eval/twonode/gem5_scaffold/src/NICTopologySC.cc:650-842 | for every interleaving of eight-byte stores, each context gets executed exactly the WRs it stored in full, in order, with every field as posted |
| `Conservation.ExecBalanced` | eval/twonode/gem5_scaffold/src/NICTopologySC.cc:743-825 | one WR of any opcode raises one send-side completion or becomes pending, never both |
| `Conservation.PeerBalanced` | eval/twonode/gem5_scaffold/src/NICTopologySC.cc:548-586 | a packet from the peer raises no send-side completion and uses a receive only by taking it from the queue |
| `Conservation.PostRecvBooks` | eval/twonode/gem5_scaffold/src/NICTopologySC.cc:897-912 | what posting a receive does to pending SENDs and to receives, also when it serves a SEND and stays queued |
| `Conservation.EveryWrCompletesOnce` | eval/twonode/gem5_scaffold/src/NICTopologySC.cc:743-912 | in every reachable state, per tag: send completions raised plus SENDs pending is WRs executed |
| `Conservation.ReceiveAccounting` | eval/twonode/gem5_scaffold/src/NICTopologySC.cc:879-914 | exact: uses plus queued plus dropped is posted plus posted-while-awaited |
| `Conservation.ReceiveUsedAtMostOnce` | eval/twonode/gem5_scaffold/src/NICTopologySC.cc:897-912 | receives of a tag are used at most as often as posted if and only if no more were awaited than are still queued or were dropped, so always when no SEND awaited one |
| `Conservation.AwaitedReceiveIsUsedTwice` | eval/twonode/gem5_scaffold/src/NICTopologySC.cc:897-912 | otherwise it can be: two SENDs around one receive both use it |
| `ReceiveOrder.FirstPostedFirstUsed` | eval/twonode/gem5_scaffold/src/NICTopologySC.cc:442-448 | over every run and per jetty: receives that left the queue, taken or dropped, followed by those queued are those posted, in order, so the i-th message to take one gets the i-th not dropped |
| `ReceiveOrder.TakenCompletes` | eval/twonode/gem5_scaffold/src/NICTopologySC.cc:417-439 | the event that takes a receive raises its completion, on the JFC and with the user context of that receive |
| `Transfers.LocalWrite` | eval/twonode/gem5_scaffold/src/NICTopologySC.cc:744-758 | a local WRITE, with or without the pipeline: it reports success if and only if both ranges are in bounds and mapped; then the remote range reads the bytes the local range held; no byte outside the remote range changes; one completion with every field given |
| `Transfers.LocalWriteImm` | eval/twonode/gem5_scaffold/src/NICTopologySC.cc:744-758 | WRITE_IMM likewise, and it completes the oldest receive of the jetty with length, opcode, immediate and the same outcome |
| `Transfers.LocalRead` | eval/twonode/gem5_scaffold/src/NICTopologySC.cc:767-777 | READ likewise, from the remote range to the local one |
| `Transfers.LocalSend` | eval/twonode/gem5_scaffold/src/NICTopologySC.cc:803-808 | SEND likewise, from the local range to the buffer of the oldest receive of the jetty, with both completions field by field |
| `Transfers.SendWaits` | eval/twonode/gem5_scaffold/src/NICTopologySC.cc:814-816 | a SEND with neither a receive nor a peer waits behind the others and does nothing else |
| `Transfers.RecvServes` | eval/twonode/gem5_scaffold/src/NICTopologySC.cc:903-912 | a posted receive gets the SEND that has waited longest on its jetty, with the same guarantees |
| `Transfers.RecvQueues` | eval/twonode/gem5_scaffold/src/NICTopologySC.cc:897-898 | a receive that no SEND waits for is queued, past 256 in place of the oldest |
| `Transfers.WriteFails` | eval/twonode/gem5_scaffold/src/NICTopologySC.cc:744-766 | an empty WRITE, or one to an unknown region without a peer, reports failure and does nothing else |
| `Transfers.UnknownOpcodeFails` | eval/twonode/gem5_scaffold/src/NICTopologySC.cc:818-821 | any other opcode reports failure and does nothing else |
| `Transfers.PeerWriteLands` | eval/twonode/gem5_scaffold/src/NICTopologySC.cc:565-573 | a WRITE packet: its range reads back the payload if it is in bounds and mapped, no other byte changes, and an immediate completes the oldest receive with that outcome |
| `Transfers.PeerSendLands` | eval/twonode/gem5_scaffold/src/NICTopologySC.cc:574-583 | a SEND packet likewise into the buffer of the oldest receive, with its completion field by field |
| `Transfers.PeerSendLost` | eval/twonode/gem5_scaffold/src/NICTopologySC.cc:574-577 | a SEND packet without a receive changes nothing |
| `Transfers.CrossWriteFails` | eval/twonode/gem5_scaffold/src/NICTopologySC.cc:759-765 | a WRITE for the peer whose source cannot be read reports failure and sends nothing |
| `Transfers.CrossSend` | eval/twonode/gem5_scaffold/src/NICTopologySC.cc:809-813 | a SEND for the peer reports success in any case; its bytes are on the ring exactly if they can be read and are at most 8148 |
| `JfcQueue.ChannelIsFifo` | eval/twonode/gem5_scaffold/src/NICTopologySC.cc:845-868 | over every run and for each JFC below 512: slots polled followed by slots queued are the slots that arrived, when none met a full queue and none went to a poll of another id that masks to it, so the zero-skip discards none; in any case exactly as many are missing as did either |
| `JfcQueue.HighIdIsNeverPolled` | integration/umdk/provider/openurma_provider_kernel.c:491-491 | over every run, what is pushed to an id of 512 or more is never polled: its queue is the last 256 of what arrived |
| `JfcQueue.LosslessExactly` | eval/twonode/gem5_scaffold/src/NICTopologySC.cc:242-244 | over every run, nothing that arrived for a JFC below 512 is lost to its poller if and only if none of it met a queue of 256 and none went to a poll of another id |
| `JfcQueue.BurstLoses` | eval/twonode/gem5_scaffold/src/NICTopologySC.cc:242-244 | any number of completions with no poll in between leaves the last 256, so the 257th is the first to lose one |
| `JfcQueue.HighPollTakes` | integration/umdk/provider/openurma_provider_kernel.c:491-491 | a poll of any id of 512 or more takes the completion of the JFC it masks to |
| `JfcQueue.CqDevice.ReadSlice0` | eval/twonode/gem5_scaffold/src/NICTopologySC.cc:852-870 | the read of slice 0 drains the peer, skips zero slots and pops |
| `JfcQueue.CqDevice.PollJfc` | integration/umdk/provider/openurma_provider_kernel.c:485-510 | the poll loop returns up to the asked number of slots, oldest first |
| `Completion.CqeRoundTrip` | eval/twonode/gem5_scaffold/src/NICTopologySC.cc:232-246 | status, length, user context, direction, receive opcode and immediate survive the slot layout, and no slot looks empty |
| `Completion.CqeLayout` | eval/twonode/gem5_scaffold/src/NICTopologySC.cc:236-241 | every field at its byte offset in the slot, the rest zero |
| `Completion.CompletionsArrive` | integration/umdk/provider/openurma_provider_kernel.c:485-510 | the i-th record polled from a JFC below 512 shows the i-th completion raised for it, when none met a full queue and none went to a poll of another id |
| `NicChannel.EventRaises` | eval/twonode/gem5_scaffold/src/NICTopologySC.cc:232-246 | every event of the NIC changes its queues only by pushing the completions it adds to its log, in order |
| `NicChannel.PolledIsRaised` | eval/twonode/gem5_scaffold/src/NICTopologySC.cc:845-868 | over every run of NIC events and polls of any id: the records polled from a JFC below 512 followed by those queued are the completions the NIC raised for it if and only if none was raised while its queue held 256 and none was polled under another id; then the i-th record shows the i-th completion, and in any case the four numbers add up |
| `NicDevice.Device.Claim` | eval/twonode/gem5_scaffold/src/NICTopologySC.cc:614-623 | hands out an id not handed out before until 64 are gone, and then refuses |
| `NicDevice.Device.PushCqe` | eval/twonode/gem5_scaffold/src/NICTopologySC.cc:232-246 | appends, dropping the oldest past 256 |
| `NicDevice.Device.FindRecv` | eval/twonode/gem5_scaffold/src/NICTopologySC.cc:442-448 | takes the oldest receive of the jetty and leaves the rest in order |
| `NicDevice.Device.DeliverSend` | eval/twonode/gem5_scaffold/src/NICTopologySC.cc:417-439 | moves the payload and raises both completions with its outcome |
| `NicDevice.Device.ExecuteWrite` | eval/twonode/gem5_scaffold/src/NICTopologySC.cc:744-766 | the WRITE branches: local through pipeline or copy, cross-node with the 32-bit packet length, or failed |
| `NicDevice.Device.UpdateAtomic` | eval/twonode/gem5_scaffold/src/NICTopologySC.cc:778-802 | old word to the initiator before the word is replaced, on both paths |
| `NicDevice.Device.ExecuteSend` | eval/twonode/gem5_scaffold/src/NICTopologySC.cc:803-817 | local receive, peer with the 32-bit packet length, or pending |
| `NicDevice.Device.Execute` | eval/twonode/gem5_scaffold/src/NICTopologySC.cc:743-825 | one WR of any opcode has the effect of Exec on the whole state and keeps completions raised plus SENDs pending equal to WRs executed |
| `NicDevice.Device.RecvFired` | eval/twonode/gem5_scaffold/src/NICTopologySC.cc:897-912 | queues the receive and serves the oldest pending SEND of its jetty, keeping that balance |
| `NicDevice.Device.StoreDoorbell` | eval/twonode/gem5_scaffold/src/NICTopologySC.cc:650-842 | a store assembles the slot of its context and executes a WR when the slot fires, keeping that balance |
| `NicDevice.Device.ApplyPacket` | eval/twonode/gem5_scaffold/src/NICTopologySC.cc:548-586 | a packet from the peer has the effect of PeerApply on the whole state and keeps that balance |
| `SideChannel.ParseBody` | integration/umdk/provider/openurma_provider.c:115-119 | the receiver parses every frame a sender builds back to the same fields |
| `SideChannel.FrameLayout` | integration/umdk/provider/openurma_provider.c:115-119 | tag and fields of every frame at their byte offsets |
| `Rings.PushLive` | integration/umdk/provider/openurma_provider.c:297-306 | a push guarded by the full test overwrites nothing live: the queue only grows by that element |
| `Rings.PopLive` | integration/umdk/provider/openurma_provider.c:723-729 | advancing the head removes the oldest element only |
| `Rings.UnguardedPush` | integration/umdk/provider/openurma_provider.c:530-532 | without the full test the ring would appear empty |
| `Provider.DataCbIsOnFrame` | integration/umdk/provider/openurma_provider.c:255-357 | delivering the bytes of a frame is handling the frame |
| `ProviderQueues.StepInOrder` | integration/umdk/provider/openurma_provider.c:255-357 | whatever frame arrives and whatever step runs, the outstanding ring holds exactly the uncompleted WRs in order and the completion rings lose nothing |
| `ProviderQueues.HarvestInOrder` | integration/umdk/provider/openurma_provider.c:695-724 | the completion loop keeps that, however many WRs it retires |
| `ProviderQueues.StepExtends` | integration/umdk/provider/openurma_provider.c:593-730 | what was posted, completed, put on a JFC or polled stays so |
| `StaleStatus.StepStale` | integration/umdk/provider/openurma_provider.c:594-607 | every step keeps the record of what each ring slot was left with |
| `StaleRuns.SilentStatus` | integration/umdk/provider/openurma_provider.c:695-724 | over every run, a WR that nobody answers completes with a timeout if it was failed while outstanding, otherwise with what its slot was left with: success for the first 4096, then the status of the WR 4096 earlier, or a timeout if that one was failed after it completed |
| `StaleRuns.SilentSuccessExactly` | integration/umdk/provider/openurma_provider.c:695-724 | so it reports success if and only if it was not failed and the last WR in its slot left success |
| `StaleRuns.FailedOnlyBy` | integration/umdk/provider/openurma_provider.c:600-607 | a WR is failed only by the refusal of its own frame or by a poll that saw a wire error |
| `StaleRuns.SendReportsOlderFailure` | integration/umdk/provider/openurma_provider.c:594-598 | a reachable wrong status: a SEND is refused, 4095 atomics follow, and a SEND that goes out reports the timeout of the first |
| `TwoNode.StepSound` | integration/umdk/provider/openurma_provider.c:255-357 | the two-node invariant, frames under way included, is kept by every step of either node |
| `TwoNode.BuildTrue` | integration/umdk/provider/openurma_provider.c:536-585 | a request id names the job it was given to and its frame asks for that job |
| `TwoNode.WriteAckTrue` | integration/umdk/provider/openurma_provider.c:270-287 | an ack answers only the WRITE it belongs to, and success means the peer copied it |
| `TwoNode.ReadRspTrue` | integration/umdk/provider/openurma_provider.c:336-353 | a response answers only the READ it belongs to; success means the buffer holds what the peer read |
| `TwoNode.HarvestTrue` | integration/umdk/provider/openurma_provider.c:695-724 | no completion reports a success that did not happen, also under wire errors and early acks |
| `TwoNodeRuns.RunSound` | integration/umdk/provider/openurma_provider.c:255-357 | the invariant holds in every state of every run of two nodes |
| `TwoNodeRuns.WriteSafety` | integration/umdk/provider/openurma_provider.c:260-287 | a WRITE completes with success only if the peer had earlier copied exactly its bytes into an active region with the right token, and those were the source bytes when it was built |
| `WriteRuns.WriteSafetyExactly` | integration/umdk/provider/openurma_provider.c:710-712 | of WRITE and WRITE_IMM, exactly WRITE has that property in every run |
| `WriteRuns.ImmSucceedsUnsent` | integration/umdk/provider/openurma_provider.c:710-712 | a WRITE_IMM reports success in a run in which its frame never leaves the node and nothing is copied |
| `WriteRuns.AcknowledgedExactly` | integration/umdk/provider/openurma_provider.c:710-712 | success implies that the peer has handled a frame exactly for WRITE and READ; every other opcode can succeed in a run in which the peer takes no step |
| `TwoNodeRuns.ReadSafety` | integration/umdk/provider/openurma_provider.c:310-353 | a READ completes with success only if its buffer had received bytes that the peer memory held, in an active region with the right token, when it served that request |
| `Service.WriteServed` | integration/umdk/provider/openurma_provider.c:260-269 | in every run, a WRITE request is carried out if and only if an active region of its token holds its range: its bytes are in memory, no other byte has changed, the copy is on record and the ack says success; otherwise memory is as it was and the ack says failure |
| `Service.ReadServed` | integration/umdk/provider/openurma_provider.c:310-335 | in every run, a READ request is served if and only if such a region holds its range, it fits a frame and there is memory: the response has the bytes as they are; otherwise it says failure |
| `Service.AckAnswers` | integration/umdk/provider/openurma_provider.c:270-287 | an ack answers the outstanding WRITE that waits for it and changes no other; an early one is kept |
| `Service.ResponseAnswers` | integration/umdk/provider/openurma_provider.c:336-353 | a response answers the READ that waits for it: with success exactly if it says so and has the bytes asked for, which are then in the buffer and nowhere else |
| `Service.ResponseIgnored` | integration/umdk/provider/openurma_provider.c:340-350 | a response that nothing waits for changes nothing |
| `Service.MessageFills` | integration/umdk/provider/openurma_provider.c:288-309 | a message puts as much as fits into the oldest receive buffer and nowhere else and completes it with that length, if there is a buffer and its completion ring has room; otherwise nothing happens |
| `Service.RecordedAsPosted` | integration/umdk/provider/openurma_provider.c:593-599 | in every run, a WR that the pipeline took is outstanding behind the others with its own fields and no wait yet |
| `Service.BufferQueued` | integration/umdk/provider/openurma_provider.c:632-652 | in every run, a receive buffer is queued behind the others, and refused past 255 |
| `Service.RegisterGrants` | integration/umdk/provider/openurma_provider.c:448-456 | a registration adds access to its range and nothing else; a full table refuses it |
| `Service.UnregisterRevokes` | integration/umdk/provider/openurma_provider.c:463-472 | after a release nothing is granted through that entry, and every other entry grants what it did |
| `Service.TakeGives` | integration/umdk/provider/openurma_provider.c:725-730 | a poll hands over the oldest records, as many as were asked for or all there are |
| `Service.HarvestStops` | integration/umdk/provider/openurma_provider.c:695-724 | the completion loop goes on until nothing is outstanding, the ring is full, the next WR waits for an answer that has not come, or it has neither a flit nor waited long enough; after a wire error only the first two stop it and every WR it retires fails |
| `Service.RetiresInTurn` | integration/umdk/provider/openurma_provider.c:712-715 | without a wire error, WRs beyond the flits in hand are retired only when they have waited long enough |
| `ServiceRuns.WriteThenRead` | integration/umdk/provider/openurma_provider.c:255-357 | for every payload that fits a frame there is a run in which it is written to the peer and read back, both with success |
| `TwoNodeRuns.ExactlyOnceInOrder` | integration/umdk/provider/openurma_provider.c:686-730 | send completions on the send JFC are those of the posted WRs in order, one each; the ring holds exactly the rest; every completion ring holds exactly what was put there and not polled |
| `TwoNodeRuns.HistoryGrows` | integration/umdk/provider/openurma_provider.c:593-730 | over a run, posted WRs, completions and polled records are only ever appended to |
| `ProviderNode.Context.RegionValidLocked` | integration/umdk/provider/openurma_provider.c:180-188 | the scan finds a region if and only if an active one with the token holds the whole range |
| `ProviderNode.Context.RegisterSeg` | integration/umdk/provider/openurma_provider.c:448-456 | takes the first free entry; fails exactly when there is none |
| `ProviderNode.Context.UnregisterSeg` | integration/umdk/provider/openurma_provider.c:463-472 | releases the first matching entry; fails exactly when there is none |
| `ProviderNode.Context.OnWriteRequest` | integration/umdk/provider/openurma_provider.c:260-269 | copies only into a valid region and answers with the outcome |
| `ProviderNode.Context.FindOutstanding` | integration/umdk/provider/openurma_provider.c:276-280 | the scan from head to tail finds the first outstanding entry with the property, across the end of the array |
| `ProviderNode.Context.OnAck` | integration/umdk/provider/openurma_provider.c:270-287 | answers the matching WRITE in place or keeps the ack |
| `ProviderNode.Context.OnMessage` | integration/umdk/provider/openurma_provider.c:288-309 | fills the oldest buffer and completes it, only if both rings allow |
| `ProviderNode.Context.OnResponse` | integration/umdk/provider/openurma_provider.c:336-353 | checks the length, stores the data and answers the READ in place |
| `ProviderNode.Context.PostJettyRecv` | integration/umdk/provider/openurma_provider.c:632-652 | refuses exactly when the ring is full |
| `ProviderNode.Context.RecordOutstanding` | integration/umdk/provider/openurma_provider.c:593-599 | appends the entry, leaving the old status in the slot |
| `ProviderNode.Context.FailLast` | integration/umdk/provider/openurma_provider.c:600-607 | fails the WR just recorded and no other |
| `ProviderNode.Context.HarvestCompletions` | integration/umdk/provider/openurma_provider.c:695-724 | the completion loop on the in-place rings |
| `ProviderNode.Context.TakeRecords` | integration/umdk/provider/openurma_provider.c:725-730 | hands over at most the asked number of records, oldest first |
| `ProviderNode.Context.PollJfc` | integration/umdk/provider/openurma_provider.c:672-733 | completions first, then records of the JFC polled |
| `Wire.RunKeepsInv` | integration/umdk/provider/openurma_nic.cpp:112-132 | the invariant of queue, counters and both threads, over every interleaving of their atomic operations |
| `Wire.ShippedIsPrefix` | integration/umdk/provider/openurma_nic.cpp:112-132 | datagrams shipped are a prefix of the frames accepted |
| `Wire.PendingCoversUnshipped` | integration/umdk/provider/openurma_nic.cpp:248-275 | while fatal_errno is 0, pending_tx is at least the frames accepted and not shipped, and at most one more |
| `Wire.NothingAfterFailure` | integration/umdk/provider/openurma_nic.cpp:91-132 | failure is sticky; once seen by the background thread nothing is shipped, and before that at most the one frame in flight |
| `Wire.PassShips` | integration/umdk/provider/openurma_nic.cpp:112-132 | from any state with a good wire, one pass of the background thread ships everything queued, in order |
| `Wire.DrainedExactly` | integration/umdk/provider/openurma_nic.cpp:231-234 | a tx_drained answer of 1 is right if and only if the wire has not failed by its second load |
| `Wire.DrainedRace` | integration/umdk/provider/openurma_nic.cpp:231-234 | otherwise it can be wrong: a run in which it reports 1 with a frame never shipped |
| `Wire.Nic.MarkWireFailed` | integration/umdk/provider/openurma_nic.cpp:91-99 | the first failure is kept and clears the counter |
| `Wire.Nic.DataSend` | integration/umdk/provider/openurma_nic.cpp:266-275 | accepts exactly when the wire has not failed and the queue has room |
| `Wire.Nic.ShipFrame` | integration/umdk/provider/openurma_nic.cpp:117-131 | up to 2000 tries; ships the frame or marks the error that stopped it |
| `Wire.Nic.ShipQueue` | integration/umdk/provider/openurma_nic.cpp:112-132 | ships the queue up to the first frame that cannot be sent |
| `Lru.InstallIsTouch` | eval/twonode/src/transport_analytical.cpp:403-419 | installing into the first cap pages of a stack gives the first cap pages of the touched stack |
| `Lru.InstallAllIsTouchAll` | eval/twonode/src/transport_analytical.cpp:403-419 | so does a whole install, whatever is evicted while it runs |
| `Lru.InstalledPagesResident` | eval/twonode/src/transport_analytical.cpp:403-419 | after installing count <= cap pages they are at the front in reverse order, no page twice, within capacity |
| `Lru.ResidentIsPrefix` | eval/twonode/src/transport_analytical.cpp:511-525 | with window 1 the resident list is the unbounded LRU stack of the trace cut to capacity |
| `Lru.StackInclusion` | eval/twonode/src/transport_analytical.cpp:511-559 | for every trace and cap1 <= cap2 the smaller list is the prefix of the larger, so its hits are hits there |
| `Lru.PrefetchBreaksInclusion` | eval/twonode/src/transport_analytical.cpp:511-559 | for every window w above 1 inclusion fails between caches of w and w+1 pages |
| `Lru.TinyCachesBreakInclusion` | eval/twonode/src/transport_analytical.cpp:511-559 | for every window above 2 it also fails between caches of one and two pages |
| `Lru.InclusiveExactly` | eval/twonode/src/transport_analytical.cpp:511-559 | with 32-bit windows and capacities, inclusion holds for all traces and capacities if and only if the window is at most 1 |
| `Lru.ResidentBounded` | eval/twonode/src/transport_analytical.cpp:394-419 | over every trace, for every window and capacity, no page is resident twice and never more than the capacity are |
| `LruCache.Cache.PagesAreIndexed` | eval/twonode/src/transport_analytical.cpp:391-392 | list and index hold the same pages, none twice |
| `LruCache.Cache.ResidentHit` | eval/twonode/src/transport_analytical.cpp:394-400 | hit exactly when resident; then the page moves to the front and the index stays good |
| `LruCache.Cache.ResidentInstall` | eval/twonode/src/transport_analytical.cpp:401-419 | the install loop on list and index keeps their one-to-one agreement and the capacity bound and gives the list of InstallAll |
| `LruCache.Cache.EvictBack` | eval/twonode/src/transport_analytical.cpp:413-417 | the last page leaves list and index together |
| `KvTable.ProbeFinds` | integration/umdk/apps/kv_store.c:46-51 | a full-circle probe finds the key, or a free slot if wanted, whenever there is one, for any hash |
| `KvTable.ContentsSize` | integration/umdk/apps/kv_store.c:43-51 | as many keys are live as slots are used |
| `KvTable.PutRefines` | integration/umdk/apps/kv_store.c:52-54 | stores the pair; fails exactly when the key is absent and 256 keys are live; at most one used slot holds a key |
| `KvTable.GetRefines` | integration/umdk/apps/kv_store.c:55-56 | returns the value of the key or fails when it is absent |
| `KvTable.DelRefines` | integration/umdk/apps/kv_store.c:57-57 | removes its key and hides no other |
| `KvTable.TableIsMap` | integration/umdk/apps/kv_store.c:43-57 | for any hash and any sequence of put, get and delete the table answers as a finite map does |
| `KvTable.KHash` | integration/umdk/apps/kv_store.c:45-45 | the FNV-1a loop on 32-bit words |
| `KvTable.Server.Find` | integration/umdk/apps/kv_store.c:46-51 | the probe loop on the array |
| `KvTable.Server.Put` | integration/umdk/apps/kv_store.c:52-54 | in place, the effect and result of KvPut |
| `KvTable.Server.Get` | integration/umdk/apps/kv_store.c:55-56 | the result of KvGet |
| `KvTable.Server.Delete` | integration/umdk/apps/kv_store.c:57-57 | in place, the effect and result of KvDel |
| `WirePump.PumpKeepsOrder` | eval/twonode/gem5_scaffold/src/NICTopologyRoCE.cc:222-247 | for any responder: delivered followed by queued is what was there followed by what was emitted, in order; at most guard deliveries, and fewer only if the queue ran empty |
| `WirePump.Topology.Tap` | eval/twonode/gem5_scaffold/src/NICTopologyRoCE.cc:203-220 | queues and never delivers |
| `WirePump.Topology.PumpWire` | eval/twonode/gem5_scaffold/src/NICTopologyRoCE.cc:222-247 | a call inside a delivery changes nothing; otherwise the queue is pumped and no delivery starts inside another |
| `RecvQueue.StepRefines` | runtime/openurma/src/urma_swemu.cpp:286-312 | one post or consume is the FIFO operation, and keeps the storage and cost bounds |
| `RecvQueue.RefinesFifo` | runtime/openurma/src/urma_swemu.cpp:286-312 | for every run: outcomes and live part are those of a bounded FIFO, storage is at most live+64 or 2*live, and elements moved by compaction never exceed successful consumes |
| `RecvQueue.Jetty.PostRecv` | runtime/openurma/src/urma_swemu.cpp:286-297 | refuses exactly at a positive depth |
| `RecvQueue.Jetty.ConsumeRecv` | runtime/openurma/src/urma_swemu.cpp:298-312 | returns the oldest entry and compacts when the consumed part is long and the larger one |

## Left out

- The SystemC topology between the two pipeline ends (packet sequence numbers, go-back-N, order trackers): represented only by in-order delivery of one packet.
- Latency, jitter and bandwidth arithmetic of the simulators: constants and floating point, no hard property.
- The LDST aperture, interrupts, logging and tracing: they keep no state that the properties speak about.
- The RECV doorbell's byte assembly: the same slot mechanism as the WR doorbell; the model starts from the assembled descriptor.
- The registration doorbell's byte assembly: likewise; the model starts from the assembled registration.
- Ordering modes of a WR (placement, completion order, fence): the NIC decodes and logs the order byte but executes every WR to completion before the next.
- The self-loop role of the provider, where a frame is handled inside the send: only the two-node roles are modelled.
- Several jetties or posting threads on one provider context: the matching code looks at one jetty, and the results are for one posting thread.
- The in-process transport between two NICs of one simulator: it hands the packet over inside the call, without ring or size test.
- What a packet that runs past its slot overwrites: the model records that it happened, and joint runs end there.
- Access permissions and the access flag of page-table descriptors: the code does not look at them.
- The larger key-value tables: the same table with other constants.
- The capacity of the receive vector of std::vector and the narrowing of its size to int: sizes are mathematical integers.
- Wire.Nic.ShipQueue: describes the sender running alone; interleavings with enqueuing threads are the subject of the state machine in the same file.
- ProviderNode.Context.RecordOutstanding: posting is modelled as separate atomic stretches, so there is no single method for the whole of ou_post_one.
