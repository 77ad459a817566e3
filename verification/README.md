# Verified models of the appliance's trust boundaries

librefirewall splits a firewall appliance into isolated domains that share only
memory, and every word of that memory may be rewritten by the domain on the other
side. This project models the protocols between those domains and proves, for
every run and every input, what the repository's own harnesses assert about the
runs they sample. `dafny verify dfyconfig.toml` checks all of it.

| file | what it models |
|---|---|
| `Ring.dfy`, `RingSafety.dfy`, `RingPowers.dfy`, `RingFifo.dfy`, `RingImage.dfy` | the shared ring: both cursors forgeable, any slot and any word of a slot rewritable, any number of handles; what each of those lets a peer do; the ring over arrays and the delivery ledger |
| `LogRing.dfy`, `LogMemory.dfy` | the log ring, its drop count and a drain whose tail moves under it; the same ring over the bytes of its slots, records in and records out |
| `FreeList.dfy`, `PoolOwner.dfy` | the buffer ledger with stale tokens, and the owner that lends buffers out as bare indices |
| `Driver.dfy`, `DriverLends.dfy`, `DriverPath.dfy` | the receive path, where each descriptor of it came from, and the path over the ring in memory and the pool's arrays |
| `Prefix.dfy`, `Addresses.dfy`, `Alphabet.dfy`, `Handover.dfy`, `HandoverContract.dfy`, `HandoverMeaning.dfy`, `HandoverDecoded.dfy`, `HandoverReader.dfy` | what a configuration image is refused for, what an accepted one means and what is decoded from it |
| `Configuration.dfy`, `ConfigurationFaults.dfy`, `ConfigurationRules.dfy` | a configuration as it is validated, the image built from it, and how the two sides' verdicts are related |
| `LogRecord.dfy`, `LogDetail.dfy`, `LogVerdict.dfy`, `LogCodec.dfy`, `LogSlot.dfy` | the log record: its refusals, the fields it names, its byte layout and the 156 locations it is stored in |
| `Transaction.dfy`, `TransactionOutcomes.dfy`, `ConfigTransaction.dfy` | the stage, commit, confirm and revert transaction, over any models and over configurations read from documents |
| `Crc.dfy`, `CrcDivision.dfy`, `CrcResidue.dfy`, `Checksum.dfy`, `Pcapng.dfy` | CRC-32, the Internet checksum's sum and the pcapng block walk |
| `Modular.dfy`, `Wrappers.dfy`, `Chains.dfy` | remainders, a value that may be absent, and checks of which the first to refuse decides |

## How to read the models

Code that changes things in place is a class or a method with loops, proved
against a function of the old state, and the claims are proved about those
functions and the runs built from them. A peer's action is an operation of the run
with every argument free, so a claim over all runs is a claim over all adversaries
at that interface. Capacities are parameters wherever the code does not depend on
their value: the ring is modelled for every capacity, with the source's `& MASK` as
the remainder it is for a power of two. Machine words are unbounded numbers with
the widths written out where the code depends on them; 32-bit words that are masked
and shifted are sequences of bits.

## What the proofs found

Two claims the harnesses make do not hold as they are stated. Each has a concrete
witness and an exact condition.

- The reader and the contract of a configuration image disagree. The harness
  requires the two to give the same refusal, but the reader also refuses a rule
  whose tracking criterion is malformed and the restated contract has no such
  clause (`datad/fuzz/src/handover.rs:655-826` against
  `datad/crates/wire/src/lib.rs:1775-1780`).
  `HandoverReader.ReaderRefusesWhatTheContractAccepts` is a family of images the two
  judge differently; `HandoverReader.ReaderAgreesIff` is exactly when they agree.
- A revert of an outstanding commit does not always raise the generation: with no
  generation left it changes nothing and answers that nothing was outstanding.
  `Transaction.ExhaustedRevert` is a run that reaches such a store and
  `Transaction.RevertRaisesIff` the exact condition.

Two of the store's own refusals turn out to be unreachable: a document that
validates always becomes an image (`ConfigurationRules.ValidatedBuilds`), so nothing
is refused after it has been staged and no commit is refused for its candidate.

Three comments say other than the code, and the model follows the code.
`datad/crates/config/src/validate.rs:17` has the image side decide every rule again
and `datad/crates/wire/src/config_rule.rs:236` every rule but one; the code leaves out
two, and asks nothing of a management port that is off.
`ConfigurationRules.ValidatedIff` is what passing both sides comes to, and
`ConfigurationRules.ReaderTakesWhatValidationRefuses` a configuration they differ on.
The comments of `datad/fuzz/src/log_ring_abi.rs` speak of 152 locations in a slot
and of leaving the other 146 alone; its table, its constant and the record have 156,
and the model follows the table.

## Model

| member | source | states |
|---|---|---|
| RingSafety.MaskedIsRemainder | datad/crates/queue/src/lib.rs:268-277 | the position a published word is reduced to is its remainder by the capacity |
| RingSafety.ReadsEffectiveHead | datad/crates/queue/src/lib.rs:326-334 | with one handle each and no forged tail, every word of the slot the consumer reads that is an enqueue's is one enqueue's: the latest congruent to its position |
| RingSafety.HeadAfterEnqueue | datad/fuzz/src/spsc_ring.rs:225-264 | an enqueue never lowers the effective head |
| RingSafety.HeadAfterDelivery | datad/fuzz/src/spsc_ring.rs:265-323 | a delivery raises the effective head by exactly one |
| RingSafety.EnqueueKeepsSafe | datad/crates/queue/src/lib.rs:268-277 | an enqueue keeps the whole run invariant, a refused one included |
| RingSafety.DequeueKeepsSafe | datad/crates/queue/src/lib.rs:326-334 | a dequeue keeps it |
| RingSafety.DrainKeepsSafe | datad/crates/queue/src/lib.rs:346-391 | a drain of any limit keeps it |
| RingSafety.StoreSlotKeepsSafe | datad/fuzz/src/ring_abi.rs:208-217 | a peer's whole-slot store keeps it |
| RingSafety.StoreFieldKeepsSafe | datad/fuzz/src/ring_abi.rs:195-200 | a peer's single-word store keeps it |
| RingSafety.RunKeepsSafe | datad/fuzz/src/spsc_ring.rs:197-410 | every run of operations, in any order, keeps it |
| RingSafety.RedeliveryHasACause | datad/fuzz/src/spsc_ring.rs:437-500 | in every run an enqueue handed out twice implies a forged tail or a second handle |
| RingSafety.DeliveriesAreInOrder | datad/fuzz/src/spsc_ring.rs:683-696 | without those, this side's enqueues come out whole in strictly increasing ordinal order under every interleaving of head forges and peer stores, lapping included |
| RingSafety.TearHasACause | datad/fuzz/src/spsc_ring.rs:437-500 | in every run, by the time a torn slot is delivered the peer has stored a single word of that very slot; which operation did is given |
| RingSafety.UntornIsOneWrite | datad/fuzz/src/spsc_ring.rs:437-500 | an untorn delivery is exactly the zero slot, one accepted enqueue into that slot or one whole peer store into it; in a one-word slot, one store of that word |
| RingFifo.FullIsCapacity | datad/crates/queue/src/lib.rs:268-277 | with nothing forged a producer sees the ring full exactly when one fewer than the capacity is queued |
| RingFifo.WaitingIsQueueLength | datad/crates/queue/src/lib.rs:355-357 | with nothing forged the consumer's length is the number queued |
| RingFifo.DrainIsTake | datad/crates/queue/src/lib.rs:346-391 | a drain takes the first of the queue up to its limit, in order |
| RingFifo.HonestRunIsFifo | datad/fuzz/src/spsc_ring.rs:197-410 | every run with no peer action is a bounded FIFO queue: same deliveries, same contents, same refusals |
| RingFifo.SecondConsumerRedelivers | datad/fuzz/src/spsc_ring.rs:595-647 | a run with a second consumer handle that hands one enqueue out twice, so the cause is needed |
| RingFifo.ForgedTailRedelivers | datad/fuzz/src/spsc_ring.rs:574-636 | a run with a forged tail that hands one enqueue out twice, so the cause is needed |
| RingImage.DeliveryLedger.Account | datad/fuzz/src/spsc_ring.rs:437-500 | accounting one delivery in place keeps the counts equal to those of the whole history |
| RingImage.SharedRing.TryEnqueue | datad/crates/queue/src/lib.rs:268-277 | over the word array an enqueue is the model's, accepted exactly when the published head leaves room |
| RingImage.SharedRing.TryDequeue | datad/crates/queue/src/lib.rs:326-334 | over the word array a dequeue is the model's and returns the slot's words |
| RingImage.SharedRing.DrainUpTo | datad/crates/queue/src/lib.rs:346-391 | the loop drains exactly the lesser of the limit and what waits, in order, whatever the tail says |
| RingImage.SharedRing.StoreWords | datad/fuzz/src/ring_abi.rs:208-217 | a slot stored word by word changes that slot's words and no other |
| RingImage.SharedRing.LoadWords | datad/fuzz/src/ring_abi.rs:222-237 | a slot loaded word by word is that slot's words |
| RingImage.SharedRing.PeerForges | datad/fuzz/src/ring_abi.rs:161-171 | a forged cursor changes that cursor alone |
| RingImage.SharedRing.PeerStores | datad/fuzz/src/ring_abi.rs:195-217 | a peer store changes the word or the slot it names alone |
| RingImage.SharedRing.Observe | datad/fuzz/src/spsc_ring.rs:197-410 | a run over the arrays with its ledger: redeliveries and tears are counted only where they have their cause |
| RingPowers.ForgedHeadDecides | datad/fuzz/src/spsc_ring.rs:243-329 | after a forged head, for every state, word and handle, a producer is refused exactly when its next position is the word modulo the capacity, and no other part of the state has moved |
| RingPowers.ForgedTailDecides | datad/fuzz/src/spsc_ring.rs:265-335 | after a forged tail a consumer finds nothing exactly when it stands at the word modulo the capacity, and no other part of the state has moved |
| RingPowers.EnqueueLands | datad/crates/queue/src/lib.rs:268-277 | an enqueue by any handle is refused, with nothing written, exactly where the head stands one ahead of it; otherwise its own slot, its own position and the tail are all that move |
| RingPowers.DequeueReads | datad/crates/queue/src/lib.rs:326-334 | a dequeue by any handle finds nothing exactly where the tail stands at it; otherwise it yields its own slot, and its own position and the head are all that move |
| RingPowers.DrainIsDequeues | datad/crates/queue/src/lib.rs:346-391 | a drain predicted whole is that many dequeues one after another |
| RingPowers.StoredWordIsRead | datad/fuzz/src/spsc_ring.rs:348-358 | a word the peer stores is the word a consumer there is handed, the rest of the slot as it was |
| RingPowers.StoredSlotIsRead | datad/fuzz/src/spsc_ring.rs:336-347 | a slot the peer stores is handed out whole |
| RingPowers.StoresReachOneSlot | datad/fuzz/src/spsc_ring.rs:336-358 | neither store moves another slot, a cursor or a position |
| RingPowers.SecondHandleStartsOver | datad/fuzz/src/spsc_ring.rs:359-377 | another handle stands at the first slot, and the others are where they were |
| RingPowers.LappingHappens | datad/fuzz/src/spsc_ring.rs:243-329 | for every capacity there is a run with one handle each and no forged tail whose very first delivery is the enqueue a whole capacity after the first |
| LogRing.DropsAreRefusals | datad/crates/wire/src/log_ring.rs:328-341 | in every run, whatever the peer forges, the writer's own drop count is exactly its refusals, saturating at the word |
| LogRing.ForgedCountIsRepaired | datad/fuzz/src/log_ring.rs:232-363 | a forged drop count is what the reader sees, and the next refusal publishes the writer's own count over it |
| LogRing.LogRunIsSafe | datad/fuzz/src/log_ring.rs:198-484 | every log ring run, moving tails included, keeps the ring invariant |
| LogRing.LogDeliveriesHaveCauses | datad/fuzz/src/log_ring.rs:591-663 | an untorn record is exactly the zero record, the one accepted write of its slot or the one whole peer store over it; a torn one comes from a slot of which the peer stored a single location; a repeat of one enqueue implies a forged tail |
| LogRing.LogTearHasACause | datad/fuzz/src/log_ring.rs:591-663 | by the time a torn record is read the peer has stored a single location of that very slot; which operation did is given |
| LogRing.HonestLogIsFifo | datad/fuzz/src/log_ring.rs:232-294 | with no forge and no peer store the log ring is a FIFO queue of 63 records: deliveries are the accepted writes in order, a write is refused exactly when it is full, and the drop count is the refusals |
| LogRing.Stop | datad/fuzz/src/log_ring.rs:499-568 | the round in which a drain whose tail is forged before every step stops: within the limit, and short of it only where the cursor meets the tail |
| LogRing.MovingKeepsSafe | datad/fuzz/src/log_ring.rs:499-568 | such a drain keeps the ring invariant |
| LogRing.LogHandles.WriteRecord | datad/crates/wire/src/log_ring.rs:328-341 | over the region a write is the model's, counting a refusal |
| LogRing.LogHandles.ReadRecord | datad/crates/wire/src/log_ring.rs:387-395 | over the region a read is the model's |
| LogRing.LogHandles.ReadRecords | datad/crates/wire/src/log_ring.rs:409-419 | with a still tail a drain yields exactly the lesser of the limit and the masked distance to the tail, from the private position, and the records handed out are exactly the deliveries |
| LogRing.LogHandles.DrainWhileTheCursorMoves | datad/fuzz/src/log_ring.rs:499-568 | with the tail forged before every step the loop still ends, within the limit and the capacity, having read what the model reads, and the records handed out are exactly the deliveries |
| LogMemory.DeliveryDecodesToItsRecord | datad/fuzz/src/log_ring.rs:591-663 | in every run, whatever the peer stores and forges, the bytes of a whole delivery of an enqueue decode to exactly the record that enqueue published |
| LogMemory.WireRing.TryWrite | datad/crates/wire/src/log_ring.rs:328-341 | over the 264-byte slots a write of an encoded record is the model's enqueue of its locations |
| LogMemory.WireRing.TryRead | datad/crates/wire/src/log_ring.rs:387-395 | over the bytes a read is the model's dequeue and yields the slot's locations |
| LogMemory.WireRing.ReadUpTo | datad/crates/wire/src/log_ring.rs:409-419 | over the bytes a drain is the model's, slot by slot in order |
| LogMemory.WireRing.PeerStoresRecord | datad/fuzz/src/log_ring_abi.rs:350-358 | over the bytes a peer's whole record replaces one slot of the model |
| LogMemory.WireRing.PeerStoresLocation | datad/fuzz/src/log_ring_abi.rs:306-324 | over the bytes a peer's location is one word of the model's slot, cut to its width |
| LogMemory.LogWires.Observe | datad/fuzz/src/log_ring.rs:198-484 | a whole run over the bytes is the run of the model, and every whole delivery of an enqueue decodes to a record that was written |
| FreeList.Pop | datad/crates/packet-buffer/src/lib.rs:368-376 | a popped index was in the pool and not outstanding, becomes outstanding, and the partition is kept; nothing is popped exactly when nothing is free |
| FreeList.Accept | datad/fuzz/src/free_list.rs:80-93 | a return is accepted exactly when the index is outstanding, else refused by name with nothing changed; a full list is never the reason |
| FreeList.Conservation | datad/fuzz/src/free_list.rs:224-231 | free and outstanding always cover the pool exactly |
| FreeList.StepMovesOne | datad/fuzz/src/free_list.rs:97-231 | a pop moves exactly the top of the free stack into hand, a push exactly the token at that position, back if it was outstanding, a reclaim exactly the index named |
| FreeList.RunKeepsInv | datad/fuzz/src/free_list.rs:97-231 | in every run of pops, stale pushes and reclaims of arbitrary indices the free stack holds each index not outstanding exactly once, and every outstanding index has a token in hand |
| FreeList.FinalDrainIsThePool | datad/fuzz/src/free_list.rs:238-278 | after any run, returning every held token and draining yields every pool index exactly once |
| FreeList.Pool.constructor | datad/crates/packet-buffer/src/lib.rs:347-362 | the stack filled in place holds every index, none outstanding |
| FreeList.Pool.Take | datad/crates/packet-buffer/src/lib.rs:368-376 | the array form pops what the ledger pops |
| FreeList.Pool.Return | datad/crates/packet-buffer/src/lib.rs:405-420 | the array form accepts and refuses what the ledger does, with the same error |
| FreeList.Pool.ReturnAll | datad/fuzz/src/free_list.rs:238-248 | handing back every token in hand, one at a time |
| FreeList.Pool.TakeAll | datad/fuzz/src/free_list.rs:249-278 | popping until the ledger refuses yields the free stack from its top and leaves none |
| FreeList.Observe | datad/fuzz/src/free_list.rs:97-278 | a whole run over the arrays, closed as the source closes it, drains every pool index exactly once |
| PoolOwner.ThreeHands | datad/fuzz/src/pipeline.rs:476-483 | free, held and lent cover the pool, each index exactly once |
| PoolOwner.AllocKeepsSplit | datad/crates/pd-runtime/src/lib.rs:652-654 | an allocated buffer is in the pool, in nobody's hands, and moves into this domain's; none is returned only when none is free |
| PoolOwner.ReleaseIsAccepted | datad/crates/pd-runtime/src/lib.rs:667-671 | a held token's return is never refused |
| PoolOwner.LendKeepsSplit | datad/crates/pd-runtime/src/lib.rs:686-703 | a lend moves the index from held to lent, and it was not lent before |
| PoolOwner.ReclaimOneKeepsSplit | datad/crates/pd-runtime/src/lib.rs:718-745 | a return of any index takes back at most that index, only if lent; the ledger never refuses a lent one |
| PoolOwner.ReclaimKeepsSplit | datad/crates/pd-runtime/src/lib.rs:718-745 | of any sequence of returns, duplicates and forgeries included, exactly the lent indices named come back |
| PoolOwner.ReclaimCountsTheRest | datad/crates/pd-runtime/src/lib.rs:718-745 | every index named either came back or raised the not-lent counter, saturating |
| PoolOwner.BuffersAreContainedAndDisjoint | datad/crates/pd-runtime/src/lib.rs:325-331 | every buffer's address range lies in the pool, and two ranges share a byte exactly when they are the same buffer |
| PoolOwner.InBoundsIsContainment | datad/crates/pd-runtime/src/lib.rs:180-185 | a descriptor passes exactly when its buffer is in the pool and every byte it names is in that buffer |
| PoolOwner.AllocMovesTheTop | datad/fuzz/src/pipeline.rs:254-277 | an allocation moves exactly the top of the free stack into hand |
| PoolOwner.LendMovesOne | datad/fuzz/src/pipeline.rs:278-301 | a lend moves exactly one token from hand to the peer, and none where the ring appears full |
| PoolOwner.ReleaseMovesOne | datad/fuzz/src/pipeline.rs:302-309 | a release moves exactly one token from hand to the top of the free stack |
| PoolOwner.ReclaimMovesTheLent | datad/fuzz/src/pipeline.rs:310-316 | a reclaim takes back exactly the lent buffers named and moves no token |
| PoolOwner.RunPartitionsThePool | datad/fuzz/src/pipeline.rs:241-315 | in every run, under arbitrary returns, free, held and lent partition the pool and no lent buffer's return is refused |
| PoolOwner.AllocIsNeverHeld | datad/fuzz/src/pipeline.rs:254-277 | in every run an allocated index is in the pool and neither held nor lent |
| PoolOwner.FinalDrain | datad/fuzz/src/pipeline.rs:513-538 | releasing every token and draining yields the pool less what is lent, each index once |
| PoolOwner.PoolSide.AllocBuffer | datad/crates/pd-runtime/src/lib.rs:652-654 | the owner over the ledger arrays allocates what the model does |
| PoolOwner.PoolSide.ReleaseBuffer | datad/crates/pd-runtime/src/lib.rs:667-671 | releasing a token this domain holds never reaches the source's panic |
| PoolOwner.PoolSide.LendBuffer | datad/crates/pd-runtime/src/lib.rs:686-703 | the descriptor goes onto the ring in memory, and the index is marked lent exactly when the ring took it |
| PoolOwner.PoolSide.Reclaim | datad/crates/pd-runtime/src/lib.rs:718-745 | drains at most 128 descriptors of the return ring in memory, takes back what the model takes back of the indices they name, and counts exactly the lent flags it cleared |
| PoolOwner.Observe | datad/fuzz/src/pipeline.rs:241-538 | a whole run over the arrays, closed as the source closes it |
| Driver.CompleteKeepsReady | datad/crates/nic-driver-core/src/lib.rs:366-424 | one completion of any slot and length keeps every buffer in exactly one hand |
| Driver.FrameIsWithinTheBuffer | datad/crates/nic-driver-core/src/lib.rs:388-392 | whatever length the device reports, the frame ends within the buffer, is what was reported where that fits, and is empty exactly for a runt |
| Driver.CompleteIsBooked | datad/crates/nic-driver-core/src/lib.rs:366-424 | a completion publishes a descriptor exactly when it raises that buffer's lent flag |
| Driver.RefillIsBooked | datad/crates/nic-driver-core/src/lib.rs:323-354 | a refill, whatever slots the queue offers, moves no count and no lent flag |
| Driver.ReclaimIsBooked | datad/fuzz/src/driver.rs:429-435 | a reclaim of arbitrary returns raises no lent flag |
| Driver.Step | datad/fuzz/src/driver.rs:589-607 | after every operation the descriptors published naming a buffer are exactly its counted lends |
| Driver.TakesNeverExceedLends | datad/fuzz/src/driver.rs:473-519 | for every buffer in every run, under forged heads, arbitrary completions and arbitrary returns, the descriptors taken naming it never outnumber its lends |
| Driver.TakesAreInBounds | datad/fuzz/src/driver.rs:473-519 | every descriptor taken names a pool buffer and a non-empty span inside it after the header, to be transmitted, whatever length the device reported |
| Driver.BuffersArePartitioned | datad/fuzz/src/driver.rs:371-380 | in every run free, held by the driver and lent partition the pool |
| DriverLends.CompletionPublishes | datad/crates/nic-driver-core/src/lib.rs:366-408 | a completion of a posted slot with more than a header in it, onto a ring that does not appear full, appends exactly one descriptor: the posted buffer's, header and frame together the device's length cut to the buffer; any other appends none |
| DriverLends.CompletionSettlesTheBuffer | datad/crates/nic-driver-core/src/lib.rs:366-424 | the slot is emptied and its buffer leaves this hand, lent if it was handed on and on top of the free stack if not; a completion of an empty slot changes nothing |
| DriverLends.RefillTakesTheTop | datad/crates/nic-driver-core/src/lib.rs:323-354 | a refill takes one buffer off the top of the free stack for each slot offered while both last, and holds exactly those |
| DriverLends.RefillPosts | datad/crates/nic-driver-core/src/lib.rs:323-354 | each queue slot then holds the buffer of the last head that named it, and a slot none named is as it was |
| DriverLends.ReclaimReturns | datad/crates/pd-runtime/src/lib.rs:718-745 | a reclaim takes back exactly the lent buffers among the first 128 returns and moves nothing else |
| DriverLends.PeerActs | datad/fuzz/src/driver.rs:473-563 | a take is that many dequeues and a forge sets the head, moving nothing else |
| DriverLends.TakenCameFrom | datad/fuzz/src/driver.rs:473-519 | in every run each descriptor taken is that of a completion: the buffer it found posted and the length the device gave it, at a drain and an index that are given |
| DriverPath.ReceivePath.RefillQueue | datad/crates/nic-driver-core/src/lib.rs:323-354 | over the pool's arrays the loop posts until the pool or the queue runs dry |
| DriverPath.ReceivePath.CompleteOne | datad/crates/nic-driver-core/src/lib.rs:366-424 | over the ring in memory and the pool's arrays: nothing posted, a runt, a full ring or a lend |
| DriverPath.ReceivePath.DrainCompletions | datad/crates/nic-driver-core/src/lib.rs:366-424 | at most a queue's worth of completions in one call |
| DriverPath.ReceivePath.TakeFrames | datad/fuzz/src/driver.rs:473-519 | the taken counts are those of everything delivered |
| DriverPath.CountTaken | datad/fuzz/src/driver.rs:473-519 | counting the new deliveries one by one gives each buffer's count over all of them |
| DriverPath.ReceivePath.SettleLends | datad/fuzz/src/driver.rs:589-607 | the loop counts one lend for each flag that rose |
| DriverPath.ReceivePath.Observe | datad/fuzz/src/driver.rs:371-607 | a whole run over the ring in memory and the pool's arrays ends with no buffer taken more often than lent |
| Prefix.PrefixMask | datad/fuzz/src/handover.rs:850-858 | the mask is exactly the leading bits of its length, saturating at both ends |
| Prefix.InsideIsSameTop | datad/fuzz/src/handover.rs:873-876 | an address is inside a prefix exactly when the two agree on its leading bits |
| Prefix.OverlapIsACommonAddress | datad/fuzz/src/handover.rs:879-881 | two prefixes overlap exactly when an address lies in both |
| Prefix.HostIsNotAnEnd | datad/fuzz/src/handover.rs:862-870 | below /31 a host address is one with addresses of the prefix both below and above it |
| Addresses.UnicastByNumber | datad/fuzz/src/handover.rs:841-847 | an address is unicast exactly when, as a 32-bit number, it is not in 0xE0000000 to 0xEFFFFFFF, not in 0x7F000000 to 0x7FFFFFFF, not 0 and not 0xFFFFFFFF |
| Addresses.ReservedBlocks | datad/crates/wire/src/lib.rs:1366-1375 | those two ranges are the blocks 224.0.0.0/4 and 127.0.0.0/8 |
| Addresses.InsideByNumber | datad/fuzz/src/handover.rs:873-876 | an address is inside a prefix exactly when the two numbers have one quotient by the prefix's size |
| Addresses.StationByNumber | datad/fuzz/src/handover.rs:886-888 | a hardware address is unicast exactly when, as a 48-bit number, it is not zero and its group bit is clear |
| Alphabet.AlphabetIsTheList | datad/crates/wire/src/log_record.rs:1482-1486 | the identifier alphabet is exactly thirty-seven characters, listed |
| Handover.IdentifierFaultIsTheFault | datad/fuzz/src/handover.rs:893-905 | an identifier's faults exclude each other, and there is none exactly when its text is one or more letters, digits or hyphens |
| Handover.InterfaceInOrder | datad/fuzz/src/handover.rs:426-466 | the chain of interface checks is the contract's seven rules in order |
| Handover.PairInOrder | datad/fuzz/src/handover.rs:471-499 | the checks between two interfaces are its four rules in order |
| Handover.NeighbourInOrder | datad/fuzz/src/handover.rs:502-545 | the chain of neighbour checks is its seven rules in order |
| Handover.RuleInOrder | datad/fuzz/src/handover.rs:655-826 | the chain of rule checks is its twenty-five rules in order, the reader's two tracking rules among them |
| HandoverContract.ManagementStage | datad/fuzz/src/handover.rs:571-643 | the management verdict is the first broken rule of the entry, then of each interface, then of the gateway |
| HandoverContract.GuardIsRedundant | datad/fuzz/src/handover.rs:555-569 | asking again whether an earlier rule is well formed never changes the verdict |
| HandoverContract.RefusalIsTheFirstFault | datad/fuzz/src/handover.rs:396-646 | the verdict is the first rule broken in the contract's order, and there is none exactly when no rule is broken |
| HandoverContract.OneFirstFault | datad/fuzz/src/handover.rs:388-395 | an image is refused for an error exactly when that error is its first fault |
| HandoverMeaning.AcceptedIffSound | datad/crates/wire/src/lib.rs:513-580 | an image is accepted exactly when the digest matches, the counts fit, and every entry, pair, rule and management rule holds |
| HandoverMeaning.AcceptedIsRoutable | datad/crates/wire/src/lib.rs:1366-1375 | in an accepted image no interface, neighbour, enabled management or stated gateway address is, as a number, in 224.0.0.0/4 or 127.0.0.0/8, zero or all ones |
| HandoverMeaning.CanonicalByNumber | datad/fuzz/src/handover.rs:751-757 | a rule's block passes exactly when its network is a multiple of the block's size |
| HandoverMeaning.RoutesAreUnambiguous | datad/crates/wire/src/lib.rs:1474-1505 | in an accepted image every address lies in at most one interface prefix |
| HandoverMeaning.NeighbourIsOnItsPort | datad/crates/wire/src/lib.rs:1513-1547 | in an accepted image a neighbour's address is covered by the interface on its own port and by no other |
| HandoverMeaning.ManagementIsApart | datad/crates/wire/src/lib.rs:1574-1655 | in an accepted image an enabled management prefix, its gateway included, shares no address with any interface prefix |
| HandoverDecoded.PastTheCountsIsUnread | datad/fuzz/src/handover.rs:293-321 | re-sealed, nothing past the counts changes what the reader answers, refusal or decoded configuration; under the old digest it is refused for the digest where that moved |
| HandoverDecoded.Scribble | datad/fuzz/src/handover.rs:293-321 | rewriting every slot past the counts leaves what they cover |
| HandoverReader.ReaderAgreesIff | datad/fuzz/src/handover.rs:203-215 | the reader and the contract give one verdict exactly when every malformed tracking criterion comes after a rule both find broken |
| HandoverReader.AcceptedByReaderIff | datad/crates/wire/src/lib.rs:1680-1815 | the reader accepts an image the contract accepts exactly when every covered rule's tracking criterion is well formed |
| HandoverReader.ReaderRefusesWhatTheContractAccepts | datad/fuzz/src/handover.rs:655-826 | images the contract accepts and the reader refuses |
| Configuration.BuildImage | datad/crates/config/src/runtime.rs:47-114 | the image filled slot by slot, or the first name that stands for no interface |
| ConfigurationFaults.RefusalSaysWhatIsBroken | datad/crates/config/src/validate.rs:382-398 | a refusal of a configuration says something true of it, of the objects it names, and one is given exactly when some such statement is true |
| ConfigurationRules.BuildsIffResolved | datad/crates/config/src/runtime.rs:119-204 | an image is built exactly when every neighbour's and every rule's interface names one the configuration has |
| ConfigurationRules.NameIsItsPort | datad/crates/config/src/runtime.rs:196-204 | the interface a name stands for is the one the reader finds on its port |
| ConfigurationRules.ValidatedBuilds | datad/crates/config/src/validate.rs:434-656 | a configuration that validates always becomes an image |
| ConfigurationRules.ValidatedIsRoutable | datad/crates/config/src/validate.rs:434-656 | nor does a validated configuration put such an address in force |
| ConfigurationRules.ValidatedIff | datad/crates/wire/src/config_rule.rs:160-234 | a configuration validates exactly when it becomes an image, the reader takes that image, no two neighbours share an id, its own document is not too long, and its management entry is sound even where it is off |
| ConfigurationRules.ReaderTakesWhatValidationRefuses | datad/crates/wire/src/config_rule.rs:197-216 | a configuration validation refuses and the reader takes |
| ConfigurationRules.ValidatedReadsBack | datad/crates/config/src/runtime.rs:47-204 | what the reader decodes of a validated configuration's image is that configuration, entry by entry in order, each name as the port it stands for |
| LogRecord.VerdictDependsOnNamedFields | datad/fuzz/src/log_record.rs:754-1259 | over any filler at all, the record with only its named fields kept gets the same verdict with the same payload |
| LogRecord.ProjectionKeepsExactlyTheNamed | datad/fuzz/src/log_record.rs:579-742 | the projection keeps exactly the fields the record's kind, detail and value kinds name, every other one being the filler's |
| LogRecord.ProjectionIsIdempotent | datad/fuzz/src/log_record.rs:579-742 | projecting twice is projecting once |
| LogRecord.AgreeingRecordsAreJudgedAlike | datad/fuzz/src/log_record.rs:579-742 | records that agree on the named fields are refused alike |
| LogRecord.KeepOnlyNamedFields | datad/fuzz/src/log_record.rs:579-716 | the in-place form, poison with the named fields copied back, is the projection over poison |
| LogRecord.KeepOnlyNamedValueFields | datad/fuzz/src/log_record.rs:720-742 | the same for one value slot |
| LogVerdict.OperandsAreReadLeftToRight | datad/fuzz/src/log_record.rs:795-1139 | every detail's chain of operand checks is its row of a table of what each word is, ruled on left to right |
| LogVerdict.RefusalIsTheFirstRule | datad/fuzz/src/log_record.rs:754-1259 | a record is refused for the first rule it breaks of a numbered list of rules each judged alone, and no rule is broken where it is not refused |
| LogVerdict.AcceptedIff | datad/fuzz/src/log_record.rs:754-1259 | a record is not refused exactly when its stamp, its kind and every field that kind names are sound |
| LogDetail.DetailsReadAsListed | datad/crates/wire/src/log_record.rs:343-405 | the fifty-nine details by name and number: all but the eight listed read the operand words |
| LogCodec.RecordRoundTrips | datad/fuzz/src/log_record.rs:1374-1432 | reading back a written record gives the record, for every record |
| LogCodec.RegionRoundTrips | datad/fuzz/src/log_record.rs:1271-1364 | writing back a record read from a region gives the region, for every region |
| LogCodec.ShortRegionIsZeroPadded | datad/fuzz/src/log_record.rs:1341-1364 | a region cut short reads as its zero-padded extension |
| LogSlot.EncodedByte | datad/fuzz/src/log_ring_abi.rs:306-324 | byte i of a stored number is its quotient by 256 to the i, modulo 256 |
| LogCodec.FieldsLieAtTheirOffsets | datad/crates/wire/src/log_record.rs:2417-2461 | in a written region every scalar field of the record is held at the byte offset the layout asserts for it |
| LogCodec.CauseAndKeyLieAtTheirOffsets | datad/crates/wire/src/log_record.rs:2410-2459 | the cause and the key are held byte by byte from their offsets: storage, then length, then pad |
| LogCodec.IdsLieAtTheirOffsets | datad/crates/wire/src/log_record.rs:2410-2461 | so are the identifiers of both values |
| LogCodec.ReadRecord | datad/fuzz/src/log_record.rs:1280-1339 | the cursor form reads that record |
| LogCodec.WriteRecord | datad/fuzz/src/log_record.rs:1374-1432 | the appending form writes that region |
| LogSlot.Placement | datad/fuzz/src/log_ring_abi.rs:171-181 | the search over the table finds each location's place |
| LogSlot.LocationsPartition | datad/fuzz/src/log_ring_abi.rs:122-130 | every byte of the record is in exactly one location |
| LogSlot.LocationsAreAligned | datad/fuzz/src/log_ring_abi.rs:122-130 | every location lies inside the record and is naturally aligned in it |
| LogSlot.SlotsKeepAlignment | datad/fuzz/src/log_ring_abi.rs:294-296 | and in the region |
| LogSlot.StoreHits | datad/fuzz/src/log_ring_abi.rs:306-344 | a stored location reads back the value truncated to its width |
| LogSlot.StoreMisses | datad/fuzz/src/log_ring_abi.rs:306-324 | storing one location changes no other |
| LogSlot.InterleavingIsAMixture | datad/fuzz/src/log_ring_abi.rs:60-67 | any interleaving of location stores from two records reads back, location by location, as the record last stored there |
| LogSlot.FullInterleavingMixesTwo | datad/fuzz/src/log_ring_abi.rs:60-67 | once a location has been stored it holds one of the two records' values |
| LogSlot.EveryMixtureIsReached | datad/fuzz/src/log_ring_abi.rs:60-67 | and every location-wise mixture is what some order of stores leaves |
| LogSlot.Region.StoreLocation | datad/fuzz/src/log_ring_abi.rs:306-324 | the in-place store of one location, nothing outside its slot moving |
| LogSlot.Region.LoadLocation | datad/fuzz/src/log_ring_abi.rs:327-341 | the in-place load of one location |
| LogSlot.Region.StoreRecord | datad/fuzz/src/log_ring_abi.rs:350-358 | storing every location of a record leaves exactly that record in the slot |
| LogSlot.Region.LoadRecord | datad/fuzz/src/log_ring_abi.rs:363-371 | loading every location gives exactly what the slot holds, so a load after a store is the identity |
| Transaction.RunKeepsInv | datad/fuzz/src/config_transaction.rs:282-311 | in every run the generation never falls, an outstanding commit is the running generation, and whatever runs or is held to go back can be published |
| TransactionOutcomes.AppliedIff | datad/crates/config/src/store.rs:271-310 | a commit is answered applied under g exactly when g is named and is one past the running and recorded generations, and a publishable candidate differs from what runs; then the candidate runs, under its own hash and g, what it displaced is kept, the candidate is gone and the floor is where it was |
| TransactionOutcomes.UnchangedIff | datad/crates/config/src/store.rs:276-286 | a commit is answered unchanged exactly for such a candidate that does not differ, and clears it and nothing else |
| TransactionOutcomes.RefusedCommit | datad/crates/config/src/report.rs:200-245 | every other commit changes nothing and is answered with the first reason |
| TransactionOutcomes.ConfirmedIff | datad/crates/config/src/provisional.rs:113-122 | a confirmation settles an outstanding commit exactly when it names the running generation, clearing what would be put back and nothing else |
| TransactionOutcomes.RolledBackIff | datad/crates/config/src/provisional.rs:177-194 | a revert is made exactly where a commit is outstanding and a generation is left, and leaves the candidate and the floor |
| TransactionOutcomes.StagedIff | datad/crates/config/src/store.rs:235-242 | a staging changes the candidate or nothing, and names the generation the next commit must |
| TransactionOutcomes.AppliedRunsTheLastStaged | datad/crates/config/src/store.rs:235-310 | over every run an applied commit puts in force the model of the last document that read |
| Transaction.FloorRises | datad/crates/config/src/store.rs:188-206 | a medium's reading raises the floor to itself or, past the word, to the top of it, never lowers it and moves nothing else; the next generation is past it |
| Transaction.RevertRestores | datad/fuzz/src/config_transaction.rs:347-362 | a revert restores exactly the configuration in force before the commit it undoes, whatever came between, under a newer generation |
| Transaction.RevertAfterHarmless | datad/fuzz/src/config_transaction.rs:347-362 | so does one after any number of stages, refused commits and mismatched confirmations |
| Transaction.HarmlessIff | datad/fuzz/src/config_transaction.rs:333-345 | exactly which operations leave an outstanding commit outstanding |
| Transaction.WrongConfirmationSettlesNothing | datad/crates/config/src/provisional.rs:113-122 | a confirmation changes nothing exactly when it names another generation |
| Transaction.ConfirmedIsFinal | datad/crates/config/src/provisional.rs:113-122 | with nothing outstanding, no run without an applied commit makes anything revertible |
| Transaction.StagingMovesNothing | datad/crates/config/src/store.rs:235-242 | a staging replaces the candidate or nothing |
| Transaction.DigestOnlyHurries | datad/crates/config/src/store.rs:271-286 | where equal content hashes alike, a commit is unchanged exactly when the content is the same |
| Transaction.RevertRaisesIff | datad/crates/config/src/report.rs:322-378 | a revert of an outstanding commit raises the generation exactly when one is left |
| Transaction.ExhaustedRevert | datad/fuzz/src/config_transaction.rs:347-362 | a run after which a revert of an outstanding commit changes nothing |
| Transaction.RejectedStagingChangesNothing | datad/crates/config/src/report.rs:150-180 | where every model read can be published, a staging is rejected exactly when the document does not read, and changes nothing then |
| Transaction.StagedIsCommitted | datad/crates/config/src/report.rs:160-190 | a staging that is not rejected names the generation the next commit gives it, and that commit is not refused |
| Transaction.RunHolds | datad/crates/config/src/store.rs:235-310 | what is true of every model read is true of every model a run holds |
| Transaction.EveryAnswerBelongs | datad/crates/wire/src/submission.rs:300-323 | where every model read can be published, no run has an answer its operation does not have |
| ConfigTransaction.RefusedDocumentIsNotStaged | datad/crates/config/src/report.rs:150-180 | a document is rejected exactly when it does not parse or breaks a rule, and then the store is what it was, candidate included; otherwise what it says is the candidate |
| ConfigTransaction.AppliedRunsTheLastDocument | datad/crates/config/src/store.rs:235-310 | over every run from the empty configuration an applied commit puts in force what the last sound document says |
| ConfigTransaction.EveryServedAnswerBelongs | datad/fuzz/src/config_transaction.rs:171-180 | in every run over documents from the empty configuration every answer is one its operation has |
| ConfigTransaction.EveryRunIsTaken | datad/crates/config/src/report.rs:200-245 | in every such run the running, the staged and the displaced configuration each build, are taken by the routing domain's reader and decode as what they mean |
| Transaction.Datastore.StageDocument | datad/crates/config/src/report.rs:168-189 | the store in place stages as the model does |
| Transaction.Datastore.CommitProvisionally | datad/crates/config/src/store.rs:271-310 | the store in place commits as the model does, keeping what it displaces |
| Transaction.Datastore.ConfirmCommit | datad/crates/config/src/provisional.rs:113-122 | the store in place confirms as the model does |
| Transaction.Datastore.RollBack | datad/crates/config/src/provisional.rs:177-194 | the store in place reverts as the model does, leaving the candidate |
| Transaction.Datastore.ObserveDurable | datad/crates/config/src/store.rs:195-206 | the store in place observes as the model does, and the floor never falls |
| Transaction.Datastore.ServeOne | datad/fuzz/src/config_transaction.rs:193-279 | one operation in place, with its answer |
| Transaction.Datastore.Transact | datad/fuzz/src/config_transaction.rs:113-190 | a whole run in place keeps the invariant, never lowers the generation, and gives each operation the answer its state calls for |
| Crc.StepIsUndone | datad/fuzz/src/recording.rs:1388-1394 | a bit step can be undone |
| Crc.StepsAreLinear | datad/fuzz/src/recording.rs:1388-1394 | any number of bit steps is linear in exclusive or |
| Crc.BytesActAsOneWord | datad/fuzz/src/recording.rs:1383-1396 | up to four bytes act as one little-endian word before eight steps each |
| Crc.BitsActAsOneWord | datad/fuzz/src/recording.rs:1388-1394 | up to thirty-two bits act as one word before a step each |
| Crc.BitBurstsAreDetected | datad/fuzz/src/recording.rs:1383-1396 | messages whose bits differ only within a stretch of up to thirty-two, at any bit offset, have different checksums |
| Crc.BurstsAreDetected | datad/fuzz/src/recording.rs:1383-1396 | messages that differ only within four consecutive bytes have different checksums |
| Crc.ChecksummedLeavesTheResidue | datad/fuzz/src/recording.rs:1404-1420 | any message followed by its little-endian checksum leaves one constant residue |
| Crc.OnlyTheChecksumLeavesIt | datad/fuzz/src/recording.rs:1404-1420 | and a four-byte field that leaves the residue is the checksum |
| CrcDivision.GeneratorIsThePolynomial | datad/fuzz/src/recording.rs:1388-1394 | the reflected constant is the generator x^32 + x^26 + x^23 + x^22 + x^16 + x^12 + x^11 + x^10 + x^8 + x^7 + x^5 + x^4 + x^2 + x + 1 without its leading term |
| CrcDivision.Division | datad/fuzz/src/recording.rs:1388-1394 | feeding bits is long division: the bits shifted out are the quotient and the register the remainder, from any register |
| CrcDivision.ChecksumIsTheRemainder | datad/fuzz/src/recording.rs:1383-1396 | the checksum is the complement of one polynomial and of no other: the remainder, by the generator, of the message times x^32 with its first thirty-two coefficients complemented |
| CrcResidue.StepIsWordStep | datad/fuzz/src/recording.rs:1388-1394 | a step is the shift and exclusive or with 0xEDB88320 of a 32-bit machine word |
| CrcResidue.ResidueIsTheNumber | datad/fuzz/src/recording.rs:1404-1420 | the residue is 0x2144DF1C |
| Crc.Bitwise | datad/fuzz/src/recording.rs:1383-1396 | the two nested loops compute the checksum |
| Crc.BuildTable | datad/crates/capture-ring/src/superblock.rs:563-581 | the table's entries are eight steps of each byte |
| Crc.LookupIsEightSteps | datad/crates/capture-ring/src/superblock.rs:587-596 | one table lookup is eight bit steps |
| Crc.ByTable | datad/crates/capture-ring/src/superblock.rs:587-596 | the byte-at-a-time form computes the same checksum as the bit-at-a-time one |
| Checksum.Fold | datad/fuzz/src/ip_endpoint.rs:505-517 | the loops fold the sum of the words, and overflow exactly when that sum is past 32 bits |
| Checksum.OddIsPadded | datad/fuzz/src/ip_endpoint.rs:507-511 | a block of odd length sums as the block with a zero byte appended |
| Checksum.FoldIsTheNumber | datad/fuzz/src/ip_endpoint.rs:505-517 | modulo 65535 the fold of an even block is the whole block read as one big-endian number |
| Checksum.FoldPreservesTheSum | datad/fuzz/src/ip_endpoint.rs:512-515 | the fold fits sixteen bits, preserves the sum modulo 65535, and is zero only for a zero sum |
| Checksum.SumFits | datad/fuzz/src/ip_endpoint.rs:505-511 | up to 65537 words never overflow the accumulator |
| Checksum.OneWordMoreMayOverflow | datad/fuzz/src/ip_endpoint.rs:505-511 | and 65538 words can |
| Checksum.ValidatesIffComplement | datad/fuzz/src/ip_endpoint.rs:502-517 | a block folds to all ones exactly when its even-offset field is the complement of the fold of the rest, the two zeros being one |
| Checksum.ComplementValidates | datad/fuzz/src/ip_endpoint.rs:502-517 | the complement of its own fold always validates a block |
| Pcapng.WalkRecovers | datad/fuzz/src/pcapng.rs:468-510 | walking the concatenation of any framed blocks recovers exactly those blocks and ends exactly at the end |
| Pcapng.WalkDecomposes | datad/fuzz/src/pcapng.rs:468-510 | a stream the walk accepts is the concatenation of the framed blocks it found |
| Pcapng.AcceptedIffFramed | datad/fuzz/src/pcapng.rs:432-510 | a stream is accepted exactly when it is a run of framed blocks |
| Pcapng.DecompositionIsUnique | datad/fuzz/src/pcapng.rs:432-463 | and it is one in one way only |
| Pcapng.StopsAtTheFault | datad/fuzz/src/pcapng.rs:468-510 | a walk that stops has passed framed blocks up to the offset it names, and the fault is what is wrong with the octets there |
| Pcapng.LengthIsTheSum | datad/fuzz/src/pcapng.rs:460-463 | a length is its four octets times 1, 256, 65536 and 16777216 |
| Pcapng.BothWaysAgree | datad/fuzz/src/pcapng.rs:446-450 | walking back by trailing lengths accepts the same streams and visits the same boundaries |
| Pcapng.WalkStream | datad/fuzz/src/pcapng.rs:468-510 | the loop walks so and counts the blocks it saw |

## Left out

- TLS, certificates, packages, stored state, documents, flows, neighbours, HTTP and metrics: parsers and tables whose deciding code is elsewhere; models would be mostly invented or add easy members.
- The transmit path of the driver and the virtqueue: a completion names any slot and any length, and a refill is offered any slots, so the receive path is proved against every queue; the driver's own invariant-fault counters, which depend on the queue, are not modelled.
- The forwarder's routing stage in the pipeline: only ownership, lending and returning are modelled.
- The return ring in the driver's own run: a reclaim there is given any sequence of indices, which is what a return ring the peer rewrites entirely can yield; `PoolOwner.PoolSide.Reclaim` is the drain of that ring.
- The image digest: any function of the image's body, so nothing depends on its collisions.
- Parsing and rendering a document, the content hash and the comparison of contents: parameters, with nothing assumed of them but what a lemma states.
- Sinks, log events and the submission channel's sequence numbers in the transaction: reporting only.
- Atomic orderings, raw pointers and concurrency inside one location: memory is modelled location by location, the granularity the source gives its adversary.
- The counters of traffic and of refusals that decide nothing.
- The pad bytes of a configuration image's entries, which no rule reads.
