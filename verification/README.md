# Atlantic driver: rings, filters, packing and clock

This project models the data path and the filter tables of the Aquantia Atlantic network driver,
and proves what its code keeps.

**Transmit.** An skb is cut into pieces of at most 16 KB, each piece is mapped for DMA and
described by a slot of the TX ring, descriptors are written for the slots, and the slots are
reclaimed once the hardware head has passed the packet. `TxPackets` says how a packet is cut,
`TxBuffers` what a slot holds in its overlaid words, `TxSlots` and `TxMapping` what the mapping
loops leave in the ring, `TxDescriptors` what the descriptor words mean to the engine.
`TxProtocol` is the ring as a state machine between driver and engine; `TxRing` is the class whose
methods are the driver's functions, each tied to a step of it.

**Receive.** The engine writes posted descriptors back in order; packets may interleave. The driver
receives them into its slots, walks the chain that begins at the head, delivers or drops whole
packets, refills slots with pages and posts them. `RxChains` is what the engine promises about
chains and what must be delivered, with no ring in it; `RxProtocol` are the driver's steps;
`RxSafety` connects the two; `RxPages` is the reuse of pages; `RxDelivery` runs ring and pages
together; `RxRings` are the RX rings of a device with their pages; `RxRefill` is the refill slot by
slot; `RxRing` is the class. `VecPoll` is the poll of a
vector over its pairs of a TX and an RX ring.

**Filters.** `VlanTable` and `VlanFilters` are the 16-slot VLAN table and its copy in the registers;
`VlanRuns` are whole runs of VLANs and rules of every kind coming and going, with the rule list and
the registers;
`FilterRules` is the set of user rules with the occupancy of the L3/L4 filters, `FilterTable` the
sorted list that implements it. A VID has the 12 bits of section 9.6 of IEEE 802.1Q-2014.

**Smaller cores.** `Registers` and `IrqMap`: bit-field writes. `Rss`: the packed redirection table.
`PtpClock`: the clock period. `PtpQueue`: skbs that wait for a timestamp. `Ring` is the index
arithmetic and `Bits` the bit operators that the others share.

The hardware is a step that may do anything the driver relies on it not to exceed. On TX it moves
its head anywhere between the old head and the published tail (`TxProtocol.HwMove`). On RX it
writes back the oldest posted descriptor; its link, if the packet goes on, is forward, within the
posted slots, and met by no other link (`RxSafety.HwWrite`). The DMA layer, the page allocator,
skb allocation and the success of hardware calls are parameters that may answer anything; the
allocator hands out pages that keep apart from those in use. The code modelled is that of a build with
`__VMKLNX__` where an oversized head is split, and without it for page reuse and the rule list.

## Where the code does not do what one might expect

- When the head cannot be mapped and a context slot was already filled, the lone context descriptor
  is sent and the skb is never freed by reclaiming: `TxRing.AcceptedIsFreedIffHeadMapped`.
- The error path of mapping skips bus address zero: `TxMapping.RollbackExact`.
- A head of 64 KB or more loses its upper part: `TxPackets.PiecesPartitionPacket`.
- The stop threshold covers packets of up to 33 slots; one of 31 fragments, one of them over 16 KB,
  needs 34: `TxRing.ThresholdGuarantees`, `TxRing.ThresholdNotEnough`.
- The transmit path does not look for room. A packet that is sent without it leaves the ring invariant
  broken, and one with room keeps it: `TxRing.RoomDecides`.
- A refill that fails after at least one page breaks the ring invariant:
  `RxSafety.FailureKeepsInvIff`, `RxDelivery.EveryStateHoldsIff`. The next receive takes descriptors
  that the hardware has not written back, if and only if all that was published has been written back
  and the first slot behind it still shows an old write-back: `RxSafety.StaleReceiveIff`,
  `RxSafety.StaleReceiveHappens`. A complete refill that comes before the head has moved does not post
  the slots that the tail has passed, and moves the tail register over them, so that an old write-back
  in them is read as an address: `RxSafety.SkippedSlotsStay`, `RxSafety.OldWordsBecomeAddressesIff`.
  Such a slot comes back into use once the driver has run over it: `RxSafety.OldWordStaysIff`,
  `RxSafety.SkippedSlotComesBack`.
- A poll in which a page, an skb or a hardware call is refused ends without completing, and with less
  than its budget reported unless the budget was used up: `VecPoll.AqVec.Poll`.
- The flag that decides whether a poll completes is that of the last TX ring cleaned. The driver
  configures one traffic class, so its vectors have one TX ring each and a completed poll leaves nothing
  to reclaim: `VecPoll.OnePairIsAtRest`. Of several rings that all transmit, one could be left with work:
  `VecPoll.WasTxCleanedIff`, `VecPoll.SecondRingHidesFirst`.
- An skb that waits for a timestamp is queued before it is mapped and stays queued when that fails, so
  that later timestamps go to the wrong skbs: `PtpQueue.StampsReachTheirSkbsIff`,
  `PtpQueue.StampGoesAstray`.
- Two rules for one VLAN are admitted, and removing the VLAN then leaves one of them in the table, so
  the device goes on passing it: `FilterRules.TwinsAreAdmitted`, `VlanRuns.KillStopsIff`,
  `VlanRuns.TwinOutlives`.
- What is left of such a pair takes a slot, so that with sixteen active VLANs one of them is shut out:
  `VlanRuns.ShutsOutIff`, `VlanRuns.TwinShutsOut`.
- Removing a VLAN looks for any rule with its tag; when that is a rule of another kind it is deleted
  and the table is not rebuilt, so the device goes on passing the VLAN: `VlanRuns.StrayKeepsVlan`.
- A rule that replaces another and then fails loses both: `FilterRules.AddedRules`.
- An L3/L4 rule refused by the hardware leaves its occupancy bit set:
  `FilterRules.AddKeepsOccupancyIff`.

## Model

| member | source | states |
|---|---|---|
| Ring.InRangeIsBetween | aq_ring.c:243-247 | the range test is strict circular betweenness, and with equal bounds it excludes only that slot |
| Ring.LivePlusAvail | aq_ring.h:155-160 | live and available slots always add up to size - 1 |
| Ring.NextIsAt | aq_ring.h:149-153 | the successor walks all slots and closes the circle after size steps |
| Ring.StoreWindow | hw_atl/hw_atl_b0.c:716-726 | what a wrapping loop writes behind an index reads back in order, and no other slot changes |
| TxPackets.PiecesPartitionPacket | aq_nic.c:595-707 | the pieces are at most 16384 bytes and their concatenation is head then fragments, if and only if the head length fits its 16-bit field |
| TxPackets.SlotBound | aq_nic.c:555-737 | a packet takes at most 1 + (nr_frags + 1) + len/16384 slots, and at most 33 below 64 KB and 28 fragments |
| TxBuffers.ContextReadsBack | aq_ring.h:42-71 | MSS, header lengths and tag written to a context slot can be read from it, through the overlay |
| TxMapping.SlotsNameMappedBytes | aq_nic.c:595-707 | the addresses named by the slots are exactly those the DMA layer gave, byte for byte and in order |
| TxMapping.RollbackExact | aq_nic.c:714-733 | the ranges unmapped are exactly those mapped by this call, each once, if and only if no piece was mapped at bus address zero |
| TxSlots.ClosedCarriesPacket | aq_nic.c:566-711 | the finished slots are context, first, middle and last slots of the packet; the first names the last and the last one alone ends it and holds the skb |
| TxProtocol.CleanOneKeepsInv | aq_ring.c:275-309 | reclaiming a slot keeps the live slots tiled into whole packets whose first slot names their last |
| TxProtocol.PublishKeepsInv | aq_nic.c:739-782 | publishing a well-formed packet behind the tail keeps the live slots tiled into whole packets whose first slot names their last |
| TxProtocol.AbandonKeepsInv | aq_nic.c:714-737 | a failed mapping, which may have written any free slot, keeps the ring invariant |
| TxProtocol.HwMoveKeepsInv | hw_atl/hw_atl_b0.c:773-789 | any move of the hardware head up to the tail keeps the ring invariant |
| TxProtocol.EveryRunIsSafe | aq_ring.c:275-309 | the invariant holds after every interleaving of transmit, head steps and budgeted reclaiming |
| TxProtocol.ReleaseSafety | aq_ring.c:275-309 | in every reachable state the buffers unmapped and skbs freed are an initial part of those published, so none twice, and only behind an EOP slot the hardware has passed |
| TxProtocol.BlockedIffInFlight | aq_ring.c:284-291 | reclaiming waits exactly in front of a packet whose last slot has not been passed |
| TxProtocol.CleanReaches | aq_ring.c:275-309 | a call reclaims what it may or its budget, whichever is less |
| TxProtocol.CleanCutAnywhere | aq_ring.c:275-309 | two calls reclaim what one with the sum of their budgets reclaims, even when the first stops inside a packet |
| TxProtocol.DrainedWhenHardwareIdle | aq_ring.c:275-309 | when the hardware has caught up, everything can be reclaimed |
| TxDescriptors.ReadDataInverts | hw_atl/hw_atl_b0.c:595-629 | the data words, read with the trace layout, give back address, length, flags and end mark |
| TxDescriptors.ReadContextInverts | hw_atl/hw_atl_b0.c:574-594 | the context words give back MSS, L2, L3 and L4 lengths and tag, the L3 length across two words |
| TxDescriptors.StreamMeansPacket | hw_atl/hw_atl_b0.c:550-638 | the whole stream says one context, every piece in order, the end mark on the last only and the same PAY_LEN everywhere, though the skb overlays the packet length in the last slot |
| TxDescriptors.PayLenExact | hw_atl/hw_atl_b0.c:582-604 | PAY_LEN is the length less the headers exactly when that is below 2^18 |
| TxRing.TxRing.constructor | aq_ring.c:235-241 | an empty ring, running |
| TxRing.TxRing.CleanTurn | aq_ring.c:280-306 | one turn is one reclaiming step of the protocol or stops in front of a packet in flight |
| TxRing.TxRing.Clean | aq_ring.c:275-309 | the whole call is the budgeted reclaiming of the protocol, and its result says whether budget is left |
| TxRing.TxRing.WriteContext | aq_nic.c:563-593 | a context slot exactly when the skb is GSO or tagged |
| TxRing.TxRing.CutRest | aq_nic.c:638-665 | the loop cuts the rest of an oversized head into slots of at most 16384 bytes each |
| TxRing.TxRing.MapHead | aq_nic.c:595-665 | the head's slots, however long it is |
| TxRing.TxRing.MapFrag | aq_nic.c:675-706 | the loop over one fragment, up to the first mapping that is refused |
| TxRing.TxRing.MapFrags | aq_nic.c:668-707 | the loop over the fragments: one slot per piece mapped, until all are or one is refused |
| TxRing.TxRing.Rollback | aq_nic.c:714-733 | every mapping of the call that is not at address zero is undone, once, and the ring is left alone |
| TxRing.TxRing.MapSkb | aq_nic.c:555-737 | the slots and the return value of every outcome: all mapped, head refused, fragment refused |
| TxRing.TxRing.RingTxXmit | hw_atl/hw_atl_b0.c:550-638 | descriptors are written exactly behind the tail, one for each slot, and the tail moves behind them |
| TxRing.TxRing.HeadUpdate | hw_atl/hw_atl_b0.c:773-789 | reading the head register is a hardware step and keeps the ring valid |
| TxRing.TxRing.UpdateQueueState | aq_ring.c:249-255 | the queue is stopped when 32 slots or fewer are free, running when more than 64 are, and as it was in between; the ring is not touched |
| TxRing.TxRing.Transmit | aq_nic.c:764-777 | from any valid ring, with room or without: the slots and descriptors of every outcome; with room the ring stays valid, and after a packet was sent it is valid if and only if there was room for its slots |
| TxRing.TxRing.Xmit | aq_nic.c:739-782 | too many fragments drop the packet and a stopped queue refuses it, leaving the ring as it was; otherwise it is what a transmit does, and packets of up to 33 slots keep the ring valid in every case |
| TxRing.RoomDecides | aq_nic.c:764-777 | a packet that was sent leaves the ring invariant intact if and only if its slots were free |
| TxRing.FitsEveryRing | hw_atl/hw_atl_b0_internal.h:149-152 | an accepted packet below 112 KB, with a head below 64 KB, needs fewer slots than the smallest ring has |
| TxRing.PacketReleasesItself | aq_ring.c:284-305 | reclaiming a packet's slots unmaps exactly the ranges its slots name, each once, and frees its skb once |
| TxRing.AcceptedIsFreedIffHeadMapped | aq_nic.c:588-602 | an accepted skb is freed by reclaiming if and only if its head was mapped |
| TxRing.RoomAtEveryTransmit | aq_nic.c:756-767 | a packet below 64 KB with at most 28 fragments has room whenever the queue is not stopped |
| TxRing.ThresholdGuarantees | aq_ring.c:249-255 | the stop threshold leaves room in every case if and only if the packet needs at most 33 slots |
| TxRing.ThresholdNotEnough | aq_nic.c:751-767 | the driver accepts a packet that needs 34 slots: a tagged one, below 64 KB, of 31 fragments of which one takes two slots |
| TxRing.DescriptorsDescribePacket | aq_nic.c:555-737 | from skb to wire: the descriptors of a mapped packet cover its bytes in order and say its context |
| RxChains.ExactlyOnePacket | hw_atl/hw_atl_b0.c:863-887 | the chains of the head positions cover every written-back descriptor and do not meet |
| RxChains.CompleteIsStable | aq_ring.c:362-384 | a packet seen as complete never changes when more is written back |
| RxChains.StopFromAnywhere | aq_ring.c:381-384 | where cleaning has to stop does not depend on where it resumes |
| RxProtocol.PathIsChained | aq_ring.c:362-379 | the walk that reaches an EOP slot visits linked slots and ends at the first EOP |
| RxSafety.HwWriteKeepsInv | hw_atl/hw_atl_b0.c:791-812 | a write-back of the hardware keeps the ring invariant |
| RxSafety.ReceiveKeepsInv | hw_atl/hw_atl_b0.c:791-891 | receiving takes in everything written back and nothing else, and keeps the invariant |
| RxSafety.HeadIsWalkable | aq_ring.c:362-379 | from the head, links go forward inside the ring, so the walk ends |
| RxSafety.HeadPathIs | aq_ring.c:362-384 | the walk finds the followers of the packet at the head, if and only if all have been received |
| RxSafety.CleanOneKeepsInv | aq_ring.c:347-527 | a turn of the cleaning loop keeps the invariant, delivering or counting exactly the packet at the head |
| RxSafety.CleanKeepsInv | aq_ring.c:338-531 | a call passes at most its budget and keeps the invariant |
| RxSafety.CleanReaches | aq_ring.c:338-531 | a call never passes an incomplete packet, and stops only in front of one or at its budget when no skb is refused |
| RxSafety.CutAnywhere | aq_ring.c:338-531 | budgets and failed allocations do not change what is delivered in the end |
| RxSafety.PassedExactlyOnce | aq_ring.c:347-527 | a descriptor behind the head belongs to exactly one packet, received as a whole |
| RxSafety.RefillFillsTheRing | aq_ring.c:550-573 | a refill above the threshold leaves no slot free and posts each slot's address once, in order |
| RxSafety.RefillKeepsInv | aq_ring.c:550-578 | a complete refill keeps the ring invariant and changes neither slot nor descriptor of a live position |
| RxSafety.FailureKeepsInvIff | aq_ring.c:559-578 | a refill that fails keeps the ring invariant if and only if it got no page at all |
| RxSafety.StaleReceiveIff | aq_vec.c:64-87 | from any ring, the receive after a failed refill takes descriptors the hardware has not written back, if and only if a page was had, everything posted has been written back, and the first slot behind that still shows an old write-back |
| RxSafety.FailureAndHardwareCommute | aq_vec.c:64-87 | write-backs after a failed refill are write-backs before it, so what holds of the next receive holds whatever the hardware does in between |
| RxSafety.StaleReceiveHappens | aq_vec.c:64-87 | a ring of four slots after one full turn, in which the receive after a failed refill does so |
| RxSafety.OldWordStaysIff | aq_ring.c:550-574 | in a complete refill, from whatever state, a slot that shows an old write-back keeps it if and only if the driver counts it as posted or it is the slot kept free; otherwise it is posted |
| RxSafety.SkippedSlotsStay | aq_vec.c:78-87 | a complete refill right after a failed one leaves the descriptors of all slots that the failed one has passed |
| RxSafety.OldWordsBecomeAddressesIff | aq_vec.c:78-87 | an old write-back in the first slot behind the published ones survives a failed refill and a complete one, to be read as an address, if and only if the failed one got a page |
| RxSafety.SkippedSlotComesBack | aq_vec.c:64-87 | a ring of four slots in which two skipped slots are received and passed as stale packets, and the next refill posts the first of them |
| RxPages.GetRxPagesKeepsInv | aq_ring.c:88-114 | flipping, rewinding or replacing a page keeps counts exact and live regions below the window |
| RxPages.PostedWindowsAreSafe | aq_ring.c:88-114 | after any deliveries, shares, releases and refills the bus addresses of a window to be posted lie in its page and overlap those of no live region and no other window |
| RxPages.WhenPagesAreReplaced | aq_ring.c:88-109 | a page is given up if and only if it is still held and its last window is used up |
| RxDelivery.TakePacketKeeps | aq_ring.c:411-500 | delivering hands out windows of its packet's slots only and keeps the page accounts |
| RxDelivery.HardwareWritesAreSafe | aq_ring.c:550-578 | each address the hardware may still write to is that of a window whose addresses overlap no region of a live skb and no other window |
| RxDelivery.RefillKeepsBoth | aq_ring.c:550-578 | a complete refill posts the window of each free slot and keeps ring and pages together |
| RxDelivery.FailedAtOnceKeepsBoth | aq_ring.c:559-578 | a refill that gets no page at all keeps ring and pages together |
| RxDelivery.EveryRunIsSafe | aq_vec.c:35-107 | for every run, with any budgets, refused skbs and refused pages, and every state up to the first refill that fails half way: delivered packets are the error-free ones in the order of their heads, the others are counted, every passed descriptor is in one packet, and what the hardware may write to overlaps no live skb |
| RxDelivery.EveryStateHoldsIff | aq_vec.c:35-107 | the invariants of ring and pages hold in all states of a run, whatever is refused in it, if and only if none of its refills fails after at least one page |
| RxRings.StepUsesOnly | aq_ring.c:88-114 | no step brings a page into use but a refill, and that only pages the allocator has given |
| RxRings.RingsKeepApart | aq_ring.c:550-578 | for every run of several rings, whose allocator gives none of them a page that overlaps one in use: what the hardware may still write to for one ring overlaps no live skb and no window of another |
| RxRefill.FillAllIs | aq_ring.c:559-574 | the refill loop resets the slots it gets to and moves the tail over those that got a page |
| RxRefill.FilledAndPosted | aq_vec.c:78-87 | when every page was had, publication completes the refill |
| RxRefill.FilledInPart | aq_vec.c:78-82 | when a page was refused, what is left is the failed refill, with as many slots passed as pages were had, and the pages the others have got |
| RxRefill.FilledNothing | aq_vec.c:78-87 | a refill that gets no page at all is a step of the runs |
| RxRing.RxRing.constructor | aq_ring.c:235-241 | an empty ring that satisfies all invariants |
| RxRing.RxRing.Receive | hw_atl/hw_atl_b0.c:791-891 | the receive loop is the receive step of the protocol |
| RxRing.RxRing.Walk | aq_ring.c:362-384 | the first walk tells whether the packet is complete and collects its errors in the head slot |
| RxRing.RxRing.MarkRest | aq_ring.c:385-396 | the second walk marks exactly the followers of a dropped packet |
| RxRing.RxRing.DeliverRest | aq_ring.c:467-499 | the third walk hands over the followers' buffers in order and marks them |
| RxRing.RxRing.Deliver | aq_ring.c:411-500 | what a delivered packet is made of and what it takes from the pages, for one buffer and for several |
| RxRing.RxRing.TurnBody | aq_ring.c:347-527 | a turn of the loop is a turn of the protocol, with its reason to stop |
| RxRing.RxRing.Clean | aq_ring.c:338-531 | the call is the budgeted cleaning of the protocol on ring and pages; work done is what was passed, within the budget |
| RxRing.RxRing.GetRxPages | aq_ring.c:88-114 | the three ways to keep or give up a page, and the fourth to get one; no other slot changes |
| RxRing.RxRing.Fill | aq_ring.c:550-578 | nothing below the threshold, otherwise the refill up to the first refusal |
| RxRing.RxRing.Publish | hw_atl/hw_atl_b0.c:712-733 | every slot from the old tail to the new is posted once, and no other |
| RxRing.RxRing.Replenish | aq_vec.c:78-87 | refill and publication are a step of the runs, and keep all invariants, unless a page is refused after one was had, which leaves the failed refill |
| RxRing.RxRing.Poll | aq_vec.c:64-93 | what receive, clean and refill in one poll leave of ring and pages, whatever is refused or reported by the hardware; all invariants are kept unless a refill fails half way; work done is what was passed and never exceeds the budget |
| VecPoll.CleanIsExhaustive | aq_ring.c:275-309 | a TX call with budget left has reclaimed everything it may |
| VecPoll.CleanIsExhaustiveRx | aq_ring.c:338-531 | an RX call that neither failed nor used up its budget has come to an incomplete packet or to the end of what was received |
| VecPoll.PollLeavesNothing | aq_vec.c:64-93 | after a poll with budget left everything written back is received and no complete packet is left |
| VecPoll.RingPair.PollTx | aq_vec.c:50-62 | the TX half of one pair: the ring is left as the budgeted reclaiming leaves it, and reports whether budget is left if there was anything to do |
| VecPoll.RingPair.Poll | aq_vec.c:48-94 | the turn of one pair, with every answer of the hardware: what both rings are left as; they stay valid unless a refill fails half way, and with budget left the RX ring has nothing left to do |
| VecPoll.AqVec.Poll | aq_vec.c:35-107 | the poll over all pairs: it ends with the first turn that fails, the others untouched; otherwise it completes if and only if the flag is set and the work of all pairs is below the budget, and then no RX ring has anything left; it returns less than its budget without completing if and only if a turn fails with budget left |
| VecPoll.OnePairIsAtRest | aq_vec.c:95-103 | with one pair, which is what the driver configures, a poll that completes leaves nothing to reclaim |
| VecPoll.WasTxCleanedIff | aq_vec.c:58-96 | the flag is set after the loop if and only if every TX ring that used up its budget is followed by one that did not |
| VecPoll.AtRestIff | aq_ring.c:275-309 | a call leaves a TX ring with nothing to reclaim if and only if there was no more than its budget |
| VecPoll.SecondRingHidesFirst | aq_vec.c:58-96 | were a vector to have two rings that transmit, which the driver does not configure: with more than 256 slots to reclaim in the first and fewer in the second the flag is set, and the first is left with work |
| VlanTable.RebuiltAt | aq_filters.c:369-413 | after a rebuild user rules stay and the r-th other slot holds the r-th active VLAN without a rule, or nothing |
| VlanTable.RebuildKeepsRules | aq_filters.c:376-378 | a rebuild neither adds, changes nor drops a user rule |
| VlanTable.RebuildHasNoDuplicates | aq_filters.c:393-408 | no VLAN is in two slots after a rebuild, if and only if user rules are for different VLANs |
| VlanTable.RebuildIsIdempotent | aq_filters.c:369-413 | rebuilding twice is rebuilding once |
| VlanTable.EveryActiveListedIff | aq_filters.c:369-413 | every active VLAN is in the table if and only if those without a rule fit in the slots without one |
| VlanTable.EnoughSlotsIff | aq_filters.c:369-413 | with different rules, the VLANs without one fit if and only if the active VLANs and the rules for inactive ones are together not more than the slots |
| VlanTable.EnoughSlots | aq_filters.c:837-849 | with different rules for active VLANs every active VLAN is in the table if at most 16 are active, which is the test the driver makes |
| VlanTable.WeightCounts | aq_filters.c:837-838 | the sum of the word weights is the number of active VLANs |
| VlanTable.RuleSetKeepsDistinct | aq_filters.c:424-441 | setting or removing a user rule keeps the rules for different VLANs |
| VlanFilters.VlanState.FillSlot | aq_filters.c:379-409 | the inner loop ends, with the next VLAN that has no rule or with none |
| VlanFilters.VlanState.Rebuild | aq_filters.c:369-413 | the loop computes the rebuilt table |
| VlanFilters.VlanState.SetDataFvlan | aq_filters.c:416-443 | the table after a rule is set or removed |
| VlanFilters.VlanState.CountActive | aq_filters.c:837-838 | the loop over the words computes the weight |
| VlanFilters.VlanState.FiltersVlansUpdate | aq_filters.c:821-853 | table, register accesses in order, and final registers of an update, however the hardware answers its three calls |
| VlanFilters.EarlyEndAcceptsAll | aq_filters.c:840-847 | an update that a hardware error ends early leaves the device accepting every VLAN |
| VlanFilters.VlanSet | hw_atl/hw_atl_b0.c:1444-1470 | the register accesses of the table writer, in order |
| VlanFilters.Masks | hw_atl/hw_atl_llh.c:903-946 | the masks of the setters are those of the fields at their shifts |
| VlanFilters.FilterAfterUpdate | hw_atl/hw_atl_b0.c:1450-1467 | filter i passes what slot i lists, to the queue of its rule if it has one |
| VlanFilters.AcceptedAfterUpdate | hw_atl/hw_atl_b0.c:1444-1478 | the device accepts everything above 16 active VLANs and otherwise what the table lists |
| VlanFilters.NothingIsLostMeanwhile | aq_filters.c:840-847 | after every register access of an update but the last the device accepts every VLAN |
| VlanFilters.NothingIsLostAfterwardsIff | aq_filters.c:834-852 | after an update no active VLAN is shut out, if and only if more than 16 are active or those without a rule fit |
| VlanFilters.ExactlyTheActive | aq_filters.c:834-852 | with different rules for active VLANs the device accepts exactly the active ones, or everything when they are more than 16 |
| VlanRuns.StepKeeps | aq_filters.c:694-853 | VLANs and rules of every kind coming and going keep table, rule list and registers in agreement: rules in the table are different and backed by the list, and the device passes what the table lists, or everything when the last update counted more than 16 |
| VlanRuns.EveryRunIsKept | aq_filters.c:694-853 | table, rule list and registers agree after every run, twins and rules of other kinds included |
| VlanRuns.KillStopsIff | aq_filters.c:445-464 | after removing a VLAN the device still passes it, if and only if either the search finds a rule of another kind and the registers passed it before, or it does not and more than 16 VLANs remain active or a second rule pins it |
| VlanRuns.KillKeepsActiveIff | aq_filters.c:445-464 | removing a VLAN leaves only rules for active VLANs, if and only if the rule that pins it, if there is one, is the first of the list with its tag |
| VlanRuns.EveryRunIsTidy | aq_filters.c:416-480 | in runs without two rules for one VLAN, without VLAN rules whose tag has more than the 12 bits of a VID, and without a search that finds a rule of another kind, rules in the table are for active VLANs and the registers are written for the VLANs active now |
| VlanRuns.EveryRunIsExact | aq_filters.c:821-853 | after every run without two rules for one VLAN, without VLAN rules whose tag has more than the 12 bits of a VID, and without a search that finds a rule of another kind, the device's registers pass exactly the active VLANs, or all when they are more than 16 |
| VlanRuns.ShutsOutIff | aq_filters.c:821-853 | after any run that ends with an update no active VLAN is shut out, if and only if more than 16 are active, or the active ones and the rules for inactive ones are together at most 16 |
| VlanRuns.TwinOutlives | aq_filters.c:445-464 | a run of four steps with two rules for one VLAN, after which no VLAN is active and the device still passes the removed one |
| VlanRuns.TwinShutsOut | aq_filters.c:821-853 | a run of twenty steps after which sixteen VLANs are active and one of them is shut out |
| VlanRuns.StrayKeepsVlan | aq_filters.c:445-464 | a run with an ethertype rule without a tag, after which VLAN 0 has been removed, the rule is gone, and the device still passes VLAN 0 |
| FilterRules.Admitted | aq_filters.c:86-213 | what an admitted rule has passed: its location, its family, and that no other rule says the same |
| FilterRules.AddedRules | aq_filters.c:694-731 | exactly when an add succeeds, and what it does to the rules when it does not |
| FilterRules.AddKeepsRules | aq_filters.c:64-84 | no two rules say the same, and L3/L4 rules are at L3/L4 locations only, after any add |
| FilterRules.RemoveKeepsRules | aq_filters.c:733-753 | no two rules say the same, and L3/L4 rules are at L3/L4 locations only, after any delete |
| FilterRules.RemoveKeepsOccupancy | aq_filters.c:491-499 | a delete clears the bit its rule had, in the right family |
| FilterRules.AddKeepsOccupancyIff | aq_filters.c:86-110 | an add keeps the occupancy in agreement with the rules if and only if the hardware does not refuse an L3/L4 rule |
| FilterRules.EveryRunKeepsRules | aq_filters.c:694-753 | for every run of adds, replacements, deletes and failures each location holds the last rule added to it |
| FilterRules.EveryRunKeepsOccupancy | aq_filters.c:482-536 | for every run without such a refusal the bits are those of the rules, families are not mixed, and is_ipv6 names the one present |
| FilterRules.TwinsAreAdmitted | aq_filters.c:50-84 | the comparison of rules lets two through for one VLAN |
| FilterTable.ListIsDetermined | aq_filters.c:644-680 | a sorted list is determined by its set of rules |
| FilterTable.RxFltrs.CheckTheRule | aq_filters.c:287-300 | the checks with their effect on is_ipv6 and their verdict |
| FilterTable.RxFltrs.RuleAlreadyExists | aq_filters.c:64-84 | the search over the list finds an equal rule at another location |
| FilterTable.RxFltrs.AddDelTheRule | aq_filters.c:603-642 | the occupancy and the status for every kind of rule, and that only the bitmap of its family changes |
| FilterTable.RxFltrs.UpdateTableFilters | aq_filters.c:644-680 | replaces the rule at a location, keeping the list sorted and counted |
| FilterTable.RxFltrs.AddRxnfcRule | aq_filters.c:694-731 | the whole add is the operation on the set of rules; the list stays strictly sorted and the counter is its length |
| FilterTable.RxFltrs.DelRxnfcRule | aq_filters.c:733-753 | the whole delete is the operation on the set of rules; the list stays strictly sorted and the counter is its length |
| FilterTable.RxFltrs.GetRxnfcRule | aq_filters.c:755-774 | the rule at a location, if there is one |
| FilterTable.RxFltrs.GetRxnfcAllRules | aq_filters.c:776-797 | every location, ascending, if and only if the caller has room |
| Registers.AqHw.WriteRegBit | aq_hw_utils.c:18-32 | one access, through the mask or over the whole register; every other register reads the same |
| Registers.GetWrite | aq_hw_utils.c:18-32 | the field reads what was written and disjoint fields keep their value, in both branches |
| Registers.ReadBitReads | aq_hw_utils.c:34-37 | the bit-field read gives the field |
| Registers.FieldsAreIndependent | aq_hw_utils.c:18-32 | after any writes to separate fields each reads the last value written to it |
| IrqMap.PlacesAreDisjoint | hw_atl/hw_atl_llh.c:110-270 | the tables of the four setters name a field of its own for every ring |
| IrqMap.MaskIsShiftedOnes | hw_atl/hw_atl_llh.c:110-270 | the masks in the tables fit their shifts |
| IrqMap.EachKeepsItsOwn | hw_atl/hw_atl_llh.c:110-270 | after any calls of the four setters every field reads the value last set for it |
| IrqMap.RestIsUntouched | hw_atl/hw_atl_llh.c:110-270 | after any calls of the four setters nothing outside the fields they set has changed |
| IrqMap.IrqMapEnRxSet | hw_atl/hw_atl_llh.c:110-149 | makes one access, to the enable field of its RX ring |
| IrqMap.IrqMapEnTxSet | hw_atl/hw_atl_llh.c:151-190 | makes one access, to the enable field of its TX ring |
| IrqMap.IrqMapRxSet | hw_atl/hw_atl_llh.c:192-230 | makes one access, to the interrupt field of its RX ring |
| IrqMap.IrqMapTxSet | hw_atl/hw_atl_llh.c:232-270 | makes one access, to the interrupt field of its TX ring |
| Rss.OrEntry | hw_atl/hw_atl_b0.c:253-257 | the 32-bit OR adds the entry to the number held over the words, and touches two of them at most |
| Rss.PackTable | hw_atl/hw_atl_b0.c:241-257 | bits 3i to 3i+2 of the twelve words read table[i] mod q, for every table and up to eight queues; the word behind them stays zero |
| Rss.NoPackingBeyondEight | hw_atl/hw_atl_b0.c:253-257 | with more than eight queues some entry cannot be held in its three bits |
| Rss.RssInit | aq_nic.c:65-85 | the default table deals entries out in turn for one, two, four and eight queues |
| Rss.ThreeQueuesAreNotDealt | aq_nic.c:83-84 | with three queues one queue would get no entry, which is why the count is rounded down to a power of two |
| PtpClock.PeriodIsClose | hw_atl/hw_atl_b0.c:1185-1199 | the programmed period is within six units of 2^-32 ns of the exact one, for any frequency |
| PtpClock.PeriodIsMonotone | hw_atl/hw_atl_b0.c:1185-1199 | the programmed period is monotone in the adjustment |
| PtpClock.FractionFits | hw_atl/hw_atl_b0.c:1191-1195 | the fraction of the period fits 32 bits |
| PtpClock.FractionBounds | hw_atl/hw_atl_b0.c:1191-1195 | after the two truncating divisions the fraction times 10^9 is above 2^32 times the remainder less 10^9, and below 2^32 times the remainder plus one |
| PtpClock.AdjParamsGet | hw_atl/hw_atl_b0.c:1185-1199 | in the source's integer types no step overflows, and the result is the period of the unbounded computation |
| PtpQueue.PtpSkbRing.Put | aq_ptp.c:152-163 | appends to the queue and takes a reference, unless size - 1 are queued |
| PtpQueue.PtpSkbRing.Get | aq_ptp.c:177-188 | takes the oldest skb from the queue, if there is one |
| PtpQueue.PtpSkbRing.BufLen | aq_ptp.c:202-214 | the computed length is the length of the queue |
| PtpQueue.PtpSkbRing.Clean | aq_ptp.c:232-237 | empties the queue and drops every queued reference |
| PtpQueue.AqPtp.QueueForStamp | aq_ptp.c:710-717 | queues and starts the timeout, which runs exactly while the queue is not empty |
| PtpQueue.AqPtp.Xmit | aq_ptp.c:685-735 | an empty or too large skb is dropped; otherwise it is queued if there is room, and stays queued when mapping refuses it |
| PtpQueue.AqPtp.TxHwtstamp | aq_ptp.c:514-531 | gives the timestamp to the oldest skb and stops the timeout with the last |
| PtpQueue.AqPtp.TxTimeoutCheck | aq_ptp.c:277-298 | empties the queue when the timeout has passed and otherwise leaves it |
| PtpQueue.StampsInOrder | aq_ptp.c:514-531 | without a timeout the timestamps go to the skbs in the order they were queued |
| PtpQueue.StampsReachTheirSkbsIff | aq_ptp.c:710-733 | without a timeout, and with refused skbs retried: the first n timestamps reach the skbs they belong to if and only if the n - 1 skbs queued first were sent when they were queued |
| PtpQueue.StampGoesAstray | aq_ptp.c:710-733 | after one refused and retried skb the second timestamp goes to the first skb |
| PtpQueue.EveryReferenceIsAccountedFor | aq_ptp.c:152-298 | for every run references taken are those dropped with a timestamp, dropped without, and queued |

## Left out

- TxRing.TxRing.Xmit: asks that a packet that is not dropped needs fewer slots than the ring has, which every packet below 112 KB does (TxRing.FitsEveryRing) and so every packet of 64 KB; a larger one would write its own slots twice. What the hardware does with a ring that an overrun has broken is not modelled.
- TxRing.TxRing.Transmit: asks, like TxRing.TxRing.Xmit, that the packet needs fewer slots than the ring has.
- TxRing.TxRing.MapSkb: asks, like TxRing.TxRing.Xmit, that the packet needs fewer slots than the ring has. Addresses of mapped ranges are numbers the DMA layer returns; that two live mappings do not overlap is not needed and not assumed.
- TxPackets.SlotBound: stated for heads below 64 KB, which is where the 16-bit length field holds them.
- RxSafety.HwWriteKeepsInv: what the engine promises about links is an assumption of the driver's, taken from the way its walk uses them.
- VecPoll.AqVec.Poll: what NAPI does with a poll that reports less than its budget without completing is not modelled.
- RxRing.RxRing.Publish: the bus address is computed from the slot's page when it is posted, not kept in the slot, where it shares its bytes with the link; the link of a free slot is never read.
- RxDelivery.EveryRunIsSafe: of the states behind a refill that fails after at least one page, which breaks the invariants (RxDelivery.EveryStateHoldsIff), only what the next receive and the next refill do is stated: RxSafety.StaleReceiveIff, RxSafety.OldWordStaysIff and RxSafety.OldWordsBecomeAddressesIff.
- FilterRules.EveryRunKeepsOccupancy: runs in which the hardware refuses an L3/L4 rule are excluded; AddKeepsOccupancyIff says that these are all the exceptions.
- FilterRules.Admitted: whether a VLAN is active is an answer of the environment, also for a tag beyond the bitmap, which the driver would look up behind its end.
- VlanRuns.EveryRunIsKept: the updates in a run succeed; one that does not leaves the device accepting everything (VlanFilters.EarlyEndAcceptsAll), until the next.
- VlanRuns.EveryRunIsExact: turning VLAN filtering off and on, which clears table and bitmap, is not among the steps.
- PtpQueue.StampsReachTheirSkbsIff: the hardware stamps what was sent once and in order, and the stack tries a refused skb again before another; after a timeout, which empties the queue, stamps still under way are not matched.
- PtpQueue.AqPtp.QueueForStamp: calls are atomic; an interrupt between queueing and starting the timeout is not modelled, and jiffies do not wrap.
- Rss.PackTable: ends with the words; handing them to the device one by one, and its timeout, are not modelled.
- Checksum results, hash and VLAN tag of received packets, protocol of the skb, statistics other than packet errors and page reuse.
- The PTP trailer that is cut off received packets, and the padding of short ones.
- DMA synchronisation, memory barriers and locks: the interleavings are those of whole ring steps.
- How the hardware's error flags (`aq_hw_err_from_flags`) come about: in a poll and in the filters they are answers of the environment, in a transmit the call succeeds.
- Ring teardown, reset and power management, the hwts ring, loopback, and the older `hw_atl_a0.c` variant.
- `hw_atl_b0_mac_adj_param_calc`, whose 64-bit product is not bounded over the adjustment range.
- The registers behind ethertype and L3/L4 filters, and clearing all rules at once.
