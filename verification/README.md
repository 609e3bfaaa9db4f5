# Copa with NG-Scope: a verified model

This project models the stateful cores of the Copa sender and of its NG-Scope receiver in
Dafny and proves what they compute, over every input and every run.

`dafny verify dfyconfig.toml` checks everything.

| files | what they model |
|---|---|
| `MachineInts`, `Reals`, `Powers`, `Wrappers` | fixed-width integers, `std::max` and `std::min` on doubles, powers of two, optional values |
| `Tti` | the wrapping 10240-value subframe counter (TTI) |
| `DciRing`, `CaTraceExtraction`, `Pipeline` | the 1000-slot ring of control messages per cell, its extraction, the merge of all cells into one trace |
| `ReTxBurst`, `BurstStream`, `BurstTheorems`, `BurstAnchors` | the scan that finds a burst of retransmissions and accounts for the bits held in the re-ordering buffer |
| `PacketList`, `Receiver` | the linked list of packets, the pass that charges it to the buffer, and both together over whole runs |
| `MemoryRange`, `WhiskerTree`, `WhiskerDna`, `RuleTree` | Remy's rule table: boxes, bisection, lookup, replacement, use counts, saved form |
| `RttWindow` | the sliding minimum and maximum of RTT samples, and the four windows of a flow |
| `Copa`, `CopaTheorems`, `Sender` | the Copa controller, its properties over whole flows, and the sending loop |
| `CubicRoot` | the integer cube root of CUBIC (the K of section 4.1 of RFC 8312) |

Where the source changes objects in place, the model has classes and methods, each proved
against a specification function of the old state; theorems about runs are lemmas about these
functions. `double` is `real`; unsigned integers are bounded and wrap or truncate where the
source's do; counters that are plain `int` are unbounded. A failed `assert` of the source is
an outcome of the model (`None`, `Failed`, `Aborted`, `Broken`, `ok == false`) and is then
proved unreachable or characterised.

## What the proofs say

* **Bursts.** Traces carry wrapping TTIs; the theorems speak about the unbounded stream they
  are windows of. From any state, on every window of at most half a turn that ends within a
  whole turn after the last retransmission, a scan does what a closed form on the stream says
  (`UpdateRefinesAdvance`); this includes windows that a live burst has left, and subframes
  that are too old to be heard. From an initialised buffer that is the maximal chain of
  retransmissions with gaps of at most 8, with every slot's bits counted once (`FirstUpdate`).
  Scanning in pieces is scanning at once (`UpdateIsIncremental`, `UpdatesCompose`), and over any
  interleaving of scans and drains no bit is counted twice or lost (`BitsAreConserved`). A burst
  keeps its reference delay, and is anchored again exactly when it had been drained and is
  taken up (`UpdateAnchors`).
* **From messages to bursts.** Ring, extraction, merge and scan are composed: for gap-free
  cells, whenever each of them began, the merged trace is a window of one stream
  (`MergedTraceIsWindow`), and the buffer follows that stream (`UpdateBuf`, `CellsToBurst`).
* **Packets against buffer.** A pass charges exactly the shortest covering prefix of open
  packets, or all of them, and gives them the reference delay (`PassCorrects`); over every run
  of the receiver each packet is charged at most once and the bits counted are matched or still
  held (`EveryBitIsMatchedOrHeld`), and a packet has its own delay or the reference delay of
  the pass that marked it (`DelaysAreCorrected`).
* **Rule table.** For any medians, a point is in as many pieces as the product of the halves
  that hold its coordinates (`BisectHolds`). In every tree reached by legal edits the leaves
  partition the root box, so no `assert(false)` is reached (`RunsAreSafe`).
* **RTT windows.** The deque is exactly the suffix extremes of the samples kept, for any
  horizons; the four windows of a flow stay nested, which orders their values
  (`RTTWindow.NewRttSample`) and discharges the controller's run-time assertion. Over any run
  each reports the extreme of exactly the samples that its horizon, in terms of the minimum and
  of the moving average of the run, has not cut off (`RecentMinima`).
* **Copa.** Over whole flows: 1/delta is additive-increase, multiplicative-decrease between
  bounds, the velocity is a power of two bounded by the agreeing periods, the window is at
  least 2, slow start is not resumed, reductions are more than two RTTs apart. Each ACK moves
  the window by the stride towards the target (`WindowRule`, `SlowStartRule`) and reduces it to
  seven tenths exactly when a full loss window shows more than 30% losses
  (`ReductionShrinksWindow`, `ReducesExactly`).
* **Sender.** Over a network that loses, repeats and reorders, the outstanding packets are
  exactly the interval after the largest ACK, sent = outstanding + lost + hits, and a packet
  counted lost is never hit later, not even across timeouts (`LostIsNeverHit`).
* **Cube root.** For every 64-bit input no 32-bit intermediate wraps and the result is within
  1 + r/400 of the integer root r; below 64 it is the real root rounded to the nearest integer,
  up to three hundredths, and so exact for cubes.

## Where the code does not do what one would expect

* TTIs half a turn or more apart compare the wrong way round, at exactly half a turn depending
  on the raw values (`WheelGapOfFarCounters`). As a consequence a burst that is 5121 to 10240
  subframes old makes the tracker deaf to all newer retransmissions
  (`StaleBurstHidesRetransmissions`).
* When the last retransmission of a live burst has left the window, the first retransmission
  in the window is ignored as a supposed new burst, and a second one is charged from the start
  of the window (`ScrolledBurstMissesRetransmission`). The scan then continues the burst
  rightly exactly if no retransmission follows within 8 subframes, or the charge happens to
  agree (`ScrolledBurst`).
* `tti_distance` of one subframe to itself is a whole turn too large (`TtiDistanceOfCounters`).
* README.md:53-55 promises that `delta_conf=constant_delta:1` makes Copa use a constant delta
  of 1. The code replaces the configured delta by `default_delta` at the first ACK, in every
  mode but the automatic and the TCP-cooperative one (`ConstantDeltaIsLost`,
  `DeltaIsDefaultInFlow`). A constant delta is kept exactly as long as no ACK arrives, or if it
  is the default (`ConstantDeltaIsKept`).
* Bisection partitions a box exactly when the medians lie within its bounds
  (`BisectPartitions`); nothing checks that they do. A stray median hides a rule from `replace`
  (`StrayMedianHidesRule`), for instance when a rule is divided before its box has been sampled
  and the medians are zero (`UntrackedRuleIsHidden`).
* `Memory::operator==` compares axis 1 with itself. Bisection is not affected, but the
  assertion of `replace` lets through a rule for a box that differs on that axis
  in any tree (`ReplaceTakesRule`, `AxisOneIsNotChecked`).
* The window for maxima starts from the smallest positive `double`, so before any sample at
  least that large it reports this value instead of a sample (`ReportIsExtreme`).

## Model

| member | source | states |
|---|---|---|
| Tti.UnwrapTtiArray | ngscope_util.cc:185-196 | the array becomes its unwrapped form, which the lemmas below tie to the true counters |
| Tti.UnwrapPreservesDifferences | ngscope_util.cc:185-196 | for counters spanning at most 5119, unwrapping their residues restores every difference and so every order |
| Tti.MaxTtiInArray | ngscope_util.cc:197-214 | the wrapped maximum of the unwrapped array; 0 for an empty array, the element itself for one |
| Tti.MaxTtiIsLatest | ngscope_util.cc:197-214 | for counters spanning at most 5119 that value is the residue of the latest counter |
| Tti.UnwrappedGapIsWheelGap | ngscope_util.cc:225-245 | comparing an unwrapped pair is comparing along the shorter way around the wheel, the raw values deciding at half a turn |
| Tti.TtiLarger | ngscope_util.cc:225-229 | true exactly when the first TTI lies after the second around the wheel |
| Tti.TtiLargerOrEqual | ngscope_util.cc:230-234 | true exactly when the first TTI does not lie before the second around the wheel |
| Tti.TtiSmaller | ngscope_util.cc:235-239 | true exactly when the first TTI lies before the second around the wheel |
| Tti.TtiSmallerOrEqual | ngscope_util.cc:241-245 | true exactly when the first TTI does not lie after the second around the wheel |
| Tti.WheelGapOfNearCounters | ngscope_util.cc:225-245 | counters less than half the TTI space apart compare as the true counters do |
| Tti.WheelGapOfFarCounters | ngscope_util.cc:225-245 | counters half a turn to a turn apart compare wrongly exactly when more than half a turn apart or wrapped in between |
| Tti.TtiDistanceOfCounters | ngscope_util.cc:216-222 | the distance is the number of counters in the interval, for all intervals up to a turn except a single counter, measured as 10241 |
| ReTxBurst.FindElement | ngscope_util.cc:160-168 | the first index of the element, or -1 exactly when it is absent |
| ReTxBurst.ComputeIsNewBurst | ngscope_reTx.cc:153-172 | true exactly when the index is in the array and none of the 8 slots before it is a retransmission |
| ReTxBurst.SumTbsNewBurst | ngscope_reTx.cc:186-203 | the 32-bit sum over the up to 8 slots before the index |
| ReTxBurst.SumTbsInBurst | ngscope_reTx.cc:206-219 | the 32-bit sum strictly between the two indices |
| ReTxBurst.ReorderingBuffer.constructor | ngscope_reTx.cc:24-40 | a buffer that has seen nothing |
| ReTxBurst.ReorderingBuffer.ResetBuf | ngscope_reTx.cc:42-64 | inactive and empty, with marks, times and reference delay kept |
| ReTxBurst.ReorderingBuffer.ActivateBuf | ngscope_reTx.cc:66-77 | active and empty, with the start packet taken as found |
| ReTxBurst.ReorderingBuffer.SetStartTti | ngscope_reTx.cc:222-243 | a new burst at the slot, with the bits of the 8 slots before it and one retransmission |
| ReTxBurst.ReorderingBuffer.SetTtiInBurst | ngscope_reTx.cc:244-260 | the burst extended to the slot, with the bits since its last retransmission |
| ReTxBurst.ReorderingBuffer.Update | ngscope_reTx.cc:262-300 | the whole scan leaves buffer and result as the slot-by-slot specification, including skipping, resuming and leaving early |
| BurstStream.UpdateRefinesAdvance | ngscope_reTx.cc:262-300 | from any state, on every window of at most half a turn that ends within a turn after the last retransmission, the scan over wrapping TTIs is the closed form on the unbounded stream |
| BurstTheorems.ChainEndIsMaximal | ngscope_reTx.cc:262-300 | the slot where the closed form stops ends a maximal chain of retransmissions with gaps of at most 8 |
| BurstTheorems.MaximalChainIsUnique | ngscope_reTx.cc:262-300 | and it is the only slot that does |
| BurstTheorems.WeightCountsEachSlotOnce | ngscope_reTx.cc:185-260 | the charge of a stretch is the bits of its ordinary slots plus 46080 for each of its retransmissions |
| BurstTheorems.FirstUpdate | ngscope_reTx.cc:262-300 | from an initialised buffer: nothing without a retransmission, else the maximal chain from the first one and the bits of its slots and the 8 before, each once |
| BurstTheorems.UpdatesCompose | ngscope_reTx.cc:262-300 | two scans of overlapping windows leave the tracker as one scan up to the later end would |
| BurstTheorems.UpdateIsIncremental | ngscope_reTx.cc:262-300 | scanning a trace and then its extension, or the same trace again, is scanning the extension once |
| BurstTheorems.SkippedExactly | ngscope_reTx.cc:265-269 | a slot is skipped exactly when it lies, around the wheel, not after the last retransmission |
| BurstTheorems.StaleBurstHidesRetransmissions | ngscope_reTx.cc:265-269 | from half a turn to a turn after the last retransmission a scan changes nothing, whatever it contains |
| BurstTheorems.ScrolledBurst | ngscope_reTx.cc:270-296 | for a live burst that has left the window: the scan continues it as its chain does if and only if no retransmission follows within reach, or a second one is met and the charge up to it happens to be right |
| BurstTheorems.ScrolledBurstMissesRetransmission | ngscope_reTx.cc:273-277 | the retransmission right after such a burst, first in the window, changes nothing although it continues the burst |
| BurstTheorems.UpdateCreditsNewSlots | ngscope_reTx.cc:262-300 | one update adds exactly the bits of its credited slots, all of them beyond those counted before |
| BurstTheorems.BitsAreConserved | ngscope_reTx.cc:222-300 | over any run of updates and drains, bits held and counted equal bits drained and held, and every slot is charged at most once |
| BurstTheorems.CeilingIsWeight | ngscope_reTx.cc:233-253 | where no retransmission's block exceeds its charge, the bound on the bits of a stretch is its weight |
| BurstAnchors.UpdateAnchors | ngscope_reTx.cc:66-77 | a scan keeps the start of the packets and the reference delay; the burst counts as anchored if it did, or if it had been drained and the scan takes it up again |
| PacketList.PrunedIsLongestSuffix | ngscope_packet_list.cc:126-143 | pruning leaves the longest suffix that is a single packet or starts within 1,000,000 us of now |
| PacketList.ReachableLists | ngscope_packet_list.cc:177-209 | over any arrivals the list is sorted, spans at most the window unless it is one packet, and is the matching suffix of the accepted packets |
| PacketList.List.FindLastNode | ngscope_packet_list.cc:66-76 | the last node of the chain |
| PacketList.List.DeleteFirst | ngscope_packet_list.cc:78-100 | the chain without its first packet, links consistent in both directions |
| PacketList.List.CheckTimeDelay | ngscope_packet_list.cc:126-143 | for any current time, the list is pruned by the unsigned difference of the times, acyclic and consistently linked; the loop ends |
| PacketList.PrunedInOrder | ngscope_packet_list.cc:126-143 | with no packet after the current time, that is pruning by the true difference |
| PacketList.List.InsertNodeCheckTime | ngscope_packet_list.cc:177-209 | a late packet and a null node change nothing; any other is appended and the list pruned; it stays sorted and linked |
| PacketList.List.RevertDelay | ngscope_packet_list.cc:211-245 | the loop over the nodes leaves list and buffer as the pass specification, with the chain untouched |
| PacketList.PassFromIsRevertPass | ngscope_packet_list.cc:211-245 | the pass in place is the recursive pass over the packets |
| PacketList.PassThatCovers | ngscope_packet_list.cc:211-245 | if a prefix covers the buffer, exactly the eligible packets of the shortest such prefix are rewritten and the buffer is reset |
| PacketList.PassThatFallsShort | ngscope_packet_list.cc:211-245 | if none does, all eligible packets are rewritten and the buffer shrinks by exactly their bits |
| PacketList.CoverOrShort | ngscope_packet_list.cc:211-245 | a shortest covering prefix exists exactly when the eligible bits reach the buffer size |
| PacketList.PassChargesOnce | ngscope_packet_list.cc:211-245 | the bits taken out are the bits newly marked; a marked packet is not charged again and nothing else of it changes |
| PacketList.PassCorrects | ngscope_packet_list.cc:216-235 | up to where the buffer is empty, exactly the unmarked packets not older than the start packet are marked, each gets the reference delay, and the start packet its flag; all others are untouched |
| PacketList.PassTakesBytes | ngscope_packet_list.cc:219-240 | the buffer loses eight bits per byte newly marked, or is emptied |
| PacketList.PassKeepsReference | ngscope_packet_list.cc:236-241 | the pass keeps marks, times and reference delay; an emptied buffer is idle and no longer anchored, any other as before |
| Receiver.ReceiverRun | receiver.cc:312-333 | over every run of traces, arrivals and passes the buffer follows the tracker, and bits drained never exceed bits of distinct arrived packets |
| Receiver.EveryBitIsMatchedOrHeld | receiver.cc:312-333 | from an empty receiver, bits counted for slots are at most bits arrived plus bits still held |
| Receiver.AnchoredIsLive | receiver.cc:319-333 | over every run only an active buffer is anchored |
| Receiver.EmptyingGivesUpTheAnchor | receiver.cc:331-333 | after a pass that empties the buffer the next burst has to find its start packet anew |
| Receiver.DelaysAreCorrected | ngscope_packet_list.cc:216-235 | over every run an unmarked packet keeps its own delay, and a marked one has the reference delay in force when a pass marked it |
| DciRing.DciCell.constructor | ngscope_dci.cc:26-39 | an empty, zeroed ring |
| DciRing.DciCell.Insert | ngscope_dci.cc:130-173 | the ring represents the log with the message appended, and the most recent flagged messages are up to date |
| DciRing.DciCell.FindTail | ngscope_dci.cc:82-88 | the TTI of the oldest message kept, across the wrap of the ring |
| DciRing.DciCell.Extract | ngscope_dci.cc:275-307 | the trace holds the last min(n, 1000) of all n inserted messages, oldest first, and its retransmission lists are their flagged subsequences |
| DciRing.DciTrace.Put | ngscope_dci.cc:241-273 | one more message in all arrays of both directions |
| DciRing.Flagged | ngscope_dci.cc:256-270 | the flagged entries in order |
| DciRing.FlaggedAt | ngscope_dci.cc:256-270 | a flagged message stands in the list at the number of flagged messages before it, and the list has no others |
| DciRing.DciTrace.HoldsEach | ngscope_dci.cc:241-273 | message by message: time, TTI, and both directions' block size, flag and redundancy version from the fields of that direction, and its place in the list of that direction if flagged |
| DciRing.LastIsMostRecent | ngscope_dci.cc:164-173 | the recent retransmission of a direction is the last message whose flag of that direction is 1, and zeros before any |
| DciRing.KeptAfterInsert | ngscope_dci.cc:153-163 | below capacity nothing is lost, at capacity exactly the oldest message goes |
| CaTraceExtraction.ExtractCaTrace | ngscope_reTx.cc:92-129 | slot k has TTI tail + k, the sums modulo 2^32 and 2^64 of all messages of all cells that fall on it, and the OR of their flags |
| CaTraceExtraction.MergeCell | ngscope_reTx.cc:111-121 | one cell's messages from tail to header are added to their slots and to no other |
| Pipeline.ExtractionIsView | ngscope_dci.cc:275-307 | what the ring delivers is the view of the last messages of the log |
| Pipeline.IdxOfCounter | ngscope_reTx.cc:80-82 | tti_to_idx undoes wrap_tti(tail + k), across the wrap |
| Pipeline.FindInView | ngscope_util.cc:160-168 | in a gap-free view of at most a turn, a TTI is found at its own message |
| Pipeline.MergedTraceIsWindow | ngscope_reTx.cc:92-129 | for gap-free cells covering tail to header, each from its own first subframe on, the merged trace is the window of one stream, slot k carrying what all cells report for its subframe |
| Pipeline.CoveredCellsAreMergeable | ngscope_reTx.cc:107-121 | gap-free cells covering tail to header meet what the merge needs: every message falls inside the arrays |
| Pipeline.UpdateBuf | ngscope_reTx.cc:302-321 | merging the cells and scanning the trace moves the buffer as the closed form on the stream of the cells' reports says |
| Pipeline.CellsToBurst | ngscope_reTx.cc:302-321 | the first scan: nothing if no cell reports a retransmission, else the buffer holds the maximal chain from the first subframe for which any cell does |
| Pipeline.MergingConservesTbs | ngscope_reTx.cc:111-121 | merging conserves the total of the transport blocks |
| MemoryRange.Center | memoryrange.cc:43-50 | the midpoint lies in the box exactly when the box is not empty |
| MemoryRange.RangeMedian | memoryrange.cc:43-50 | the loop over the axes computes the midpoint |
| MemoryRange.Bisect | memoryrange.cc:8-41 | the nested loops, assertions included, produce the specified pieces |
| MemoryRange.BisectAxis | memoryrange.cc:16-32 | one box on one axis: two halves, the box itself, or a failed assertion |
| MemoryRange.BisectHolds | memoryrange.cc:8-41 | a non-empty box never fails an assertion and gives 16 pieces; a point is held by the product over the axes of the halves holding its coordinate |
| MemoryRange.BisectCoversInside | memoryrange.cc:8-55 | whatever the medians, each point of the box is in exactly one piece |
| MemoryRange.BisectPartitions | memoryrange.cc:8-55 | the pieces partition the box if and only if every median is within its bounds |
| MemoryRange.RangeRoundTrip | memoryrange.cc:79-94 | a saved box reads back with the same bounds and a zero count |
| MemoryRange.RangeSavesAs | memoryrange.cc:79-87 | saving a box writes each of its eight bounds under its own name |
| MemoryRange.AbsentFieldsAreWildcards | memory-default.cc:88-96 | an axis absent from both saved bounds constrains nothing over the whole domain |
| WhiskerTree.RulesPartition | whiskertree.cc:17-29 | the boxes of the rules of a well-formed tree partition the tree's box |
| WhiskerTree.LookupFinds | whiskertree.cc:62-82 | lookup gives null exactly outside the box, and inside it a rule whose box holds the point, without failing an assertion |
| WhiskerTree.RuleIsUnique | whiskertree.cc:62-82 | at most one rule's box holds a point, and lookup finds that one |
| WhiskerTree.ReplaceRedirects | whiskertree.cc:137-180 | at a rule's non-empty box both forms of replace succeed, keep the tree well formed over its box, redirect lookups inside that box and change no other |
| WhiskerTree.DividedIsWellFormed | whiskertree.cc:17-29 | the tree made of a bisected rule is well formed exactly when the medians are in the rule's box |
| WhiskerTree.DividedActsTheSame | whisker.cc:10-19 | inside the box every piece carries on the actions of the divided rule |
| WhiskerTree.StepKeepsWellFormed | whiskertree.cc:137-180 | a legal edit keeps the partition, changes lookups only inside the edited box, and there gives the edited rule's actions |
| WhiskerTree.RunsAreSafe | whiskertree.cc:62-180 | in every tree reached by legal edits, lookups find exactly one rule inside the box and none outside, and no assertion has failed |
| WhiskerTree.Initial | whiskertree.cc:10-15 | the first tree is well formed and covers exactly the memory from 0 up to 163840 on every axis, with one more packet per ACK 3 ms apart |
| WhiskerTree.ReplaceTakesRule | whiskertree.cc:137-157 | in any tree, replace accepts a rule exactly when its box agrees on axes 0, 2 and 3 with that of the rule at its center, and the tree stays well formed exactly when they agree on axis 1 too |
| WhiskerTree.AxisOneIsNotChecked | memory-default.hh:102 | an accepted rule that then answers for a point outside its own box |
| WhiskerTree.StrayMedianHidesRule | whiskertree.cc:137-141 | after a split at a median far below the box, a rule of the tree is missed by replace |
| WhiskerTree.UntrackedRuleIsHidden | memoryrange.cc:17 | zero medians, of estimators without samples, do that to a box such as [150, 200) on axis 0 |
| WhiskerTree.UseCounts | whiskertree.cc:42-60 | a use counts at exactly the one rule whose box holds the point and changes nothing else |
| WhiskerTree.CountsAreHits | whiskertree.cc:42-60 | after any uses every rule's count has grown by the number of points in its box, modulo 2^32 |
| WhiskerDna.RoundTrip | whiskertree.cc:234-268 | saving and rereading gives the same shape, boxes and actions; rereading fails exactly if some node has no children |
| WhiskerDna.RuleReadsAs | whisker.cc:120-127 | what any saved rule reads as, field by field: absent actions are 0, absent bounds 0 or 163840, generation and use count 0 |
| WhiskerDna.AbsentBoxIsDomain | whisker.cc:120-127 | a rule saved without a box holds from 0 to 163840 on every axis |
| WhiskerDna.SavesAs | whiskertree.cc:234-252 | a leaf is written as its rule, field by field, and any other node as its children in order |
| WhiskerDna.TreeReadsAs | whiskertree.cc:254-268 | a rule without children reads as a leaf, readable children without a rule as a node with these children in order, and anything else fails an assertion |
| WhiskerDna.ErasedLookup | whisker.cc:108-127 | the reread tree answers every lookup with the same box and actions |
| WhiskerDna.SavedTreeWorks | whiskertree.cc:234-268 | a well-formed tree can always be reread, stays well formed and looks up the same rules |
| RuleTree.RuleTree.constructor | whiskertree.cc:17-29 | a leaf with the rule and its box |
| RuleTree.RuleTree.Find | whiskertree.cc:62-82 | the descent over the linked nodes is the lookup in the tree's value |
| RuleTree.RuleTree.Replace | whiskertree.cc:137-157 | the new rule in place, with result and tree as specified |
| RuleTree.RuleTree.ReplaceBy | whiskertree.cc:159-180 | a copy of the other tree in place of the leaf, with result and tree as specified |
| RuleTree.RuleTree.UseWhisker | whiskertree.cc:42-60 | the rule found, and its count increased in place |
| RuleTree.Divide | whiskertree.cc:17-29 | a fresh tree with a leaf for each piece, or none if bisect fails an assertion |
| RuleTree.BisectWhisker | whisker.cc:10-19 | the rule once for each piece of its box |
| RuleTree.Perform | whiskertree.cc:137-180 | an edit of the tree in place is the edit of its value that the theorems on runs are about |
| RuleTree.Save | whiskertree.cc:234-252 | the saved form of the tree's value |
| RuleTree.Load | whiskertree.cc:254-268 | a fresh tree with the saved value, or none if an assertion fails |
| RttWindow.FrontIsExtreme | rtt-window.cc:36-41 | the front of the suffix extremes is the extreme of all samples, the back the newest sample |
| RttWindow.SuffixExtremesAre | rtt-window.cc:44-52 | the suffix extremes are exactly the samples that no later one beats |
| RttWindow.PushKeepsExtremes | rtt-window.cc:44-54 | displacing worse samples at the back yields the suffix extremes of the longer history |
| RttWindow.DropKeepsExtremes | rtt-window.cc:27-34 | dropping old samples at the front yields the suffix extremes of the samples kept |
| RttWindow.KeptAreRecent | rtt-window.cc:27-34 | without negative horizons, the samples kept are exactly those at or after the greatest cutoff so far |
| RttWindow.ReportIsExtreme | rtt-window.cc:8-58 | the window reports the extreme of the samples it keeps, once one was as extreme as the initial value, and that value before |
| RttWindow.ReportsExtremeOfRecent | rtt-window.cc:23-58 | after any samples in order of time and any non-negative horizons, the report is the extreme of exactly the samples at or after the latest now - max_time |
| RttWindow.ExtremeWindow.NewSample | rtt-window.cc:44-58 | the deque is again the suffix extremes of the samples kept, with the new sample and cutoff in the books |
| RttWindow.ExtremeWindow.ClearOldHist | rtt-window.cc:23-42 | old samples are dropped and the extreme recomputed only when needed, so that it is still the front |
| RttWindow.ExtremeWindow.Clear | rtt-window.cc:16-21 | as newly made |
| RttWindow.StillNested | rtt-window.cc:86-95 | with the horizons of new_rtt_sample each of the four windows keeps a part of what the one before keeps |
| RttWindow.RTTWindow.NewRttSample | rtt-window.cc:78-96 | after every sample min <= copa min <= unjittered <= latest <= copa max |
| RttWindow.RTTWindow.WindowsInSequence | rtt-window.cc:78-113 | the same order holds in every state with a sample |
| RttWindow.SmoothedIsMovingAverage | rtt-window.cc:79-82 | the smoothed RTT is the first sample, and each later one moves it a sixteenth of the way towards itself |
| RttWindow.SmoothedIsBetween | rtt-window.cc:79-82 | it lies within any positive bounds of the samples |
| RttWindow.MinRttIsRecentMinimum | rtt-window.cc:86-92 | the minimum RTT after a run is that of exactly the samples at or after the latest time - max(10000, 20 * minimum before) |
| RttWindow.RTTWindow.WindowsReportRecent | rtt-window.cc:78-96 | in every state the smoothed RTT and the four reported values are these functions of the samples since the last clear |
| RttWindow.RecentMinima | rtt-window.cc:86-95 | so the unjittered RTT is the minimum of exactly the samples at or after the latest time - min(max(10000, 20 * minimum before), srtt / 2), and the is_copa windows have 4 * srtt there |
| Copa.ReduceOnLoss.Update | estimators.cc:115-130 | the loss window after a packet; true exactly when it closes with more than 30% lost |
| Copa.MarkovianCC.Init | markoviancc.cc:19-83 | a window of 10 in slow start, speed 1 upwards, nothing acknowledged, lost or measured; delta is 1 unless a constant one is configured |
| Copa.MarkovianCC.UpdateDelta | markoviancc.cc:85-129 | delta, mode and times of the last updates as specified, nothing else |
| Copa.MarkovianCC.UpdateIntersendTime | markoviancc.cc:138-209 | window, velocity and pacing as specified; fails exactly when its assertion would |
| Copa.MarkovianCC.AcknowledgeUpTo | markoviancc.cc:257-280 | an ACK of an outstanding packet removes exactly the packets up to it, counts those before it lost, and feeds each to the loss window |
| Copa.MarkovianCC.OnAck | markoviancc.cc:222-294 | the whole state after an ACK, in terms of the losses it reveals and of what the four RTT windows report after its sample; the RTT assertion holds |
| Copa.MarkovianCC.OnPktSent | markoviancc.cc:296-322 | the packet is outstanding, the count and the pacing updated |
| CopaTheorems.DeltaIsAimd | markoviancc.cc:108-128 | when delta follows losses, 1/delta halves at a loss more than an RTT after the last one, not below 1/default, else grows by one if the last growth is more than an RTT ago, else stays, with the times of both |
| CopaTheorems.AutoModeFollowsWindows | markoviancc.cc:86-129 | in automatic mode an ACK sets delta to the default exactly when the recent minimum is within a tenth of the RTT range of the minimum, unless the last update for a loss is less than an RTT old and the ACK reports no newer loss; otherwise delta takes the additive steps and the halvings for the losses it reports |
| CopaTheorems.UpdateKeepsBound | markoviancc.cc:100-128 | 1/delta stays between 1/default and 1/default plus the additive steps |
| CopaTheorems.ConfiguredDeltaIsReplaced | markoviancc.cc:100-107 | outside the modes that follow losses an ACK makes delta the default for good |
| CopaTheorems.ConstantDeltaIsLost | markoviancc.cc:100-107 | the first ACK replaces a configured constant delta by the default |
| CopaTheorems.ConstantDeltaIsKept | markoviancc.cc:100-107 | over any flow, a configured constant delta is in force if and only if it is the default or no ACK has arrived |
| CopaTheorems.DeltaIsDefaultInFlow | markoviancc.cc:85-107 | in such a mode delta is the default at every point of a flow from the first ACK on |
| CopaTheorems.AckKeepsDriven | markoviancc.cc:173-203 | the velocity is a power of two at most doubled per agreeing period, the last direction is +1 or -1, and the direction matches the packets of the period in size and parity |
| CopaTheorems.TargetBalancesDelay | markoviancc.cc:150-157 | at the target rate a flow keeps 1/delta packets queued; without queuing delay there is no target |
| CopaTheorems.SteersAfterProbing | markoviancc.cc:145-147 | the first 19 ACKs leave window, velocity and pacing alone, all later ones steer |
| CopaTheorems.ReachedExactly | markoviancc.cc:153-157 | a window has reached its target exactly if window * queuing delay * delta is at least the RTT and there is a queue |
| CopaTheorems.SlowStartRule | markoviancc.cc:160-172 | in slow start one more packet per ACK, until the window has reached the target |
| CopaTheorems.WindowRule | markoviancc.cc:195-207 | after that the stride is added below the target and taken off at it, down to 2, and the direction counts these ACKs within the period |
| CopaTheorems.StrideIs | markoviancc.cc:195-202 | stride times delta times window is the speed |
| CopaTheorems.VelocityRule | markoviancc.cc:175-193 | at a period end the speed doubles if both directions agree, and else is one with the direction flipped; a speed above delta times the window is halved, down to one |
| CopaTheorems.PacingRule | markoviancc.cc:207-209 | the window takes half an unjittered RTT to send |
| CopaTheorems.ReductionShrinksWindow | markoviancc.cc:285-291 | an ACK that triggers a reduction leaves seven tenths of the steered window, at least 2, and its pacing; any other leaves what steering leaves |
| CopaTheorems.ReducesExactly | estimators.cc:115-130 | a reduction is triggered exactly when more than twice the latest RTT has passed since the loss window closed, the losses and the ACK make it 21 packets, and more than 30% up to there are lost |
| CopaTheorems.SteersTowardsTarget | markoviancc.cc:195-207 | outside slow start the window grows exactly when it is below the target, and otherwise shrinks or is at its floor of 2 |
| CopaTheorems.ReductionClosesWindow | estimators.cc:115-130 | an ACK that reduces the window comes more than twice the latest RTT after the last closed loss window, however many losses it reports |
| CopaTheorems.FlowKeeps | markoviancc.cc:85-294 | from init on, over any ACKs and sends: bounds of delta, velocity and direction, window at least 2 |
| CopaTheorems.SlowStartIsNotResumed | markoviancc.cc:160-172 | slow start, once left, is not resumed within a flow |
| CopaTheorems.ReductionsAreApart | markoviancc.cc:285-291 | any two loss-triggered reductions of a flow are more than twice the latest RTT apart |
| Sender.AckSettles | markoviancc.cc:257-280 | after any ACK, the packets before the largest ACK are each hit or lost and those after it are all outstanding |
| Sender.SentIsAccountedFor | ctcp.hh:243-403 | packets sent since init are outstanding, lost or hit, each exactly one of these |
| Sender.RunIsFair | ctcp.hh:243-403 | over any run of sends, possible ACKs and timeouts these facts hold, and hits and losses never overlap |
| Sender.LostIsNeverHit | markoviancc.cc:257-280 | a packet once counted lost is never hit later, and one hit never counted lost, even across timeouts |
| Sender.Sender.CheckTimeout | ctcp.hh:244-253 | after 2000 ms without an ACK the flow starts anew after the last packet sent, in slow start with a window of 10 and no samples, and the waiting time with it; otherwise nothing changes |
| Sender.Sender.SendPackets | ctcp.hh:267-300 | packets go out while window, pacing and flow size allow; the last one sent was within five windows of the largest ACK, and each used up one interval of the time that had passed |
| Sender.Sender.StopCompensating | ctcp.hh:302-326 | less than one interval of delay is carried into the next round, and none with a full window |
| Sender.RoundIsPaced | ctcp.hh:267-326 | so a round sends at most one packet more than the intervals since the round before |
| Sender.Sender.Receive | ctcp.hh:353-402 | for a late, repeated or reordered ACK: largest ACK, outstanding packets and fates as specified, the time of the last ACK, and one RTT sample, the time since sending less the adjustment in microseconds |
| Sender.Sender.Conservation | ctcp.hh:243-403 | in every state, packets sent equal outstanding plus lost plus hits, and hits are at most the ACKs counted |
| Sender.Sender.InFlightIsBounded | ctcp.hh:267-269 | after a send fewer than five windows plus two packets are outstanding |
| CubicRoot.Fls | cubiccc.cc:229-257 | with masks and shifts on 32-bit words, the number of bits of every word |
| CubicRoot.BitLengthIsUnique | cubiccc.cc:224-257 | the number of bits of a word is unique |
| CubicRoot.Mask16 | cubiccc.cc:236-239 | the mask test asks for 16 free top bits, and the shift it guards loses none |
| CubicRoot.Mask8 | cubiccc.cc:240-243 | the same for 8 bits |
| CubicRoot.Mask4 | cubiccc.cc:244-247 | the same for 4 bits |
| CubicRoot.Mask2 | cubiccc.cc:248-251 | the same for 2 bits |
| CubicRoot.Mask1 | cubiccc.cc:252-255 | the same for the top bit |
| CubicRoot.Fls64 | cubiccc.cc:215-222 | the number of bits of every 64-bit word |
| CubicRoot.GuessOutcome | cubiccc.cc:295-298 | from 7 bits on the table index lies in 8..63, and the scaled entry is between 0.1% below and 5.2% above the root |
| CubicRoot.StepFromBelow | cubiccc.cc:300-314 | whatever the guess, the Newton step does not fall below three times the integer root |
| CubicRoot.StepFits | cubiccc.cc:312-313 | no 32-bit intermediate result of the step wraps |
| CubicRoot.InitialGuess | cubiccc.cc:296-298 | shift, lookup and scaling give the guess without wrapping |
| CubicRoot.Refine | cubiccc.cc:312-314 | the 32-bit step gives the exact quotients, divisor x (x - 1) not zero |
| CubicRoot.SmallIsNearest | cubiccc.cc:269-293 | for every input below 64 the rounded table entry lies between the real root less 0.47 and the real root plus 0.53 |
| CubicRoot.NearestOfCube | cubiccc.cc:289-293 | an answer that near to the root of a cube is that root |
| CubicRoot.CubicRoot | cubiccc.cc:264-315 | for every 64-bit input the result is within 1 + r/400 of the integer cube root r; below 64 it is the nearest integer in the above sense, and exact for cubes |

## Left out

- Sockets, NAT traversal, receiver main programs, logging, locks, clocks and scripts: the clock and the network are inputs of the steps.
- Parsing of DCI datagrams: there is no encoder to relate it to.
- `ca_update_header`: the trace's tail and header are inputs instead.
- Tti.MaxTtiInArray: does not model the `qsort` before the maximum is taken, which does not change it, nor the order in which the array is left.
- ReTxBurst.ReorderingBuffer.Update: the messages it prints are not modelled; `buf_size` is an unbounded integer.
- BurstStream.UpdateRefinesAdvance: supposes that the transport blocks of 8 consecutive slots fit 32 bits, and windows of at most half a turn that end within a turn after the last retransmission; whether a slot at any distance is skipped is SkippedExactly.
- Pipeline.UpdateBuf: cells without gaps in their logs that all have the tail and the header; the printed trace is left out.
- CaTraceExtraction.ExtractCaTrace: requires every cell to have the tail; the source reads before the array otherwise. The uplink copy is not modelled.
- CaTraceExtraction.MergeCell: the three arrays of a merged slot are separate arrays, as in the source, and assumed distinct.
- DciRing.DciCell.Insert: without the final update of the common header and the message about gaps.
- DciRing.DciCell.Extract: the arrays embedded in the target structure are fields of fixed-length `seq` type, updated element by element.
- PacketList.List.DeleteFirst: requires a first packet, as its only caller guarantees; freeing is dropping.
- Receiver.ReceiverRun: the search for the first packet of a burst is an arbitrary event, since its result is a heuristic.
- MemoryRange.Bisect: the medians, estimated by accumulators of the tracked samples, are an input.
- WhiskerTree.UseCounts: tracking of samples is left out.
- RuleTree.RuleTree.UseWhisker: looks up and counts in one descent instead of returning a pointer, and reports a missing rule instead of leaving the program.
- Most-used rule, generations, counts of queries, optimiser settings, `str` and hash functions of the rule table: easy members.
- Memory::packets_received and the fields of a memory that no rule depends on: not part of box membership.
- RttWindow.RTTWindow.WindowsReportRecent: supposes positive RTT samples, without which horizons can be negative; the is_copa maximum is stated once the first sample reaches the smallest positive `double`.
- RttWindow.RTTWindow.NewRttSample: the limits of `double` are constants of the window, and samples do not exceed the upper one.
- Copa.MarkovianCC.Init: the side statistics, the log files and fields that nothing reads are left out.
- Copa.MarkovianCC.OnAck: requires the clock to be past the sending time, which the source asserts, and to go forward; rounding and the range of `int` are not modelled.
- Copa.MarkovianCC.OnPktSent: without the estimate of the unacknowledged RTT, which nothing reads.
- Sender.Sender.Receive: trains of one packet, the default; link-rate estimates and totals are left out.
- CubicRoot.Fls: the word is unsigned, and each of the five steps is a method; the source shifts the same bits in a signed `int`.
- CubicRoot.CubicRoot: the rest of the CUBIC file refers to members that are not part of this repository.
- Other estimators, configuration strings, PCC, UDT, traffic generation, kernel TCP, other memory variants: side statistics, duplicates or wrappers.
