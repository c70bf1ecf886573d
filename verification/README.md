# WaveScript runtime and application code: a Dafny model

The repository holds the C and C++ that WaveScript programs run on. This project models six parts
of it, in the form the source has (arrays changed in place, objects with fields, loops), and proves
what those parts are for.

| files | part of the system |
|---|---|
| `TransformSpec`, `FixFft`, `FixFftBounds`, `SineTable`, `CheckedFft`, `FftSizes`, `InverseSizes`, `ExactDft`, `FftAccuracy`, `TableAccuracy` | the 16-bit in-place FFT |
| `JoinSpec`, `JoinProofs`, `JoinPlans`, `Join` | the incremental sequence join and its query plans |
| `ZctHeap`, `ZctState`, `Zct` | deferred reference counting with a zero-count table |
| `Ring`, `Filter`, `Engine`, `ListFifo`, `FifoProtocol` | the queues between operators and the boxes on top of them |
| `Fir`, `Rewindow` | stream boxes that must not depend on how a stream is cut |
| `Demosaic`, `Repack` | the camera's pixel loops |
| `Arithmetic`, `Sequences` | facts about numbers and sequences shared by the above |

Main results:

* **FFT.** `FixFft.Transform` runs the reversed-carry counter, the conditional swaps and the triple
  loop of butterflies on two arrays, and leaves exactly the result of the textbook even/odd
  recursion with the same rounded products, the same halvings and the same table entries, forward
  and inverse. The recursion over exact complex numbers is the Fourier sum divided by two per halving
  pass (`ExactDft.TransformIsFourier`), and forward then inverse, shifted left by the returned scale,
  restores the input (`ExactDft.RoundTripShifted`). Fixed scaling prevents every overflow, for all inputs of a size, if and
  only if the size is at most four (`FftSizes.ScalingSuffices`); the variable scaling of the inverse
  transform keeps every result right if and only if the size is at most four, for inputs without an
  imaginary part of -32768, and if and only if it is one, for all inputs
  (`InverseSizes.VariableScalingSuffices`). For samples in a disc no value of the forward transform is
  cut anywhere, at any size (`CheckedFft.ForwardCutsNothing`). In the disc the result of the array code,
  with the shipped table, is within 5.25 units of the last place per pass of the Fourier average
  (`TableAccuracy.ForwardShipped`); the table is proved to be within two and a half units of the true
  roots of unity (`TableAccuracy.ShippedTableAccurate`).
* **Join.** For every tree, every time-ordered stream and every batch, the root emits exactly once
  each the tuples that the query defines without any tree (`JoinPlans.RunAnswers`), and so do the
  boxes fresh from their constructors (`Join.RunTree`); hence all plans for
  a query agree (`JoinPlans.PlansAgree`), in particular the five of `large.cc`, whose one query is
  spelled out in `JoinPlans.QueryMeans`.
* **Zero-count table.** One invariant over every run; a sweep frees each block at most once, never
  looks at a freed one, and keeps exactly what a root reaches and what is in a set of blocks each held
  by one of the set (`ZctState.SurvivesExactly`), on every heap. Nothing else than what a root reaches
  is kept if and only if there is no cycle among the rest (`ZctState.SurvivorsAreReachable`).
* **Queues.** The lock-free ring refines the unbounded queue under every interleaving; the filter and
  the engine between two such rings, with all three threads running, print what passes of what was
  offered, in order (`Engine.Delivery`), and each of them gets on when it is left alone
  (`Engine.JudgeTurn`, `Engine.SendTurn`); the objects do what the engine on values does
  (`Filter.RunEngine`), which prints everything that passes after enough polls (`Filter.AllPrinted`);
  the linked queue with its mutex and condition variable
  delivers in lock order, leaks nothing, frees nothing twice and never leaves the reader asleep beside
  work; the two-stage queue keeps batches whole.
* **Stream boxes.** The FIR network and the rewindow box compute functions of the whole stream; the
  network's is fixed by its answer to one impulse and its linearity (`Fir.DecimatedImpulse`,
  `Fir.DecimatedLinear`).
* **Pixels.** Each demosaiced channel is the truncated average of the nearest samples of its colour;
  packing in place over the buffer being read undoes unpacking.

Where the code differs from its own documentation, the code is modelled. The header of
`lib/fix_fft.c` (lines 7-11) says that fixed scaling prevents overflow in the forward transform. Over
all inputs that is true of up to four samples and false of every larger size the table allows
(`FftSizes.ScalingSuffices`, with an input for each size in `FftSizes.SpreadWraps`). The comment above
the inverse scan does not mention that the imaginary magnitude is kept in a 16-bit variable, where
-32768 stays negative: the scan finds a sample with a part beyond 16383 except this one
(`FixFft.TooLargeMeans`). Two of them wrap unnoticed (`InverseSizes.MissedWraps`); without them the
threshold of 16383 is low enough up to four samples and too high from eight on
(`InverseSizes.VariableScalingSuffices`, with `InverseSizes.ThresholdWraps` and its stretched forms).

Long functions of the source are divided into methods, one per loop or per loop body, so that each has
a contract of its own; `Demosaic.Walk` gathers the local variables of one call for that purpose, with
one method per pixel statement. Ghost fields record histories the code does not keep (what was put,
read, sent, seen); no branch depends on them.

Assumptions: `free_by_numbers` is generated code and not part of this model's source; it is taken to
drop each child, free those whose count becomes zero, and then free the block. `Rec` and `Seq` are not
part of the repository either; a record is a non-empty sequence of events with the start time of the
first and the end time of the last, and the driver hands over batches in time order, asks the root
with never decreasing `sqno`, and clears the root. Memory is sequentially consistent in `Ring`,
`Engine` and `FifoProtocol`. Floating-point samples are real numbers. The roots of unity that the FFT
is measured against are given by what defines them (`ExactDft.RootTable`, `TableAccuracy.Clockwise`).

## Model

| member | source | states |
|---|---|---|
| FixFft.FixMpyRounds | lib/fix_fft.c:147-162 | the multiply is the product over 2^15 rounded to nearest, if and only if not both operands are -32768 |
| FixFft.NarrowCongruent | lib/fix_fft.c:156-161 | storing an int in a 16-bit word leaves the word congruent to it modulo 2^16 |
| FixFft.ButterflyMeans | lib/fix_fft.c:250-274 | any butterfly of any pass in plain integers: the factor is entries m 2^k + n/4 and m 2^k of the table, the second negated unless inverse, halved downwards if the pass shifts; the results are the first sample, halved likewise, plus and minus the two products rounded to nearest, modulo 2^16 |
| FixFft.NextReversed | lib/fix_fft.c:192-197 | the inner search ends with l at least 1 and takes the counter from the bit reversal of m-1 to that of m |
| TransformSpec.RevSuccessor | lib/fix_fft.c:193-197 | adding one at the top end with the carry going down is the bit reversal of adding one |
| TransformSpec.RevInvolution | lib/fix_fft.c:192-207 | bit reversal undoes itself |
| FixFft.ReorderInPlace | lib/fix_fft.c:191-207 | the conditional swaps leave element i equal to the original element at reverse(i) |
| TransformSpec.ReorderTwice | lib/fix_fft.c:191-207 | reordering twice restores the arrays |
| FixFftBounds.HalvedFactorInDisc | lib/fix_fft.c:251-260 | the factor that a forward pass loads from a table without long pairs, after negation and halving, is no longer than half of one and one unit |
| FftAccuracy.CrossNear | lib/fix_fft.c:263-274 | the halving butterfly with rounded products, in unbounded integers and with the second sample in the disc: each of its two outputs is within four units of the butterfly without rounding |
| FixFft.CrossAt | lib/fix_fft.c:262-274 | the innermost body replaces the pair (i, j) by its butterfly and nothing else |
| FixFft.Column | lib/fix_fft.c:261-275 | one inner loop applies butterfly t to every pair whose lower index is t modulo 2l, once |
| FixFft.PassInPlace | lib/fix_fft.c:249-276 | one pass is the simultaneous butterfly of all pairs (i, i+l), each index touched exactly once; the table is read below three quarters of a turn |
| FixFft.NeedsScaling | lib/fix_fft.c:219-232 | the inverse scan with its early exit: it answers whether a part of some sample is beyond 16383 exactly if those with imaginary part -32768 are not the only ones |
| FixFft.TooLargeMeans | lib/fix_fft.c:221-229 | one look of the scan answers yes exactly if the real part is below -16383 or above 16383, or the imaginary part is and is not -32768; so it is wrong exactly on an imaginary part of -32768 with a small real part |
| FixFft.ScanMeans | lib/fix_fft.c:219-232 | the scan decides whether any sample is beyond 16383 if and only if it is not the case that the only such ones are those with imaginary part -32768 |
| FixFft.Transform | lib/fix_fft.c:170-281 | the arrays end as the even/odd recursion of the input; -1 and no change if too long; inverse, the scale is the number of passes p < m that halved, which are those whose scan found a large sample; forward, every pass halves and the scale is 0 |
| TransformSpec.LoopNestIsDit | lib/fix_fft.c:191-279 | for every element type and every butterfly, reorder-then-passes equals the recursion on even and odd samples |
| TransformSpec.DitSimulates | lib/fix_fft.c:215-279 | a relation kept by each butterfly holds between two transforms |
| FixFftBounds.WideCrossBound | lib/fix_fft.c:261-275 | one halving butterfly with a table factor of length at most one lets the modulus grow by at most 4 |
| FixFftBounds.ForwardNeverWraps | lib/fix_fft.c:235-276 | modulus at most M and M + 4 log2(n) at most 32767: every output is that of the transform in unbounded integers, of modulus at most M + 4 log2(n) |
| SineTable.SinewaveIsUnit | lib/fix_fft.c:44-145 | the shipped table has no cosine/sine pair longer than one |
| SineTable.ShippedTableNeverWraps | lib/fix_fft.c:235-276 | the same for the shipped table and up to 1024 samples in the disc |
| SineTable.BoxNeverWraps | lib/fix_fft.c:235-276 | the outputs for real and imaginary parts up to 23141, whatever the size, are those of the transform in unbounded integers |
| CheckedFft.NothingCutIsSame | lib/fix_fft.c:235-276 | where no product, sum or result is cut to 16 bits in any pass, the transform is the unbounded one |
| CheckedFft.ForwardCutsNothing | lib/fix_fft.c:235-276 | modulus at most M and M + 4 log2(n) at most 32767: no product, no sum and no result is cut, in any pass |
| FftSizes.SmallCutsNothing | lib/fix_fft.c:8-11 | one, two or four samples of any 16-bit values: nothing is cut with the shipped table |
| FftSizes.CornersWrap | lib/fix_fft.c:8-11 | eight corner samples whose third pass adds up to 39551, of which -25985 is left |
| FftSizes.SpreadWraps | lib/fix_fft.c:8-11 | for every size from 8 to 1024 samples, an input on which the result is not the unbounded one |
| FftSizes.ScalingSuffices | lib/fix_fft.c:8-11 | the no-overflow promise, exactly: for a size within the table, no input of that size is cut, and none comes out wrong, if and only if there are at most four samples |
| InverseSizes.FollowScans | lib/fix_fft.c:219-232 | for every input there are flags that agree with the scan before each pass |
| InverseSizes.FirstCross | lib/fix_fft.c:262-275 | a butterfly of the first two inverse passes, scaled or with all parts within 16383, is that in unbounded integers, and no part comes out as -32768 |
| InverseSizes.SmallInverse | lib/fix_fft.c:215-279 | up to four samples without an imaginary part of -32768, scaled as their own scans say: the inverse result is that of unbounded integers |
| InverseSizes.InverseInPlace | lib/fix_fft.c:170-281 | the same of the arrays that fix_fft has changed in place; the returned scale is the number of passes that halved, and these are those whose own scan found something |
| InverseSizes.StretchScans | lib/fix_fft.c:219-232 | zeros put between the samples do not change what any of the earlier scans sees |
| InverseSizes.MissedWraps | lib/fix_fft.c:219-232 | two samples of -32768i: the scan overlooks both, and the sum -65535i comes out as i |
| InverseSizes.ThresholdWraps | lib/fix_fft.c:219-232 | eight samples with all parts within 16383: no scan finds anything, and the third pass adds up to 39551 and leaves -25985 |
| InverseSizes.WrongAtAllSizes | lib/fix_fft.c:215-279 | an input that comes out with a wrong sign gives one of every larger size, followed by its own scans |
| InverseSizes.VariableScalingSuffices | lib/fix_fft.c:216-232 | for a size within the table: no input without an imaginary part of -32768 comes out wrong if and only if there are at most four samples; no input at all does if and only if there is one |
| ExactDft.TransformIsFourier | lib/fix_fft.c:215-279 | with exact arithmetic and a table of powers of a root of unity, the loop nest times 2 per halving pass is the Fourier sum at every frequency |
| ExactDft.Inversion | lib/fix_fft.c:164-169 | the Fourier sum with the opposite table over the Fourier sum is n times the input |
| ExactDft.RoundTrip | lib/fix_fft.c:164-281 | forward and then inverse, multiplied by two for each inverse pass that halves, is the input |
| ExactDft.GainIsShift | lib/fix_fft.c:233-234 | the gain of the inverse passes is two to the number of them that halve, that is, two to the returned scale |
| ExactDft.RoundTripShifted | lib/fix_fft.c:164-281 | forward with every pass halved, then inverse, times two to the returned scale, is the input at every index |
| FftAccuracy.CrossClose | lib/fix_fft.c:261-275 | with a factor within two and a half units of its root, one 16-bit butterfly adds at most 5.25 units to the distance from the exact one |
| FftAccuracy.ForwardNearFourier | lib/fix_fft.c:235-276 | in the disc, with any table within two and a half units of the roots of unity: n times the 16-bit result is within 5.25 n log2(n) of the Fourier sum at every frequency |
| FftAccuracy.Forward | lib/fix_fft.c:170-281 | the same of the arrays that fix_fft has changed in place |
| FftAccuracy.QuarterTable | lib/fix_fft.c:44-145 | the conditions on a table and its roots can be met together: 0, 32767, 0 and the quarter turns, for up to four samples |
| TableAccuracy.ShippedTableAccurate | lib/fix_fft.c:44-145 | every factor taken from the shipped table is within two and a half units of its root of unity |
| TableAccuracy.ShippedNearFourier | lib/fix_fft.c:235-276 | the shipped table, samples in the disc: n times the 16-bit result is within 5.25 n log2(n) of the Fourier sum at every frequency |
| TableAccuracy.ForwardShipped | lib/fix_fft.c:170-281 | the same of the arrays that fix_fft has changed in place |
| JoinProofs.InnerEmits | apps/reuters/reutercode/include/MLJoin.h:44-59 | the inner loop emits a concatenation if and only if it pairs a kept left record with the right one, in order and passing |
| JoinProofs.InnerKeeps | apps/reuters/reutercode/include/MLJoin.h:46-52 | the early break and the erasure lose only left records that start before sqno |
| JoinProofs.OuterEmits | apps/reuters/reutercode/include/MLJoin.h:42-60 | both loops emit exactly the pairs, although the left side shrinks on the way |
| JoinProofs.OuterTidy | apps/reuters/reutercode/include/MLJoin.h:42-60 | what they emit is in end-time order without repetition |
| JoinProofs.LeafEmits | apps/reuters/reutercode/include/RecBuffer.h:28-34 | a leaf holds exactly the accepted events of the batch |
| JoinProofs.Merge | apps/reuters/reutercode/include/MLJoin.h:64-68 | adding the fresh matches and pruning the front keeps a buffer complete and sorted by end time |
| JoinProofs.FreshHalves | apps/reuters/reutercode/include/MLJoin.h:42-62 | a match that ends in the batch is a kept left match and a right match that ends in the batch, so clearing the right side loses nothing |
| JoinProofs.Step | apps/reuters/reutercode/include/MLJoin.h:32-69 | one batch through any tree keeps every buffer's invariant and emits exactly the fresh matches |
| JoinPlans.MatchIsPattern | apps/reuters/reutercode/app/pattern/large.cc:72-280 | a tree's matches are the pattern's: accepted events in strictly increasing time with every comparison, renumbered, true |
| JoinPlans.RunAnswers | apps/reuters/reutercode/include/MLJoin.h:32-69 | incremental equals batch: in every batch of every run the root emits, once each and in end order, the answers of the query over all that has arrived |
| JoinPlans.PlansAgree | apps/reuters/reutercode/app/pattern/large.cc:72-290 | two plans with the same leaves and comparisons emit the same tuples in every batch |
| JoinPlans.PlanFlat | apps/reuters/reutercode/app/pattern/large.cc:72-278 | each of the five plans, with the event indices it is written with, has the same leaves and the same two comparisons |
| JoinPlans.FivePlansAgree | apps/reuters/reutercode/app/pattern/large.cc:72-290 | any two of the five plans emit the same tuples in every batch of every stream |
| JoinPlans.QueryMeans | apps/reuters/reutercode/app/pattern/large.cc:54-114 | with no function of the model in it: batch k gives m exactly if m is an IBM, a Sun, an Oracle and a Google event that came by batch k, at strictly increasing times, Sun below Oracle and Oracle above Google in that order of operands, the last in batch k, the first not before sqno |
| JoinPlans.QueryOrder | apps/reuters/reutercode/include/MLJoin.h:42-69 | the tuples of a batch come by the time of their Google event, none twice |
| Join.ESBox.PairAt | apps/reuters/reutercode/include/MLJoin.h:46-58 | break, erase and continue, or pair and move on: the iterators stay in step with the value-level loop, and the record erased is never the first |
| Join.ESBox.PairOne | apps/reuters/reutercode/include/MLJoin.h:44-59 | one right record against the left buffer, erasing in place, is one step of the value-level loop, and the record that the saved iterator stands at stays first |
| Join.ESBox.PairLefts | apps/reuters/reutercode/include/MLJoin.h:46-59 | the inner loop leaves in both buffers what the value-level loop makes of them |
| Join.ESBox.PairAll | apps/reuters/reutercode/include/MLJoin.h:42-60 | both iterator loops do to the buffers what the value-level loops do; the saved left iterator stays good throughout |
| Join.ESBox.EraseEarly | apps/reuters/reutercode/include/RecBuffer.h:21-26 | records before sqno are erased from the front, up to the first that is not, so the first one left is late enough |
| Join.ESBox.PushBack | apps/reuters/reutercode/include/RecBuffer.h:29-34 | an accepted event is appended as a record, another changes nothing |
| Join.ESBox.Next | apps/reuters/reutercode/include/MLJoin.h:32-69 | the objects end with the tree of values that one step on values gives; the iterator is the beginning, at a record that no later pairing with this sqno erases |
| Join.ESBox.JoinChildren | apps/reuters/reutercode/include/MLJoin.h:33-62 | both children asked, all pairs made, the right side cleared, the left side kept |
| Join.ESBox.Receive | apps/reuters/reutercode/app/pattern/large.cc:65-70 | every leaf gets its own events and no other |
| Join.ESBox.DriveOne | apps/reuters/reutercode/app/pattern/large.cc:93-114 | one turn of the driving loop: the batch is handed over, the root asked, its buffer read from the iterator and cleared |
| Join.ESBox.Drive | apps/reuters/reutercode/app/pattern/large.cc:93-114 | the driving loop, on objects, produces the run that RunAnswers is about |
| Join.Construct | apps/reuters/reutercode/app/pattern/large.cc:72-90 | the constructors, leaves first, give boxes of their own whose value is the blank tree |
| Join.RunTree | apps/reuters/reutercode/app/pattern/large.cc:93-114 | boxes fresh from their constructors, driven by any time-ordered stream: every batch gets the answers of the query over all that has arrived |
| Join.RunPlan | apps/reuters/reutercode/app/pattern/large.cc:72-290 | the boxes of each of the five plans give in every batch what the one query asks (JoinPlans.QueryMeans, JoinPlans.QueryOrder) |
| ZctHeap.IncrementCounts | src/linked_lib/ws.h:153-154 | below 63 bits an increment adds one to the count and leaves the mark |
| ZctHeap.DecrementCounts | src/linked_lib/ws.h:153-155 | a decrement of a positive count takes one from it and leaves the mark |
| ZctState.StepInv | src/linked_lib/wsc2.h:105-147 | every step keeps: marked if and only if in the table, in it at most once, count equal to the references held, no dangling reference, zero only if in the table |
| ZctState.RunInv | src/linked_lib/wsc2.h:105-203 | the same over every run of allocations, stores, root changes, pushes and sweeps |
| Zct.Runtime.PushZct | src/linked_lib/wsc2.h:122-147 | null and marked blocks are not pushed; another one is marked and appended with its tag; it fails exactly for an unmarked block with the table full |
| Zct.Runtime.ArraySet | benchmarks/alloc/manual_zct.c:99-106 | decrement, write, increment: it fails exactly if the old block has count one and no mark and the table is full; otherwise the slot holds the new block, nothing else is stored, and the state is that of the step StepInv is about |
| Zct.Runtime.GlobalSet | benchmarks/alloc/manual_zct.c:99-106 | the same for a counted root slot, with the same exact failure |
| Zct.Runtime.ArrayAlloc | benchmarks/alloc/manual_zct.c:78-97 | fails exactly with the table full; otherwise a new block with empty slots and its tag enters the table with count zero, and no other block changes |
| ZctState.AllocWrites | benchmarks/alloc/manual_zct.c:78-97 | an allocation adds one block, with that many null slots, that tag and count zero, and leaves every other block and the roots |
| ZctState.StoreWrites | benchmarks/alloc/manual_zct.c:99-106 | a store changes one slot of one block, and no tag, no root and no set of blocks |
| ZctState.RootWrites | benchmarks/alloc/manual_zct.c:99-106 | a root change changes one root and no slot and no tag |
| Zct.Runtime.DecrementPred | src/linked_lib/ws.h:155 | null is left alone; of a positive count one is taken, the mark stays, and zero is reported if and only if it was one and the block is unmarked |
| ZctHeap.DropChildRef | src/linked_lib/ws.h:155 | a child's count goes down with the reference, and if the word is zero nothing refers to it and it is not in the table |
| ZctState.SweepLooks | src/linked_lib/wsc2.h:180-182 | an entry not yet visited is live and marked, whatever has been freed; with count zero nothing refers to it |
| Zct.Runtime.FreeByNumbers | src/linked_lib/wsc2.h:187 | freeing cascades to children whose word becomes zero, frees each block once and leaves the rest consistent |
| Zct.Runtime.Visit | src/linked_lib/wsc2.h:180-189 | one turn of the sweep frees or unmarks its entry and keeps the rest of the table exact |
| Zct.Runtime.Blast | src/linked_lib/wsc2.h:156-203 | above depth 1 nothing happens; otherwise the table ends empty, every remaining block is unmarked, unchanged and referred to, and the freed ones went once each, each after all that referred to it |
| ZctState.ReachedSurvives | src/linked_lib/wsc2.h:180-190 | on any heap a sweep never takes a block that a root reaches |
| ZctState.SurvivesExactly | src/linked_lib/wsc2.h:156-203 | on every heap, a block survives a sweep if and only if a root reaches it or it is in a set of blocks each held by one of the set |
| ZctState.SurvivorsAreReachable | src/linked_lib/wsc2.h:156-203 | a sweep leaves only blocks that a root reaches if and only if the blocks that no root reaches can be ranked along their references, that is, hold no cycle |
| ZctState.CycleLeaks | src/linked_lib/wsc2.h:156-203 | a state that a run reaches, with two unreached blocks that hold each other, from which every sweep leaks both |
| ZctState.CycleIsReached | benchmarks/alloc/manual_zct.c:78-106 | two allocations, a root, two stores, a sweep and the root cleared make a run to a state with two unreached blocks that hold each other |
| ZctState.CycleSurvives | src/linked_lib/wsc2.h:156-203 | two blocks that hold each other survive every sweep |
| Ring.FullMeans | apps/reuters/reutercode/include/ESBuffer.h:84 | whatever the consumer is in the middle of, full() says exactly that size-1 events are ahead of it |
| Ring.HasNextMeans | apps/reuters/reutercode/include/ESBuffer.h:83 | whatever the producer is in the middle of, hasNext() says exactly that a visible event is left |
| Ring.StepInv | apps/reuters/reutercode/include/ESBuffer.h:59-97 | every step of either thread, each half of an increment and each copied word being one, keeps indices and slots right |
| Ring.Refines | apps/reuters/reutercode.v0/include/ESBuffer.h:12-31 | each step of the ring is a step of the growing vector it replaces, or none |
| Ring.Delivery | apps/reuters/reutercode/include/ESBuffer.h:59-97 | under every interleaving: delivered is a prefix of offered, at most size-1 events are on their way, and the slot last returned still holds its event |
| Ring.ProducerTurn | apps/reuters/reutercode/include/ESBuffer.h:67-70 | an add that runs alone: with fewer than size-1 events ahead the event is added last, after its words and both halves of the increment, and the consumer's side does not change; with size-1 ahead nothing changes |
| Ring.ConsumerTurn | apps/reuters/reutercode/include/ESBuffer.h:59-64 | a next that runs alone: the oldest event not handed out is handed out and is in the slot held; with none left nothing changes |
| Filter.ESBuffer.Next | apps/reuters/reutercode/include/ESBuffer.h:59-64 | takes the oldest event |
| Filter.ESBuffer.Add | apps/reuters/reutercode/include/ESBuffer.h:67-70 | appends behind all others |
| Filter.ESBuffer.Full | apps/reuters/reutercode/include/ESBuffer.h:84 | true exactly with size-1 events inside |
| Filter.ESBuffer.HasNext | apps/reuters/reutercode/include/ESBuffer.h:83 | true exactly with an event inside |
| Filter.Filter.Pull | apps/reuters/reutercode/include/Filter.h:49-54 | one event, the oldest, leaves the source and is held if and only if it passes; nothing else changes |
| Filter.Filter.HasNext | apps/reuters/reutercode/include/Filter.h:47-56 | takes events until one passes and holds that one, or until the source is empty; loses none; with one held already nothing changes |
| Filter.Filter.Next | apps/reuters/reutercode/include/Filter.h:58-68 | refuses exactly when the socket buffer is needed and full, changing nothing; otherwise hands out the event in its place, newly held or not, and to the socket buffer too |
| Filter.Filter.Drain | apps/reuters/reutercode/include/ESBuffer.h:59-64 | the socket side takes the oldest emitted event it has not had |
| Filter.Filter.Arrive | apps/reuters/reutercode/include/FileSource.h:86-102 | an event is added behind the others exactly if the ring has room; what is held and emitted does not change |
| Filter.RunEngine | apps/reuters/reutercode/include/QueryEngine.h:36-43 | on objects, for any order of whole arrivals, polls and socket reads: printed, accepted, read and all that is left in the boxes are what the engine on values leaves after the same events; printed plus held equals what passes of what was consumed, and the socket side has read a prefix of it |
| Filter.RunOneMore | apps/reuters/reutercode/include/QueryEngine.h:36-43 | the engine on values takes the events one after another, and none does nothing |
| Filter.PollPrints | apps/reuters/reutercode/include/Filter.h:47-68 | a poll with nothing held prints the first event that passes and drops those before it; with the socket buffer in use it gets the event too, and if it is full the event is held instead |
| Filter.PollPrintsHeld | apps/reuters/reutercode/include/Filter.h:48-67 | a poll with an event held prints it and leaves the source alone; it waits only for a socket buffer in use and full |
| Filter.PollFindsNone | apps/reuters/reutercode/include/Filter.h:49-55 | a poll with nothing held and nothing that passes empties the source and does nothing else |
| Filter.ArrivalIs | apps/reuters/reutercode/include/FileSource.h:86-102 | an arrival is accepted behind the others exactly with room in the ring |
| Filter.DrainIs | apps/reuters/reutercode/include/ESBuffer.h:59-64 | a socket read takes the oldest event of the socket buffer, if there is one |
| Filter.AllPrinted | apps/reuters/reutercode/include/QueryEngine.h:36-43 | with no socket buffer, or with room in it: after as many rounds of a poll and a socket read as there are events left, everything accepted that passes has been printed, in order |
| Engine.StepInv | apps/reuters/reutercode/include/Filter.h:47-68 | with the reader, the engine and the socket side interleaved at every shared access, each step keeps: printed, on its way and held is what passes of what was judged; the socket ring was given what was printed; both rings right |
| Engine.JudgeInv | apps/reuters/reutercode/include/Filter.h:49-54 | the event is still in the slot of the source ring when the predicates look at it, whatever the reader has added since |
| Engine.Delivery | apps/reuters/reutercode/include/QueryEngine.h:36-43 | under every interleaving of the three threads: what was printed, with the event held or on its way, is what passes of the first events the reader offered, in order, and the socket side has read a prefix of it |
| Engine.SideRuns | apps/reuters/reutercode/include/QueryEngine.h:36-43 | any run of one of the rings is a run of the whole in which its thread takes all the steps |
| Engine.ReaderTurn | apps/reuters/reutercode/include/FileSource.h:86-102 | the reader alone, with room in the source: the event is offered and added last, and nothing else changes |
| Engine.JudgeTurn | apps/reuters/reutercode/include/Filter.h:49-54 | the engine alone, holding nothing, with an event in the source: the oldest is fetched and judged, and held exactly if it passes |
| Engine.PrintTurn | apps/reuters/reutercode/include/Filter.h:58-68 | the engine alone, holding an event, without a socket buffer: it is printed and let go |
| Engine.SendTurn | apps/reuters/reutercode/include/Filter.h:58-68 | the same with room in the socket ring: the event is printed once and added last to that ring |
| Engine.OfferWaits | apps/reuters/reutercode/include/Filter.h:59-61 | with the socket ring full the event stays held and nothing changes |
| Engine.SocketTurn | apps/reuters/reutercode/include/ESBuffer.h:59-64 | the socket side alone takes the oldest event of its ring |
| ListFifo.OneStage.PutCell | src/linked_lib/c_fifos/bits/list_fifo.c:86-104 | the cell becomes the last one; head and tail are null together |
| ListFifo.OneStage.Put | src/linked_lib/c_fifos/bits/list_fifo.c:107-111 | a put allocates a cell that was never in the queue and appends it |
| ListFifo.OneStage.Get | src/linked_lib/c_fifos/bits/list_fifo.c:116-148 | takes the first cell and keeps it as last popped; the two errors exactly when empty or not cleaned up, changing nothing |
| ListFifo.OneStage.Cleanup | src/linked_lib/c_fifos/bits/list_fifo.c:151-161 | frees the last popped cell, if there is one, and forgets it |
| ListFifo.OneStage.Size | src/linked_lib/c_fifos/bits/list_fifo.c:163-177 | following the links counts the cells |
| ListFifo.TwoStage.Put | src/linked_lib/c_fifos/bits/list_fifo.c:261-265 | the value is held in the first stage, pending goes up by one, the second stage does not change |
| ListFifo.TwoStage.Recheck | src/linked_lib/c_fifos/bits/list_fifo.c:299-306 | the next held cell goes to limbo; the errors exactly when one is there already or none is held |
| ListFifo.TwoStage.ReleaseOne | src/linked_lib/c_fifos/bits/list_fifo.c:312-323 | the cell in limbo, or the next one, is appended to the second stage, and pending goes down by one |
| ListFifo.TwoStage.Release | src/linked_lib/c_fifos/bits/list_fifo.c:341-371 | everything held is appended in put order, the first stage is left empty and pending zero; an error exactly when a cell was left in limbo |
| ListFifo.TwoStage.WriteBatch | src/linked_lib/c_fifos/bits/list_fifo.c:261-371 | a writer's batch arrives whole and in order |
| ListFifo.TwoStage.ReadAll | src/linked_lib/wsc2.h:527-548 | the worker's turn reads everything queued, in order, and frees exactly those cells |
| ListFifo.RunSessions | src/linked_lib/c_fifos/bits/list_fifo.c:246-371 | for any turns of writers and reader, read plus queued is the batches in turn order; what has been read is all that was put before the reader's last turn, and nothing without one; the freed cells are those read, each once, none of them queued |
| ListFifo.ReadAtLast | src/linked_lib/wsc2.h:527-548 | each turn of the reader reads all there is |
| FifoProtocol.StepInv | src/linked_lib/c_fifos/bits/list_fifo.c:86-161 | every step of every thread is legal (no pointer to a cell that is not allocated) and keeps: list, one place per cell, mutual exclusion, no lost wake-up, values in order |
| FifoProtocol.StepPlaces | src/linked_lib/c_fifos/bits/list_fifo.c:86-161 | every allocated cell is linked, or last popped, or held by one writer; none is leaked |
| FifoProtocol.StepWakeful | src/linked_lib/c_fifos/bits/list_fifo.c:96-122 | a sleeping reader has an empty queue or a writer about to signal |
| FifoProtocol.Delivery | src/linked_lib/c_fifos/bits/list_fifo.c:86-161 | under every interleaving, addresses being reused: the values put are those the writers' steps name, each writer's latest when it gets the mutex; values are read in that order, cells freed once each, head null exactly with tail, and a reader asleep with the mutex free has read everything |
| FifoProtocol.StepFiled | src/linked_lib/c_fifos/bits/list_fifo.c:86-111 | the cell a writer holds keeps the value it was filled with until it is linked |
| FifoProtocol.WriterTurn | src/linked_lib/c_fifos/bits/list_fifo.c:86-111 | a put that runs alone appends its value in five steps and wakes a sleeping reader |
| FifoProtocol.ReaderTurn | src/linked_lib/c_fifos/bits/list_fifo.c:116-161 | a get and cleanup that run alone take the oldest value in six steps and free its cell |
| FifoProtocol.EmptyTurn | src/linked_lib/c_fifos/bits/list_fifo.c:116-128 | a get that finds nothing ends asleep |
| FifoProtocol.NeverStuck | src/linked_lib/c_fifos/bits/list_fifo.c:116-161 | some thread can always go on, unless the reader sleeps with everything read and every cell freed |
| Fir.FIRFilter.Sample | apps/eeg/SeizureDetection.cpp:616-620 | flipped coefficients against the memory give the convolution sum at the newest sample |
| Fir.FIRFilter.Step | apps/eeg/SeizureDetection.cpp:611-634 | one sample in, one sample of the convolution out, and the memory holds the last samples again |
| Fir.FIRFilter.Iterate | apps/eeg/SeizureDetection.cpp:605-642 | the outputs of all segments together are the convolution of everything received |
| Fir.ConvImpulse | apps/eeg/SeizureDetection.cpp:616-620 | the answer to a single sample of one is the coefficients, from there on |
| Fir.ConvLinear | apps/eeg/SeizureDetection.cpp:616-620 | the answer to a sum of multiples is the sum of the multiples of the answers; with the impulse this fixes the filter |
| Fir.FilteredImpulse | apps/eeg/SeizureDetection.cpp:605-642 | the same of the whole output of a filter, sample by sample |
| Fir.HalvesJoin | apps/eeg/SeizureDetection.cpp:505-575 | cutting at even positions does not change the even and odd signals |
| Fir.WholePairs | apps/eeg/SeizureDetection.cpp:525-561 | a segment of odd length loses its last sample |
| Fir.GetEven | apps/eeg/SeizureDetection.cpp:552-574 | the samples at even positions, half the length rounded down |
| Fir.GetOdd | apps/eeg/SeizureDetection.cpp:516-538 | the samples at odd positions |
| Fir.MergeZip.Iterate | apps/eeg/SeizureDetection.cpp:459-488 | all outputs together are the first signal plus the second one sample late, across segments |
| Fir.Polyphase | apps/eeg/SeizureDetection.cpp:686-705 | filtering the halves apart and adding with a delay is filtering with the interleaved coefficients |
| Fir.Network.Iterate | apps/eeg/SeizureDetection.cpp:686-705 | the network's outputs together are y[n] = sum over j of h[j] x[2n-j] |
| Fir.RunNetwork | apps/eeg/SeizureDetection.cpp:686-734 | the output depends on the stream only, not on how it was cut into even-length segments, and is that of the decimated filter |
| Fir.DecimatedImpulse | apps/eeg/SeizureDetection.cpp:686-734 | output n of the network for a single one at sample k is coefficient 2n-k of the interleaved ones, zero if there is none |
| Fir.DecimatedLinear | apps/eeg/SeizureDetection.cpp:686-734 | the network is linear in its input |
| Fir.Coefficients | apps/eeg/SeizureDetection.cpp:683-709 | the interleaved coefficients of both networks, number by number |
| Fir.LowFreqFilter | apps/eeg/SeizureDetection.cpp:708-734 | the low-pass network, with its coefficients |
| Fir.HighFreqFilter | apps/eeg/SeizureDetection.cpp:683-705 | the high-pass network, with its coefficients |
| Rewindow.DueMeans | src/demos/wavescope/bug.cpp:776-836 | the number of windows sent counts exactly those k with feed k + width below the number of samples arrived |
| Rewindow.Rewindow.Skip | src/demos/wavescope/bug.cpp:781-798 | a gap is left out only with more than the gap there, and the box then stands at the next window |
| Rewindow.Rewindow.Send | src/demos/wavescope/bug.cpp:806-828 | the window sent is the next one of the stream, with its start number |
| Rewindow.Rewindow.Iterate | src/demos/wavescope/bug.cpp:766-838 | after each segment, null or not, exactly the windows due have been sent, in order; the inner loop ends |
| Rewindow.RunRewindow | src/demos/wavescope/demo7b_marmot_phase1.ws:181-221 | for any chunking and any widths (32 and 96 in the generated box), window k is sent if and only if more than feed k + width samples arrived; its start number is that of sample feed k and it holds that sample and the width - 1 after it |
| Demosaic.AlwaysOne | lib/r100/front_camera.c:262-323 | every pixel has a sample of every colour among itself and its neighbours |
| Demosaic.ChannelBelow | lib/r100/front_camera.c:245-249 | every channel stays in ten bits, so the gain tables are read in bounds |
| Demosaic.EvenScene | lib/r100/front_camera.c:262-323 | a colour that is the same everywhere comes out as it is |
| Demosaic.ReadsAreChannels | lib/r100/front_camera.c:269-322 | what is read around the pointer, case by case, is the average of the nearest samples that exist |
| Demosaic.Walk.Pack16 | lib/r100/front_camera.c:245-249 | one more pixel of the wanted image is written, and both pointers move on |
| Demosaic.Walk.BlueEven | lib/r100/front_camera.c:289-291 | the four-corner and four-side averages of an inner blue site are in bounds and right |
| Demosaic.Walk.TopRow | lib/r100/front_camera.c:269-279 | the first row is written, each pixel once |
| Demosaic.Walk.BlueRow | lib/r100/front_camera.c:283-295 | an inner row that starts with blue |
| Demosaic.Walk.GreenRow | lib/r100/front_camera.c:297-309 | an inner row that starts with green |
| Demosaic.Walk.BottomRow | lib/r100/front_camera.c:312-322 | the last row |
| Demosaic.GrbgPack16Rgb | lib/r100/front_camera.c:262-323 | for all even sides of at least two, every pixel is written once, in row order, from in-bounds reads, each channel the truncated average of its nearest samples |
| Demosaic.PixelJoins | lib/r100/front_camera.c:245-249 | the pixel at row r and column c is at index r width + c and joins the red, green and blue tables' words for the upper eight bits of the red, green and blue channels |
| Demosaic.GreenSite | lib/r100/front_camera.c:269-322 | at every green site, edges included, the three channels as samples of the image by index: itself, its row neighbours and its column neighbours |
| Demosaic.OtherSite | lib/r100/front_camera.c:269-322 | at every other site, edges included: itself, the share of those beside it and the share of those at its corners |
| Repack.PackUnpack | lib/r100/front_camera.c:1081-1119 | packing the three bytes of a pixel gives the pixel |
| Repack.UnpackPack | lib/r100/front_camera.c:1081-1119 | unpacking a packed triple gives its bytes with the low bits cleared |
| Repack.HoldsMeans | lib/r100/front_camera.c:1081-1083 | which bits of a pixel are in which byte: the top five, the middle six and the low five, each at the top of its byte, in that order |
| Repack.PackedMeans | lib/r100/front_camera.c:1114-1119 | which bits of three bytes are in the packed short |
| Repack.ShortMeans | lib/r100/front_camera.c:1114-1125 | the first of the two bytes of a short is its low half |
| Repack.Unpack | lib/r100/front_camera.c:1073-1089 | every pixel in its three bytes, the rest of the buffer untouched |
| Repack.PackInPlace | lib/r100/front_camera.c:1111-1125 | although the shorts overwrite the bytes being read, short k is what the original three bytes at 3k pack to, and nothing from 2 pix on changes |
| Repack.RoundTrip | lib/r100/front_camera.c:1073-1125 | unpacking and packing in place restores every pixel |

## Left out

- FixFftBounds.ForwardNeverWraps: only samples in the disc; outside it no condition on one input short of its transform is given, and over all inputs of a size the exact condition is `FftSizes.ScalingSuffices`.
- SineTable.ShippedTableNeverWraps: only samples in the disc, for the same reason.
- SineTable.BoxNeverWraps: 23141 is what fits in the disc; larger boxes are possible at each size and are not looked for.
- CheckedFft.ForwardCutsNothing: only samples in the disc; `FftSizes.SmallCutsNothing` covers all samples up to size four.
- TableAccuracy.ShippedNearFourier: the roots of unity are any real pairs with their defining properties; that there are such pairs for 1024 steps is not proved, since sines are not defined in the model (for four steps `FftAccuracy.QuarterTable` gives them).
- InverseSizes.VariableScalingSuffices: exact over all inputs of a size; for one input of eight samples or more no condition short of its transform is given, and right means that the final samples are those of unbounded integers with the same scaling.
- `fix_fftr`: its swap loop separates parities but does not leave the samples ascending.
- FixFft.FixMpyRounds: shifts of negative words are taken to round down, as two's complement machines do.
- `Seq`, `Rec`, catalog, server, client and thread classes: not shown in the repository or plumbing; predicates of the join stay abstract, because `Field::compare` never reports equality on several types.
- `MLJoin`'s memory management: records erased from a buffer are values here and are not freed.
- Threaded `BLAST_ZCT`, which empties the table without freeing anything, and the statistics printed under `BLAST_PRINT`.
- Zct.Runtime.FreeByNumbers: the generated function is assumed, as said above; count words are 64 bits and a count is assumed to stay below 63.
- `ESBuffer::reset`, which another thread may call at any time; the ring is modelled without it.
- Filter.Filter.HasNext: the child is the source's ring; a child with a socket buffer of its own may return null, which the code does not handle.
- File reading, sleeping and printing around `FileSource` and `QueryEngine`: in `Engine` the reader thread is the producer steps of a ring, in `Filter` a step that adds an event if there is room.
- Filter.RunEngine: arrivals and socket reads are whole steps there; `Engine.Delivery` is the statement with every shared access a step of its own.
- `wsfifo_wait` in the coarse-locking mode: it waits without testing a condition; the worker's turn is modelled from when it holds the lock and goes on.
- ListFifo.OneStage.Get: the waiting get is a step of `FifoProtocol`; the object model returns an error where the coarse-locking mode reports one.
- Payloads changed in place by a writer between recheck and release: a cell's data is fixed once put.
- Fir.FIRFilter.constructor: needs at least one coefficient; with none the unsigned count of zeros to remember would wrap around.
- `Zip2`, which pairs the two filtered segments: they are handed to the adder in the order they are made.
- Floating-point rounding in the stream boxes.
- Gaps in the input of the rewindow box: segments are contiguous.
- `BGGR` and `RGGB` demosaicing, whose right-hand corners use the wrong sites, and `GBRG`, which is the modelled walk with red and blue exchanged.
- `init_color_conversion`: the gain tables are any three tables of 256 words.
- Repack.PackInPlace: shorts are stored low byte first, as on the machines the code was written for.
- Sockets, devices, Chez Scheme, FFTW, GSL, OpenCV and OCaml stubs: foreign calls.
