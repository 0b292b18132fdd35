# Verified model of Bucketization and the sorts it is measured against

Bucketization keeps a list readable in several sorted orders. For every sort key it assigns each element to a bucket
once; selecting a key sorts nothing, and each bucket is left unsorted until somebody reads from it. The index is
therefore a cache, an index and a state machine at once. This project models it and proves that
no caller can tell it from the obvious list: whatever was inserted, stably sorted by the key's comparison, and
reversed inside each group when descending.

`dafny verify dfyconfig.toml` checks everything.

How the modules build on each other:

- `Sequences`, `Orders`, `Searching`, `Arithmetic`, `Lexicographic`: filters, stable sorting and its uniqueness,
  binary search, rounding, comparators made from comparators.
- `SortKeys`, `BucketPlans`, `BucketLayouts`, `SplitChoices`, `LayoutEstimation`, `Assignments`: the order a sort key
  defines, how many elements buckets should hold, split points from a sample, and the bucket every value belongs to.
- `Groupings`, `Compaction`, `CacheInvariants`, `SlotSorting`, `SlotTables`: the cached grouping: counting sort,
  repair, filtering, and sorting of one bucket.
- `Views`, `Reads`, `ReadOrders`, `BucketedLists`: what readers must see, what that order means for the fields of the
  sort key, and the naive list as a specification.
- `KeyStates`, `StateSteps`, `StateReads`, `StateVisits`, `UnorderedReads`, `BucketIndexes`, `Runs`: the index as
  classes, step by step, up to whole runs.
- `Handles`, `HandleStates`, `HandleIndexes`: the index over shared mutable elements, where a layout splits on the
  elements themselves.
- `RotationMerges`, `DolphinSorts`, `ParallelSorts`: Dolphin's rotation merge sort and its fork-join form under every
  schedule.
- `LinkedNodes`, `ListSorts`, `GodotLists`, `FileLists`: Godot's merge sort of a doubly linked list.
- `PackedKeys`, `CharKeys`, `NumericKeys`, `DigitRuns`, `NaturalOrders`, `LfOrders`: order-preserving keys and the two
  natural orders.

Conventions. Elements are opaque; key, tie-breaker and group are total functions, and the group is in range. A
comparator is *consistent* when its signs mirror each other and "not greater" is transitive; what holds for every
comparator is stated without that assumption. Vectors that the source reassigns are sequence fields, the buffers of
the in-place sorts are arrays. Slots are 32-bit and bucket ids 16-bit: the sentinel, the size limit and the casts are
written out. Growth factors and skew limits are reals. The random draws of the sampler are an arbitrary function. A
predicate whose body is guarded by `Opened` is an ordinary predicate; the guard only keeps the verifier from looking
into it where it need not.

## Model

| member | source | states |
|---|---|---|
| `Runs.Execute` | include/speedup/bucketization/bucket_index.hpp:42-389 | Whole-run refinement: for every sequence of operations and every initial plan the outcomes are those of the naive list; nothing depends on plans, layouts, caches or earlier reads |
| `Runs.Perform` | include/speedup/bucketization/bucket_index.hpp:42-389 | One operation of any kind keeps the representation invariant and commutes with the naive list's step |
| `BucketIndexes.BucketIndex.AddSortKey` | include/speedup/bucketization/bucket_index.hpp:42-56 | Refuses a duplicate name, so no two keys ever share one; otherwise the key is registered last and its new state is right about all elements, with layouts made from just them |
| `BucketIndexes.BucketIndex.RemoveSortKey` | include/speedup/bucketization/bucket_index.hpp:58-70 | Removes that key and keeps the other states in order. If another key is active, the same state, direction and order of reading stay selected; if it is the one removed, no order is selected |
| `BucketIndexes.BucketIndex.SortBy` | include/speedup/bucketization/bucket_index.hpp:83-87 | Selects key and direction, or fails and changes nothing when the name is unknown |
| `BucketIndexes.BucketIndex.At` | include/speedup/bucketization/bucket_index.hpp:101-113 | The element at a position of the current order; nothing beyond the end |
| `BucketIndexes.BucketIndex.Range` | include/speedup/bucketization/bucket_index.hpp:115-160 | The clamped slice of the current order, by whichever of the three paths |
| `BucketIndexes.BucketIndex.FirstPage` | include/speedup/bucketization/bucket_index.hpp:162-162 | The first page of the current order |
| `BucketIndexes.BucketIndex.PositionIf` | include/speedup/bucketization/bucket_index.hpp:164-183 | None exactly when nothing matches; otherwise the position of the first match in insertion order |
| `BucketedLists.PositionHoldsElement` | include/speedup/bucketization/bucket_index.hpp:164-183 | The slot read at that position is this very slot, not one with an equal element |
| `BucketIndexes.BucketIndex.ForEach` | include/speedup/bucketization/bucket_index.hpp:185-213 | Visits exactly the current order, in order |
| `BucketIndexes.BucketIndex.SortAll` | include/speedup/bucketization/bucket_index.hpp:215-223 | Afterwards the grouping is the ascending view itself |
| `BucketIndexes.BucketIndex.AddAll` | include/speedup/bucketization/bucket_index.hpp:312-326 | Appends all elements, or as many as fit before failing; if all fit and rebalancing is automatic, no key is left with an overdue layout |
| `BucketIndexes.BucketIndex.RemoveIf` | include/speedup/bucketization/bucket_index.hpp:328-358 | The survivors in insertion order, the number removed, every state right about the survivors |
| `BucketIndexes.BucketIndex.UpdateIf` | include/speedup/bucketization/bucket_index.hpp:360-380 | Every matching element mutated once, the others untouched, every state right about the result and none splitting on an element changed since |
| `BucketIndexes.BucketIndex.Clear` | include/speedup/bucketization/bucket_index.hpp:382-389 | No elements, all keys kept, new layouts for the empty collection |
| `BucketIndexes.BucketIndex.RebalanceAll` | include/speedup/bucketization/bucket_index.hpp:293-297 | Every state has layouts made from just the present elements, with nothing counted as changed since |
| `BucketIndexes.BucketIndex.Rebalance` | include/speedup/bucketization/bucket_index.hpp:291-291 | The named state has such layouts, the other states are untouched; an unknown name is refused |
| `BucketIndexes.BucketIndex.SetPlan` | include/speedup/bucketization/bucket_index.hpp:301-304 | The plan is replaced and every state has new layouts under it |
| `KeyStates.KeyState.Relayout` | include/speedup/bucketization/bucket_index.hpp:547-577 | New layouts describe all elements; in every group small enough to be sampled completely each bucket is exactly as large as predicted, and if nothing in the group ties, the bucket counts are target sizes of the plan |
| `KeyStates.KeyState.Append` | include/speedup/bucketization/bucket_index.hpp:579-600 | A new element keeps all per-slot arrays aligned, counts exact, the cached grouping valid and sorted prefixes sorted, for any comparator |
| `KeyStates.KeyState.Rekey` | include/speedup/bucketization/bucket_index.hpp:602-619 | Re-reading a changed element keeps all of that, for any comparator |
| `KeyStates.KeyState.RegroupOrder` | include/speedup/bucketization/bucket_index.hpp:645-682 | Pending adds and updates are placed; nothing is pending afterwards and every recorded prefix is still sorted |
| `KeyStates.KeyState.SortBucket` | include/speedup/bucketization/bucket_index.hpp:744-782 | Rearranges one segment only and records it as sorted, for any comparator; keeps sortedness for a consistent one |
| `KeyStates.KeyState.Compact` | include/speedup/bucketization/bucket_index.hpp:686-736 | A removal keeps everything right about the survivors; new layouts are made exactly when a splitter was removed |
| `KeyStates.KeyState.MaybeAutoRebalance` | include/speedup/bucketization/bucket_index.hpp:523-531 | The remembered staleness verdict stays sound although the check is skipped when churn equals the last checked value |
| `KeyStates.KeyState.Prepare` | include/speedup/bucketization/bucket_index.hpp:509-541 | The grouping is current; with automatic rebalancing the layout is not stale, or too little has changed to rebalance |
| `KeyStates.IsStale` | include/speedup/bucketization/bucket_index.hpp:509-520 | The loop decides staleness, with early exit |
| `KeyStates.StaleExactly` | include/speedup/bucketization/bucket_index.hpp:505-520 | Stale means: more than twice as many elements as estimated from and as two pages hold, or a bucket above the skew times its prediction, times a page and times one element |
| `KeyStates.KeyState.OverdueExactly` | include/speedup/bucketization/bucket_index.hpp:522-531 | Automatic rebalancing waits for as many changes as a page has elements and as an eighth of the elements estimated from |
| `KeyStates.SampledIsNotStale` | include/speedup/bucketization/bucket_index.hpp:505-520 | Layouts just made from completely sampled groups are never stale, whatever the plan |
| `UnorderedReads.ReadEveryPosition` | include/speedup/bucketization/bucket_index.hpp:101-113 | Whatever the comparator does, even if it cycles, reading position after position in either direction yields every element exactly once |
| `UnorderedReads.ReadPosition` | include/speedup/bucketization/bucket_index.hpp:101-113 | Whatever the comparator does, a read leaves everything read before where it was |
| `UnorderedReads.VisitEverything` | include/speedup/bucketization/bucket_index.hpp:185-213 | Whatever the comparator does, a visit in either direction meets every element exactly once |
| `StateReads.ReadRange` | include/speedup/bucketization/bucket_index.hpp:126-160 | Mapped, forward and backward paths all return the slice of the view |
| `StateVisits.VisitDescending` | include/speedup/bucketization/bucket_index.hpp:203-212 | Groups ascending, buckets and elements backwards: the descending view |
| `StateVisits.FindPosition` | include/speedup/bucketization/bucket_index.hpp:175-182 | The found place, mapped, is the slot's position in the view |
| `Groupings.CountingSort` | include/speedup/bucketization/bucket_index.hpp:621-638 | Every segment lists exactly the slots of its bucket, ascending |
| `Groupings.Regroup` | include/speedup/bucketization/bucket_index.hpp:645-682 | Every segment lists its bucket's slots: those that stayed in their old order, then updated, then added ones; the recorded prefix is what stayed of the old one |
| `CacheInvariants.RegroupedIsCached` | include/speedup/bucketization/bucket_index.hpp:645-682 | After any mix of pending adds and updates the result is a permutation of all slots grouped by bucket |
| `CacheInvariants.RegroupedAscends` | include/speedup/bucketization/bucket_index.hpp:640-682 | Every recorded sorted prefix is still sorted |
| `CacheInvariants.UpdateKeepsCached` | include/speedup/bucketization/bucket_index.hpp:602-618 | Marking an updated slot keeps the cached grouping valid for the others |
| `Compaction.BuildRemap` | include/speedup/bucketization/bucket_index.hpp:328-342 | The renumbering is the count of survivors before each slot, and no live slot gets the sentinel |
| `Compaction.RemapMonotone` | include/speedup/bucketization/bucket_index.hpp:331-339 | The renumbering keeps the order of the survivors |
| `Compaction.CompactInPlace` | include/speedup/bucketization/bucket_index.hpp:348-353 | Writing survivors over the same array, front to back, leaves exactly the survivors in their order |
| `Compaction.CompactOrder` | include/speedup/bucketization/bucket_index.hpp:706-736 | Filtering the grouping in place yields the renumbered survivors, segment by segment, with exact prefix lengths |
| `CacheInvariants.RemovedIsCached` | include/speedup/bucketization/bucket_index.hpp:686-736 | The filtered grouping is a permutation of the survivors grouped by their buckets |
| `CacheInvariants.RemovedAscends` | include/speedup/bucketization/bucket_index.hpp:686-736 | Every surviving sorted prefix is sorted, because the renumbering is monotone |
| `Reads.MirroredInvolution` | include/speedup/bucketization/bucket_index.hpp:447-469 | Mirroring inside groups is a bijection of the positions, its own inverse, and maps each group onto itself, empty groups or not |
| `Reads.FindAscendingPosition` | include/speedup/bucketization/bucket_index.hpp:450-469 | The search over group starts computes that mirroring |
| `Reads.FindSegment` | include/speedup/bucketization/bucket_index.hpp:500-503 | The one segment that holds a position |
| `Reads.SortedSegmentRank` | include/speedup/bucketization/bucket_index.hpp:101-113 | In a sorted bucket every slot is where the sorted list has it, whatever the state of the other buckets |
| `Reads.ViewAscending` | include/speedup/bucketization/bucketed_list.hpp:45-50 | A position of the view is the mirrored position of the stably sorted list |
| `Views.AscendingView` | include/speedup/bucketization/bucketed_list.hpp:45-50 | Sorting slots with insertion order as last criterion is stably sorting the elements |
| `Assignments.BucketIdsFollowOrder` | include/speedup/bucketization/bucket_index.hpp:472-478 | For all values, in the collection or not: a smaller bucket id implies a strictly smaller element |
| `Assignments.EqualElementsShareBucket` | include/speedup/bucketization/bucket_index.hpp:472-478 | Elements that compare equal share a bucket |
| `Assignments.TotalFits` | include/speedup/bucketization/bucket_index.hpp:481-498 | Over up to 256 groups the bucket total stays within 65535, so every 16-bit cast is lossless |
| `Assignments.EstimateLayouts` | include/speedup/bucketization/bucket_index.hpp:481-498 | One estimate per group, from the elements of that group |
| `BucketPlans.PerGroup` | include/speedup/bucketization/bucket_index.hpp:492-493 | The caller's plan, with the largest bucket limit that leaves all groups together 16-bit ids |
| `Assignments.AssignBuckets` | include/speedup/bucketization/bucket_index.hpp:560-567 | Every stored id is the one the layouts assign, after the cast, and counts are exact |
| `Assignments.ExpectedIsActual` | include/speedup/bucketization/bucket_layout.hpp:238-246 | In a group that was sampled completely, expected sizes equal the actual bucket counts, whatever the other groups are |
| `BucketLayouts.BucketsFollowOrder` | include/speedup/bucketization/bucket_layout.hpp:137-168 | Inside one layout smaller buckets hold strictly smaller values |
| `BucketLayouts.TiesShareBucket` | include/speedup/bucketization/bucket_layout.hpp:148-168 | Ties share a bucket even when split points repeat a key |
| `BucketLayouts.FastPathAgrees` | include/speedup/bucketization/bucket_layout.hpp:148-153 | Without splitters the boundary search alone finds the same bucket, for any comparator |
| `BucketLayouts.FindBucket` | include/speedup/bucketization/bucket_layout.hpp:137-168 | All forms of the search agree and stay in range for any comparator |
| `BucketLayouts.BucketOfKey` | include/speedup/bucketization/bucket_layout.hpp:122-134 | The key-only search stays in range |
| `BucketLayouts.KeyBucketIsLowest` | include/speedup/bucketization/bucket_layout.hpp:117-134 | The bucket found from the key alone never exceeds the element's bucket |
| `BucketLayouts.KeyBucketIsExact` | include/speedup/bucketization/bucket_layout.hpp:117-134 | It is the element's bucket if none of the split points with that key names an element, whatever the comparator |
| `LayoutEstimation.SampleIndices` | include/speedup/bucketization/bucket_layout.hpp:32-49 | The sample has one index from each of its strides, so it increases strictly and stays in range; it is everything when that fits |
| `SplitChoices.ChooseSplitPositions` | include/speedup/bucketization/bucket_layout.hpp:56-76 | Each desired position in turn contributes the closer usable end of its run, or nothing if neither end is usable; the result increases strictly and lies inside the sample |
| `SplitChoices.DesiredPositions` | include/speedup/bucketization/bucket_layout.hpp:196-201 | The j-th desired position is the sum of the first j + 1 target sizes, scaled to the sample; it lies inside the sample |
| `SplitChoices.TakenAsDesired` | include/speedup/bucketization/bucket_layout.hpp:56-76 | Where no two elements tie, every desired position is taken as it is |
| `LayoutEstimation.ExpectedSizes` | include/speedup/bucketization/bucket_layout.hpp:238-246 | Scaled sizes miss the total by at most half a unit per bucket, and are exact when everything is sampled |
| `LayoutEstimation.Estimate` | include/speedup/bucketization/bucket_layout.hpp:177-246 | The layout has at most the allowed buckets and strictly increasing split points with splitters taken from the elements. It cuts a sorted sample of one element per stride where the cumulative target sizes of the plan ask for it, moved to the ends of runs of equals, and predicts what lies between the cuts, exactly if everything is sampled. If moreover nothing ties, the predicted sizes are target sizes of the plan |
| `LayoutEstimation.SampleBucket` | include/speedup/bucketization/bucket_layout.hpp:224-236 | The search puts every sampled element into the bucket its position in the sample says |
| `BucketPlans.TargetSizes` | include/speedup/bucketization/bucket_plan.hpp:145-157 | n elements are cut into positive sizes that sum to n, at most max_buckets of them, as the kind of the plan says in the next four rows |
| `BucketPlans.UniformSizes` | include/speedup/bucketization/bucket_plan.hpp:168-175 | As many buckets as allowed or elements there are, larger ones first, no two differing by more than one |
| `BucketPlans.ExplicitSizes` | include/speedup/bucketization/bucket_plan.hpp:177-192 | The given sizes in order, the last one cut short only by running out of elements and exceeding the given size only when buckets or given sizes run out |
| `BucketPlans.FirstPageCuts` | include/speedup/bucketization/bucket_plan.hpp:194-203 | A page and the rest; everything if it fits the page or there is one bucket; a page at the far end too if the plan is symmetric, has three buckets and more than two pages of elements |
| `BucketPlans.GeometricSizes` | include/speedup/bucketization/bucket_plan.hpp:205-233 | The sizes follow the growing ramp from the front and, for symmetric plans, from the back as well, only the one dealt last excepted; such plans with three or more buckets and two or more pages have page-sized ends |
| `BucketPlans.RampIsGeometric` | include/speedup/bucketization/bucket_plan.hpp:212-227 | In round i the ramp is the page size times the i-th power of the growth factor, or n if that is less |
| `SortKeys.CompareIsPreorder` | include/speedup/bucketization/sort_key.hpp:132-149 | Group, key and tie-breaker together are consistent whenever the tie-breaker is |
| `ReadOrders.ReadOrder` | include/speedup/bucketization/sort_key.hpp:112-149 | What every read returns, in terms of the fields of the sort key only, for both directions: each slot once; groups by number; inside a group by key, then the tie-breaker, then insertion, all three turned around when descending |
| `SlotSorting.Sort` | bindings/java/bucketization/src/main/java/io/github/attilatorda/speedup/bucketization/SlotSorter.java:17-27 | Stays inside the range and the stated scratch bound, permutes for any comparator, stable sort for a consistent one |
| `SlotSorting.MergeRuns` | bindings/java/bucketization/src/main/java/io/github/attilatorda/speedup/bucketization/SlotSorter.java:29-48 | Merges through the scratch copy of the left run without overwriting an unread element of the right one |
| `SlotSorting.InsertionSort` | bindings/java/bucketization/src/main/java/io/github/attilatorda/speedup/bucketization/SlotSorter.java:50-60 | The range becomes its stable sort as insertion defines it, for any comparator |
| `SlotTables.SortRange` | bindings/java/bucketization/src/main/java/io/github/attilatorda/speedup/bucketization/BucketIndex.java:882-895 | Sorting the tail and merging it into the prefix rearranges that range only, and leaves it ascending if the prefix was |
| `HandleIndexes.HandleIndex.UpdateIf` | bindings/java/bucketization/src/main/java/io/github/attilatorda/speedup/bucketization/BucketIndex.java:411-435 | If every element changed since the last report matches, then afterwards each stored bucket id is the one the current layouts assign to the current values and every splitter is a live element, although ids computed on the way may have used changed splitters |
| `HandleIndexes.HandleIndex.RemoveIf` | bindings/java/bucketization/src/main/java/io/github/attilatorda/speedup/bucketization/BucketIndex.java:380-408 | The same after a removal, under the same condition; the survivors keep their order, and the number removed is returned |
| `HandleIndexes.HandleIndex.At` | bindings/java/bucketization/src/main/java/io/github/attilatorda/speedup/bucketization/BucketIndex.java:127-137 | The very element that sorting puts there, equal ones in insertion order; its value is the one the sorted view of the current values has there |
| `HandleIndexes.HandleIndex.SortBy` | bindings/java/bucketization/src/main/java/io/github/attilatorda/speedup/bucketization/BucketIndex.java:96-102 | Selects a registered key, or changes nothing |
| `HandleIndexes.UpdateDone` | bindings/java/bucketization/src/main/java/io/github/attilatorda/speedup/bucketization/BucketIndex.java:425-430 | A state whose splitters all passed the loop unmatched is right as it stands; the others are about to get new layouts |
| `HandleStates.HandleState.Rekey` | bindings/java/bucketization/src/main/java/io/github/attilatorda/speedup/bucketization/BucketIndex.java:740-756 | Looks a bucket up with the splitters' present values; right if those are the values seen and the slot is no splitter, and never out of range |
| `HandleStates.HandleState.Relayout` | bindings/java/bucketization/src/main/java/io/github/attilatorda/speedup/bucketization/BucketIndex.java:666-704 | New layouts whose splitters are elements of the collection, right about the current values |
| `HandleStates.HandleState.Compact` | bindings/java/bucketization/src/main/java/io/github/attilatorda/speedup/bucketization/BucketIndex.java:828-876 | Splitters stay live at their renumbered slots, or new layouts are made |
| `HandleStates.SortedBucketFinal` | bindings/java/bucketization/src/main/java/io/github/attilatorda/speedup/bucketization/BucketIndex.java:127-137 | A sorted bucket holds its slots where the sorted list of values has them |
| `RotationMerges.RotationMergePermutes` | benchmarks/kde_stack/dolphin_sort.h:82-119 | The rotation merge terminates and permutes for every comparator |
| `RotationMerges.RotationMergeAscending` | benchmarks/kde_stack/dolphin_sort.h:82-119 | For a strict weak order two ascending runs merge into an ascending one |
| `RotationMerges.RotationMergeKeepsTies` | benchmarks/kde_stack/dolphin_sort.h:82-119 | Equivalent elements keep their order, left run first |
| `RotationMerges.MergeSortedIsStable` | benchmarks/kde_stack/dolphin_sort.h:47-59 | For a strict weak order the merge sort is the stable sort |
| `RotationMerges.MergeSortedPermutes` | benchmarks/kde_stack/dolphin_sort.h:47-59 | The merge sort permutes for every comparator |
| `DolphinSorts.MergeInPlace` | benchmarks/kde_stack/dolphin_sort.h:82-119 | In place, the range becomes the rotation merge of its two runs; nothing else changes |
| `DolphinSorts.MergeSort` | benchmarks/kde_stack/dolphin_sort.h:47-59 | In place, the range becomes its merge sort; nothing else changes |
| `ParallelSorts.ParallelIsSequential` | benchmarks/kde_stack/dolphin_sort.h:61-80 | Every schedule of the threads that has run to the end leaves, element for element, what the sequential sort leaves: for every comparator, thread count and threshold |
| `ParallelSorts.StepKeeps` | benchmarks/kde_stack/dolphin_sort.h:61-119 | Every step of any thread stays in its range and keeps what the remaining work amounts to |
| `ParallelSorts.RunsEnd` | benchmarks/kde_stack/dolphin_sort.h:61-80 | No schedule runs longer than the work it starts with |
| `ParallelSorts.SomeStep` | benchmarks/kde_stack/dolphin_sort.h:61-80 | No schedule gets stuck before the end |
| `FileLists.FileList.SortCustom` | benchmarks/godot_stack/godot_sort.h:304-337 | A well-formed doubly linked list of the same nodes in their new order; for a strict weak order its values are the stable sort of the old ones |
| `FileLists.NewOrderIsStable` | benchmarks/godot_stack/godot_sort.h:318-337 | For a strict weak order the new order of the nodes is the stable one, the sorted-prefix shortcut included |
| `FileLists.NewOrderPermutes` | benchmarks/godot_stack/godot_sort.h:318-337 | For any comparator the new order is a permutation of the nodes |
| `FileLists.FileList.ReverseValues` | benchmarks/godot_stack/godot_sort.h:293-302 | Values reversed, nodes and links untouched |
| `FileLists.FileList.PushBack` | benchmarks/godot_stack/godot_sort.h:270-280 | One new node at the end, the list well formed |
| `FileLists.IsSorted` | benchmarks/godot_stack/godot_sort.h:339-348 | Finds the end of the ascending prefix |
| `GodotLists.MergeSortChain` | benchmarks/godot_stack/godot_sort.h:350-360 | A chain becomes the well-formed chain of its merge sort, head and tail correct, for any comparator |
| `GodotLists.MergeChains` | benchmarks/godot_stack/godot_sort.h:362-389 | Two chains become the well-formed chain of their merge, head and tail correct |
| `GodotLists.GetMid` | benchmarks/godot_stack/godot_sort.h:391-399 | The last node of the first half |
| `LinkedNodes.Split` | benchmarks/godot_stack/godot_sort.h:405-408 | Cutting one link leaves two well-formed chains |
| `ListSorts.PrefixSortedIsStableSort` | benchmarks/godot_stack/godot_sort.h:318-337 | Keeping the sorted prefix and merging the sorted rest into it is the stable sort |
| `PackedKeys.FromBytes` | include/speedup/bucketization/keys.hpp:53-63 | The loop computes the prefix key of any byte string, short ones included |
| `PackedKeys.PrefixKeyOrders` | include/speedup/bucketization/keys.hpp:47-63 | One key is smaller exactly if at the first difference among the first eight bytes, zeros standing in for missing ones, its byte is |
| `PackedKeys.PackedNeverContradicts` | include/speedup/bucketization/keys.hpp:47-63 | A smaller key implies a smaller byte string, a smaller string never has a larger key; NULs and short input included |
| `PackedKeys.StringKeyIsExact` | include/speedup/bucketization/sort_key.hpp:67-85 | Prefix key plus full tie-breaker is exactly byte-lexicographic order, and a consistent sort key |
| `CharKeys.PackChars` | bindings/java/bucketization/src/main/java/io/github/attilatorda/speedup/bucketization/Keys.java:115-140 | The loop packs the first eight bytes of the encoding, cutting a code unit if need be |
| `CharKeys.KeyNeverContradicts` | bindings/java/bucketization/src/main/java/io/github/attilatorda/speedup/bucketization/Keys.java:77-87 | Keys never contradict the order of code units, in either direction, for all strings |
| `CharKeys.KeyOrders` | bindings/java/bucketization/src/main/java/io/github/attilatorda/speedup/bucketization/Keys.java:77-87 | Keys compare exactly as the first eight bytes of the encodings |
| `CharKeys.EncodedOrder` | bindings/java/bucketization/src/main/java/io/github/attilatorda/speedup/bucketization/Keys.java:120-134 | Encoded strings compare byte by byte as the strings do code unit by code unit, surrogates included |
| `CharKeys.CompareFolded` | bindings/java/bucketization/src/main/java/io/github/attilatorda/speedup/bucketization/Keys.java:89-103 | The sign of the comparison of the folded strings |
| `NumericKeys.DoubleKeysFollowValues` | include/speedup/bucketization/keys.hpp:37-45 | Keys of doubles compare as the numbers do, with -0.0 just below +0.0, and distinguish all of them |
| `NumericKeys.NaNComesLast` | include/speedup/bucketization/keys.hpp:27-41 | All NaNs share one key above every other |
| `NumericKeys.SignedKeysFollowValues` | include/speedup/bucketization/keys.hpp:32-35 | Signed order becomes unsigned order |
| `NaturalOrders.NaturalCompare` | examples/bucketization/file_browser.cpp:32-70 | The loop decides token by token, digit runs as integers, ties by bytes |
| `NaturalOrders.FirstPlaceDecides` | examples/bucketization/file_browser.cpp:32-70 | After beginnings that agree up to the case of letters and leading zeros of numbers: two numbers decide by value, two other bytes by number with upper-case letters counting as lower-case ones, a string that ends comes first, and strings alike throughout compare as their bytes |
| `NaturalOrders.FirstPlace` | examples/bucketization/file_browser.cpp:32-70 | Any two strings have such a place |
| `NaturalOrders.CaseAlone` | examples/bucketization/file_browser.cpp:32-70 | Strings alike up to the case of letters compare as their bytes do |
| `NaturalOrders.NaturalOrderIsTotal` | examples/bucketization/file_browser.cpp:30-70 | A total order on all byte strings: consistent, and zero only for equal strings |
| `NaturalOrders.NumbersByValue` | examples/bucketization/file_browser.cpp:37-57 | After the same beginning, digit runs of any length compare by integer value |
| `DigitRuns.ComparedByValue` | examples/bucketization/file_browser.cpp:44-52 | Without leading zeros, by length and then as bytes is by value |
| `LfOrders.NaturalCmp` | benchmarks/terminal_stack/terminal_family_sort.h:425-457 | The loop compares run by run |
| `LfOrders.FirstRunDecides` | benchmarks/terminal_stack/terminal_family_sort.h:425-457 | After the same complete runs: numbers below 2^63 decide by value, then the shorter comes first; any other two runs by their bytes; a name that ends comes first |
| `LfOrders.FirstRunApart` | benchmarks/terminal_stack/terminal_family_sort.h:425-457 | Any two different names have such a pair of runs |
| `LfOrders.Atoi` | benchmarks/terminal_stack/terminal_family_sort.h:413-423 | The value of a digit run, or failure exactly when it does not fit 63 bits |
| `LfOrders.TotalExactlyBelow` | benchmarks/terminal_stack/terminal_family_sort.h:425-457 | On names whose digit runs stay below a bound it is a strict total order if and only if the bound is at most 2^63 |
| `LfOrders.Cycle` | benchmarks/terminal_stack/terminal_family_sort.h:443-455 | 93 before 100 before 9223372036854775808 before 93 |
| `LfOrders.LfNameKey` | benchmarks/terminal_stack/benchmark_terminal_family.cpp:185-208 | The class of the first run, then its capped value or first seven bytes |
| `LfOrders.NameKeySeparates` | benchmarks/terminal_stack/benchmark_terminal_family.cpp:181-208 | When two names get different keys: by the classes of their first runs, by values below 2^62 - 1, or exactly when the first seven bytes differ |
| `LfOrders.KeyAgreesExactlyBelow` | benchmarks/terminal_stack/benchmark_terminal_family.cpp:180-208 | The key never contradicts the comparison on names below a bound if and only if the bound is at most 2^63 |

## Left out

- Exceptions thrown by key, group or comparison functions, and memory reservation: functions are total. A name that is
  unknown or taken, a position out of range and too many elements are modelled as failed outcomes.
- Estimating a layout under an inconsistent comparator: the split positions rely on runs of equal elements
  (include/speedup/bucketization/bucket_layout.hpp:64-69). Everything else of the index is stated for any comparator
  over layouts that already exist; whole runs are stated for consistent comparators.
- The check in `sort_bucket` that skips sorting an ordered tail, and std::stable_sort itself: buckets are sorted as
  SlotSorter.java sorts them. For a consistent comparator the sorted result is unique, so both deliver the same.
- Floating-point rounding in growth and skew, and the bits of SplitMix64.
- `estimate_bucket_sizes`, `stats`, `layout`, `bucket_sizes`, names of sort keys and other accessors that only copy a
  field or an estimate.
- HandleIndexes.HandleIndex: no automatic rebalancing, plan changes, ranges or iterators over shared elements; the
  class over values has the first three. A mutator changes only the element it is given.
- HandleIndexes.HandleIndex.Add: requires room and an element not yet in the collection; growing the arrays is not
  modelled.
- ParallelSorts.ParallelIsSequential: one step is one call of the sort or one cut and rotation of the merge, not a
  single memory access; steps of concurrent threads touch disjoint ranges.
- DolphinSorts.Rotate: std::rotate is modelled by its effect, not by a particular algorithm.
- FileLists.SortChain: sorts whole lists, as its only caller does; relinking the sorted part into a longer list is not
  modelled.
- CharKeys.PackChars: case folding is an arbitrary function on code units.
- LfOrders.NaturalCmp: names come normalized; lf's rune-wise lower-casing and accent stripping is not modelled.
- Dolphin's decimal-aware name comparison, collation, and the GLib, GTK, Qt and ICU stacks.
- Vector and assembly binary searches, language bindings other than the index and sorter above, benchmark drivers.
