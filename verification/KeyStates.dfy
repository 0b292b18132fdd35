/** bucket_index.hpp, KeyState: one sort key's view of the elements, and the steps that keep it consistent. */
module KeyStates {
  import opened Sequences
  import opened SortKeys
  import opened BucketPlans
  import opened LayoutEstimation
  import opened Groupings
  import opened Compaction
  import opened CacheInvariants
  import opened Assignments
  import opened SlotTables
  import opened Reads

  /** What a bucket's count is compared with: never less than a page, never zero. */
  function SkewFloor(expected: nat, page: nat): nat {
    Max(Max(expected, page), 1)
  }

  predicate Exceeds(count: nat, skew: real, size: nat) {
    count as real > skew * (size as real)
  }

  /** One bucket holds more than the plan's skew allows. */
  predicate Overfull(counts: seq<nat>, expected: seq<nat>, plan: BucketPlan, b: nat)
    requires b < |counts| == |expected|
  {
    Exceeds(counts[b], plan.rebalanceSkew, SkewFloor(expected[b], plan.pageSize))
  }

  /** needs_rebalance: the collection outgrew the layout, or a bucket is overfull. */
  predicate Stale(n: nat, estimatedFrom: nat, counts: seq<nat>, expected: seq<nat>, plan: BucketPlan)
    requires |counts| == |expected|
  {
    n > 2 * Max(estimatedFrom, plan.pageSize) || exists b :: 0 <= b < |counts| && Overfull(counts, expected, plan, b)
  }

  /** The count exceeds the skew times the prediction, times a page, and times one element. */
  predicate Outgrown(count: nat, expected: nat, plan: BucketPlan) {
    && Exceeds(count, plan.rebalanceSkew, expected) && Exceeds(count, plan.rebalanceSkew, plan.pageSize)
    && Exceeds(count, plan.rebalanceSkew, 1)
  }

  /** What staleness takes: more than twice the elements estimated from and more than two pages, or such a bucket. */
  lemma StaleExactly(n: nat, estimatedFrom: nat, counts: seq<nat>, expected: seq<nat>, plan: BucketPlan)
    requires |counts| == |expected| && plan.WellFormed()
    ensures Stale(n, estimatedFrom, counts, expected, plan) <==>
        (n > 2 * estimatedFrom && n > 2 * plan.pageSize)
        || (exists b :: 0 <= b < |counts| && Outgrown(counts[b], expected[b], plan))
  {
    forall b | 0 <= b < |counts|
        ensures Overfull(counts, expected, plan, b) <==> Outgrown(counts[b], expected[b], plan) {
      OverfullExactly(counts, expected, plan, b);
    }
  }

  lemma OverfullExactly(counts: seq<nat>, expected: seq<nat>, plan: BucketPlan, b: nat)
    requires b < |counts| == |expected| && plan.WellFormed()
    ensures Overfull(counts, expected, plan, b) <==> Outgrown(counts[b], expected[b], plan)
  {
    var floor := SkewFloor(expected[b], plan.pageSize);
    ExceedsLess(counts[b], plan.rebalanceSkew, expected[b], floor);
    ExceedsLess(counts[b], plan.rebalanceSkew, plan.pageSize, floor);
    ExceedsLess(counts[b], plan.rebalanceSkew, 1, floor);
  }

  lemma ExceedsLess(count: nat, skew: real, m: nat, n: nat)
    requires 0.0 <= skew && m <= n
    ensures Exceeds(count, skew, n) ==> Exceeds(count, skew, m)
  {
    var x, y := m as real, n as real;
    assert 0.0 <= skew * (y - x);
    assert skew * (y - x) == skew * y - skew * x;
  }

  method IsStale(n: nat, estimatedFrom: nat, counts: seq<nat>, expected: seq<nat>, plan: BucketPlan)
    returns (stale: bool)
    requires |counts| == |expected|
    ensures stale == Stale(n, estimatedFrom, counts, expected, plan)
  {
    if n > 2 * Max(estimatedFrom, plan.pageSize) {
      return true;
    }
    for b := 0 to |counts|
      invariant forall c :: 0 <= c < b ==> !Overfull(counts, expected, plan, c)
    {
      if Overfull(counts, expected, plan, b) {
        return true;
      }
    }
    return false;
  }

  /** The fields of a key state fit together and describe `items`. */
  ghost predicate Sound<T(!new)>(sk: SortKey<T>, d: SlotData<T>, splitters: seq<nat>, hasOrder: bool, orderStale: bool,
                                 c: Grouping, items: seq<T>)
  {
    && Describes(sk, d, items)
    && AscendingNats(splitters) && (forall i :: 0 <= i < |splitters| ==> splitters[i] < |items|)
    && (hasOrder ==> Groups(c, d.buckets, |d.counts|) && (!orderStale ==> c.moved == NoneMoved(|items|)))
  }

  lemma RekeyedSound<T(!new)>(sk: SortKey<T>, d: SlotData<T>, d': SlotData<T>, splitters: seq<nat>, hasOrder: bool,
                              orderStale: bool, c: Grouping, before: seq<T>, items: seq<T>, slot: nat, b: nat)
    requires Sound(sk, d, splitters, hasOrder, orderStale, c, before) && Describes(sk, d', items)
    requires slot < |before| == |items| && items == before[slot := items[slot]]
    requires d'.buckets == d.buckets[slot := b] && |d'.counts| == |d.counts|
    ensures Sound(sk, d', splitters, hasOrder, orderStale || (hasOrder && slot < c.orderedSlots),
                  if hasOrder then Marked(c, slot) else c, items)
    ensures (hasOrder ==> Ascends(sk, before, d.keys, c)) ==>
              (hasOrder ==> Ascends(sk, items, d'.keys, if hasOrder then Marked(c, slot) else c))
  {
    if hasOrder {
      RekeyKeepsGrouping(sk, before, d.keys, items, d'.keys, slot, c, d.buckets, |d.counts|, b);
    }
  }

  /** Sorts one bucket of a current grouping. */
  method SortOne<T(!new)>(sk: SortKey<T>, items: seq<T>, d: SlotData<T>, ghost splitters: seq<nat>, c0: Grouping,
                          b: nat)
    returns (c: Grouping)
    requires Sound(sk, d, splitters, true, false, c0, items) && b < |d.counts|
    ensures Sound(sk, d, splitters, true, false, c, items) && BucketSorted(c0, c, b)
    ensures c0.start[b] + c0.sortedLen[b] == c0.start[b + 1] ==> c == c0
    ensures Consistent(sk) && Ascends(sk, items, d.keys, c0) ==> Ascends(sk, items, d.keys, c)
  {
    if Consistent(sk) {
      IndexOrderIsTotal(sk, items, d.keys);
    }
    c := SortSegment(IndexOrder(sk, items, d.keys), c0, d.buckets, |d.counts|, b);
  }

  /** No removed slot is among the splitters. */
  ghost predicate SplittersKept(splitters: seq<nat>, remap: seq<nat>) {
    forall i :: 0 <= i < |splitters| && splitters[i] < |remap| ==> remap[splitters[i]] != REMOVED
  }

  class KeyState<T(!new)> {
    const sk: SortKey<T>
    var data: SlotData<T>             // always describes the elements exactly
    var estimatedFrom: nat            // with churn, decides when a stale layout is overdue
    var churn: nat                    // grows with every change that could alter the staleness verdict
    var staleCheckedAt: Option<nat>   // a churn value for which the verdict "not overdue" still holds
    var splitterSlots: seq<nat>       // ascending; a change at one of these calls for new layouts
    var splitterChanged: bool
    var hasOrder: bool                // whether `cache` means anything
    var orderStale: bool              // if false, `cache` covers every slot and no slot is marked
    var cache: Grouping

    /** Everything that holds whatever the comparator does. */
    ghost predicate Structure(items: seq<T>)
      reads this
    {
      |items| <= REMOVED && Sound(sk, data, splitterSlots, hasOrder, orderStale, cache, items)
    }

    /** What a consistent comparator adds: split points increase and recorded prefixes are sorted. */
    ghost predicate Ordered(items: seq<T>)
      reads this
    {
      LayoutsIncreasing(sk, data.layouts) && (hasOrder ==> Ascends(sk, items, data.keys, cache))
    }

    /** The layout is stale, and churn has reached the threshold for replacing it. */
    ghost predicate Overdue(items: seq<T>, plan: BucketPlan)
      reads this
    {
      && |data.counts| == |data.expected|
      && churn >= Max(plan.pageSize, estimatedFrom / 8)
      && Stale(|items|, estimatedFrom, data.counts, data.expected, plan)
    }

    /** The layouts were made from just these elements: exact where sampled, as planned where nothing ties. */
    ghost predicate Fresh(items: seq<T>, plan: BucketPlan)
      reads this
    {
      && churn == 0 && estimatedFrom == |items| && !splitterChanged
      && WellFormed(sk) && plan.WellFormed()
      && ExactWhereSampled(sk, items, data, plan) && PlannedWhereDistinct(sk, items, data, plan)
    }

    /** Stale, and changed often enough: as often as a page has elements, and as an eighth of those estimated from. */
    lemma OverdueExactly(items: seq<T>, plan: BucketPlan)
      requires |data.counts| == |data.expected| && plan.WellFormed()
      ensures Overdue(items, plan) <==>
          && churn >= plan.pageSize && 8 * churn + 7 >= estimatedFrom
          && Stale(|items|, estimatedFrom, data.counts, data.expected, plan)
    {
    }

    /** A verdict remembered for the current churn value is still true. */
    ghost predicate VerdictSound(items: seq<T>, plan: BucketPlan)
      reads this
    {
      staleCheckedAt.Some? ==>
          staleCheckedAt.value <= churn && (staleCheckedAt.value == churn ==> !Overdue(items, plan))
    }

    /** The grouping covers every slot and nothing is pending. */
    ghost predicate Current(items: seq<T>)
      reads this
    {
      Structure(items) && hasOrder && !orderStale
    }

    constructor (key: SortKey<T>, items: seq<T>, plan: BucketPlan)
      requires WellFormed(key) && Consistent(key) && plan.WellFormed() && |items| <= REMOVED
      ensures sk == key && Structure(items) && Ordered(items) && VerdictSound(items, plan) && Fresh(items, plan)
    {
      sk := key;
      data := SlotData([], [], [], [0], [], []);
      cache := Grouping([], [], [], 0, []);
      new;
      var keys := ReadKeys(key, items);
      Relayout(items, keys, plan);
    }

    /** Estimates new layouts and reassigns every element. The cached grouping is dropped. */
    method Relayout(items: seq<T>, keys: seq<Key64>, plan: BucketPlan)
      requires WellFormed(sk) && Consistent(sk) && plan.WellFormed() && |items| <= REMOVED
      requires KeysInSync(sk, items, keys)
      modifies this
      ensures Structure(items) && Ordered(items) && VerdictSound(items, plan)
      ensures !hasOrder && !splitterChanged && churn == 0 && staleCheckedAt == None && estimatedFrom == |items|
      ensures ExactWhereSampled(sk, items, data, plan) && PlannedWhereDistinct(sk, items, data, plan)
    {
      data, splitterSlots := FreshData(sk, items, keys, plan);
      splitterChanged, estimatedFrom := false, |items|;
      churn, staleCheckedAt := 0, None;
      hasOrder, orderStale := false, false;
      cache := Grouping([], [], [], 0, []);
    }

    /** append: the new element gets its bucket; a cached grouping becomes stale. */
    method Append(ghost items: seq<T>, x: T, ghost plan: BucketPlan)
      requires Structure(items) && |items| < REMOVED && VerdictSound(items, plan)
      modifies this
      ensures Structure(items + [x]) && VerdictSound(items + [x], plan)
      ensures old(Ordered(items)) ==> Ordered(items + [x])
      ensures churn == old(churn) + 1
    {
      ghost var data0 := data;
      var b;
      data, b := AppendData(sk, data, items, x);
      churn := churn + 1;
      if hasOrder {
        AppendKeepsCached(cache.order, cache.start, cache.sortedLen, cache.moved, data0.buckets, |data0.counts|, b);
        if old(Ordered(items)) {
          AppendKeepsAscending(sk, items, data0.keys, x, data.keys, cache.order, cache.start, cache.sortedLen,
              cache.moved);
        }
        orderStale := true;
      }
    }

    /** A splitter's element changed: the layouts must be made anew before long. */
    method NoteSplitter(slot: nat)
      requires AscendingNats(splitterSlots)
      modifies this`splitterChanged
      ensures splitterChanged <==> old(splitterChanged) || slot in splitterSlots
    {
      var found := Contains(splitterSlots, slot);
      splitterChanged := splitterChanged || found;
    }

    /** rekey: re-reads the key of a slot whose element changed and moves it to its new bucket. */
    method Rekey(ghost before: seq<T>, items: seq<T>, slot: nat, ghost plan: BucketPlan)
      requires Structure(before) && VerdictSound(before, plan)
      requires slot < |before| == |items| && items == before[slot := items[slot]]
      modifies this
      ensures Structure(items) && VerdictSound(items, plan)
      ensures old(Ordered(before)) ==> Ordered(items)
      ensures churn == old(churn) + 1
    {
      NoteSplitter(slot);
      ghost var data0 := data;
      churn := churn + 1;
      assert staleCheckedAt.Some? ==> staleCheckedAt.value < churn;
      var b;
      data, b := RekeyData(sk, data, before, items, slot);
      RekeyedSound(sk, data0, data, splitterSlots, hasOrder, orderStale, cache, before, items, slot, b);
      if hasOrder {
        orderStale := orderStale || slot < cache.orderedSlots;
        cache := Marked(cache, slot);
      }
    }

    /** Afterwards nothing is overdue, whether the verdict was remembered or worked out. */
    method MaybeAutoRebalance(items: seq<T>, plan: BucketPlan)
      requires Structure(items) && Ordered(items) && VerdictSound(items, plan) && Consistent(sk) && plan.WellFormed()
      modifies this
      ensures Structure(items) && Ordered(items) && VerdictSound(items, plan)
      ensures plan.autoRebalance ==> !Overdue(items, plan)
      ensures !plan.autoRebalance ==> unchanged(this)
    {
      if !plan.autoRebalance || staleCheckedAt == Some(churn) {
        return;
      }
      staleCheckedAt := Some(churn);
      if churn >= Max(plan.pageSize, estimatedFrom / 8) {
        var stale := IsStale(|items|, estimatedFrom, data.counts, data.expected, plan);
        if stale {
          Relayout(items, data.keys, plan);
        }
      }
    }

    /** Establishes what reads rely on: a grouping of all slots with nothing pending. */
    method Prepare(items: seq<T>, plan: BucketPlan)
      requires Structure(items) && Ordered(items) && VerdictSound(items, plan) && Consistent(sk) && plan.WellFormed()
      modifies this
      ensures Current(items) && Ordered(items) && VerdictSound(items, plan)
      ensures plan.autoRebalance ==> !Overdue(items, plan)
    {
      MaybeAutoRebalance(items, plan);
      if !hasOrder {
        BuildOrder(items);
      } else if orderStale {
        RegroupOrder(items);
      }
    }

    method BuildOrder(items: seq<T>)
      requires Structure(items)
      modifies this`cache, this`hasOrder, this`orderStale
      ensures Current(items)
      ensures LayoutsIncreasing(sk, data.layouts) ==> Ordered(items)
    {
      cache := BuildGrouping(data.buckets, data.counts);
      NothingSortedAscends(IndexOrder(sk, items, data.keys), cache.order, cache.start, cache.moved, |data.counts|);
      hasOrder, orderStale := true, false;
    }

    method RegroupOrder(items: seq<T>)
      requires Structure(items) && hasOrder
      modifies this`cache, this`orderStale
      ensures Current(items)
      ensures old(Ordered(items)) ==> Ordered(items)
    {
      ghost var cache0 := cache;
      cache := RegroupGrouping(cache, data.buckets, data.counts);
      if old(Ordered(items)) {
        RegroupedAscends(IndexOrder(sk, items, data.keys), cache0.order, cache0.start, cache0.sortedLen, cache0.moved,
                         data.buckets, |data.counts|, cache.order, cache.start, cache.sortedLen);
      }
      orderStale := false;
    }

    /** sort_bucket: afterwards the whole segment is recorded as sorted. */
    method SortBucket(items: seq<T>, b: nat)
      requires Current(items) && b < |data.counts|
      modifies this`cache
      ensures Current(items) && BucketSorted(old(cache), cache, b)
      ensures old(Full(b)) ==> cache == old(cache)
      ensures old(Ordered(items)) && Consistent(sk) ==> Ordered(items)
    {
      cache := SortOne(sk, items, data, splitterSlots, cache, b);
    }

    /** compact: carries everything over to the survivors, or starts anew if a splitter is gone. */
    method Compact(ghost before: seq<T>, items: seq<T>, remap: seq<nat>, kept: nat, plan: BucketPlan)
      requires Structure(before) && VerdictSound(before, plan) && plan.WellFormed()
      requires hasOrder ==> !orderStale
      requires IsRemap(remap) && |remap| == |before| && kept == KeptBefore(remap, |remap|) < |before|
      requires items == Compacted(remap, before)
      requires Consistent(sk) || SplittersKept(splitterSlots, remap)
      modifies this
      ensures Structure(items) && VerdictSound(items, plan)
      ensures old(Ordered(before)) ==> Ordered(items)
      ensures if SplittersKept(old(splitterSlots), remap)
              then data.layouts == old(data.layouts) && hasOrder == old(hasOrder)
              else !hasOrder && churn == 0
    {
      CompactedLength(remap, before);
      ghost var data0, cache0 := data, cache;
      data := CompactData(sk, data, before, remap, kept);
      churn := churn + (|remap| - kept);
      var splitters := RemapSplitters(splitterSlots, remap);
      if splitters.None? {
        Relayout(items, data.keys, plan);
        return;
      }
      splitterSlots := splitters.value;
      if hasOrder {
        cache := CompactGrouping(cache, data0.buckets, |data0.counts|, remap, kept);
        RemovedSegments(cache0.order, cache0.start, cache0.sortedLen, data0.buckets, remap, |data0.counts|,
                        cache.order, cache.start, cache.sortedLen);
        if old(Ordered(before)) {
          RemovalKeepsAscending(sk, before, data0.keys, data.keys, remap, cache0, data0.buckets, |data0.counts|, cache);
        }
      }
    }

    // --- reading ----------------------------------------------------------------------------

    /** bucket_at: the segment a position of the grouping lies in. */
    method BucketAt(ghost items: seq<T>, p: nat) returns (b: nat)
      requires Current(items) && p < |items|
      ensures b < |data.counts| && cache.start[b] <= p < cache.start[b + 1]
    {
      b := FindSegment(cache.start, |data.counts|, |items|, p);
    }

    /** to_ascending: where the grouping keeps what a reader finds at `p`. */
    method ToAscending(items: seq<T>, direction: Direction, p: nat) returns (q: nat)
      requires Current(items) && p < |items|
      ensures q == AscendingPosition(sk, direction, items, p)
    {
      q := FindAscendingPosition(sk, items, data, cache, direction, p);
    }

    /** The whole segment is recorded as sorted. */
    ghost predicate Full(b: nat)
      reads this
    {
      b < |cache.sortedLen| && |cache.start| == |cache.sortedLen| + 1
          && cache.start[b] + cache.sortedLen[b] == cache.start[b + 1]
    }
  }

  /** Every bucket of every completely sampled group is exact, so with all groups sampled every bucket is. */
  lemma AllBucketsExact<T(!new)>(sk: SortKey<T>, items: seq<T>, d: SlotData<T>, plan: BucketPlan, b: nat)
    requires Describes(sk, d, items) && ExactWhereSampled(sk, items, d, plan) && b < |d.counts|
    requires forall g :: 0 <= g < sk.groups ==> |Members(sk, items, g)| <= plan.sampleSize
    ensures d.counts[b] == d.expected[b]
  {
    var groups := |d.layouts|;
    forall g, h | 0 <= g <= h <= groups ensures d.groupOffset[g] <= d.groupOffset[h] {
      StartsAscend(d.groupOffset, Sizes(d.layouts), g, h);
    }
    var g := SegmentOf(d.groupOffset, groups, |d.counts|, b);
    assert GroupExact(d, g);
  }

  /** New layouts that saw every element are never stale, whatever the plan. */
  lemma SampledIsNotStale<T(!new)>(s: KeyState<T>, items: seq<T>, plan: BucketPlan)
    requires s.Structure(items) && s.Fresh(items, plan)
    requires forall g :: 0 <= g < s.sk.groups ==> |Members(s.sk, items, g)| <= plan.sampleSize
    ensures |s.data.counts| == |s.data.expected|
    ensures !Stale(|items|, s.estimatedFrom, s.data.counts, s.data.expected, plan)
  {
    forall b | 0 <= b < |s.data.counts| ensures !Overfull(s.data.counts, s.data.expected, plan, b) {
      AllBucketsExact(s.sk, items, s.data, plan, b);
      SkewLeavesRoom(s.data.counts[b], plan);
    }
  }

  lemma SkewLeavesRoom(n: nat, plan: BucketPlan)
    requires plan.WellFormed()
    ensures n as real <= plan.rebalanceSkew * (SkewFloor(n, plan.pageSize) as real)
  {
    var floor := SkewFloor(n, plan.pageSize) as real;
    GrowthKeeps(floor, plan.rebalanceSkew);
    assert n as real <= floor;
  }
}
