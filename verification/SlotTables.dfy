/** bucket_index.hpp, what a KeyState holds, as values: per-slot data with its layouts, and the cached grouping. */
module SlotTables {
  import opened Sequences
  import opened Orders
  import opened Searching
  import opened SortKeys
  import opened BucketPlans
  import opened BucketLayouts
  import opened LayoutEstimation
  import opened Groupings
  import opened Compaction
  import opened CacheInvariants
  import opened Assignments
  import SlotSorting

  /** The order inside a bucket; the slot number comes last, so no two slots tie. */
  function IndexOrder<T>(sk: SortKey<T>, items: seq<T>, keys: seq<Key64>): Comparator<nat> {
    (a: nat, b: nat) => if SlotOrder(sk, items, keys)(a, b) != 0 then SlotOrder(sk, items, keys)(a, b) else a - b
  }

  lemma IndexOrderIsTotal<T(!new)>(sk: SortKey<T>, items: seq<T>, keys: seq<Key64>)
    requires Consistent(sk) && KeysInSync(sk, items, keys)
    ensures TotalPreorder(IndexOrder(sk, items, keys))
  {
    SlotOrderIsPreorder(sk, items, keys);
    var c, o := IndexOrder(sk, items, keys), SlotOrder(sk, items, keys);
    forall a: nat, b: nat ensures c(a, b) < 0 <==> c(b, a) > 0 {
      Mirrors(o, a, b);
    }
    forall x: nat, y: nat, z: nat ensures Chains(c, x, y, z) {
      if c(x, y) <= 0 && c(y, z) <= 0 {
        StrictChain(o, x, y, z);
      }
    }
  }

  /** Slots whose elements and stored keys are the same in both collections compare the same. */
  lemma IndexOrderAgrees<T(!new)>(sk: SortKey<T>, items: seq<T>, keys: seq<Key64>, items': seq<T>, keys': seq<Key64>,
                                  a: nat, b: nat)
    requires KeysInSync(sk, items, keys) && KeysInSync(sk, items', keys')
    requires a < |items| && a < |items'| && items[a] == items'[a] && b < |items| && b < |items'|
    requires items[b] == items'[b]
    ensures IndexOrder(sk, items, keys)(a, b) == IndexOrder(sk, items', keys')(a, b)
  {
    if sk.key.Some? {
      assert keys[a] == keys'[a] && keys[b] == keys'[b];
    }
    var o, o' := SlotOrder(sk, items, keys), SlotOrder(sk, items', keys');
    assert o(a, b) == o'(a, b);
  }

  method ReadKeys<T(!new)>(sk: SortKey<T>, items: seq<T>) returns (keys: seq<Key64>)
    ensures KeysInSync(sk, items, keys)
  {
    keys := [];
    if sk.key.Some? {
      for s := 0 to |items|
        invariant |keys| == s && forall i :: 0 <= i < s ==> keys[i] == sk.Key(items[i])
      {
        keys := keys + [sk.key.value(items[s])];
      }
    }
  }

  ghost predicate AscendingNats(s: seq<nat>) {
    forall i, j :: 0 <= i < j < |s| ==> s[i] <= s[j]
  }

  function NatOrder(): Comparator<nat> {
    (a: nat, b: nat) => a - b
  }

  /** std::sort of the splitter slots. */
  lemma SortNats(s: seq<nat>)
    ensures AscendingNats(StableSort(NatOrder(), s))
    ensures multiset(StableSort(NatOrder(), s)) == multiset(s)
  {
    forall x: nat, y: nat, z: nat ensures Chains(NatOrder(), x, y, z) {
    }
    StableSortStable(NatOrder(), s);
    StableSortPermutes(NatOrder(), s);
    var r: seq<nat> := StableSort(NatOrder(), s);
    forall i, j | 0 <= i < j < |r| ensures r[i] <= r[j] {
      assert NatOrder()(r[i], r[j]) <= 0;
    }
  }

  function NotBelow(s: seq<nat>, x: nat): nat -> bool {
    (i: nat) => i < |s| ==> s[i] >= x
  }

  /** std::binary_search. */
  method Contains(s: seq<nat>, x: nat) returns (found: bool)
    requires AscendingNats(s)
    ensures found <==> x in s
  {
    var at := BinarySearch(NotBelow(s, x), |s|);
    PartitionPointCorrect(NotBelow(s, x), 0, |s|);
    found := at < |s| && s[at] == x;
    if x in s {
      var i :| 0 <= i < |s| && s[i] == x;
      assert NotBelow(s, x)(i);
      assert NotBelow(s, x)(at);
    }
  }

  /** First slots of every layout's splitters, sorted. */
  method CollectSplitters<T(!new)>(sk: SortKey<T>, items: seq<T>, layouts: seq<BucketLayout<T>>,
                                   ghost plan: BucketPlan) returns (slots: seq<nat>)
    requires AllEstimated(sk, items, layouts, plan)
    ensures AscendingNats(slots) && forall i :: 0 <= i < |slots| ==> slots[i] < |items|
    ensures forall g, e :: 0 <= g < |layouts| && 0 <= e < |layouts[g].splitterPositions| ==>
        layouts[g].splitterPositions[e] in slots
  {
    var all: seq<nat> := [];
    for g := 0 to |layouts|
      invariant forall i :: 0 <= i < |all| ==> all[i] < |items|
      invariant forall h, e :: 0 <= h < g && 0 <= e < |layouts[h].splitterPositions| ==>
          layouts[h].splitterPositions[e] in all
    {
      assert Estimated(layouts[g], sk, items, Members(sk, items, g), plan);
      all := all + layouts[g].splitterPositions;
    }
    SortNats(all);
    slots := StableSort(NatOrder(), all);
    forall i | 0 <= i < |slots| ensures slots[i] < |items| {
      assert slots[i] in multiset(slots);
      assert slots[i] in all;
    }
    forall x | x in all ensures x in slots {
      assert x in multiset(all);
      assert x in multiset(slots);
    }
  }

  /** The expected sizes of group `g` stand at its bucket ids. */
  ghost predicate ListsGroup<T>(layouts: seq<BucketLayout<T>>, offset: seq<nat>, expected: seq<nat>, g: nat)
    requires g < |layouts| && g < |offset|
  {
    && offset[g] + layouts[g].BucketCount() <= |expected|
    && expected[offset[g]..offset[g] + layouts[g].BucketCount()] == layouts[g].expected
  }

  /** Offsets of the groups' bucket ids, and the expected sizes of all buckets in id order. */
  method LayOut<T(!new)>(layouts: seq<BucketLayout<T>>) returns (offset: seq<nat>, expected: seq<nat>)
    ensures IsStarts(offset, Sizes(layouts)) && |expected| == offset[|layouts|]
    ensures forall g :: 0 <= g < |layouts| ==> ListsGroup(layouts, offset, expected, g)
  {
    offset, expected := [0], [];
    for g := 0 to |layouts|
      invariant |offset| == g + 1 && offset[0] == 0 && |expected| == offset[g]
      invariant forall h :: 0 <= h < g ==> offset[h + 1] == offset[h] + Sizes(layouts)[h]
      invariant forall h :: 0 <= h < g ==> ListsGroup(layouts, offset, expected, h)
    {
      ghost var offset0, expected0 := offset, expected;
      offset := offset + [offset[g] + layouts[g].BucketCount()];
      expected := expected + layouts[g].expected;
      forall h | 0 <= h < g ensures ListsGroup(layouts, offset, expected, h) {
        assert ListsGroup(layouts, offset0, expected0, h);
        assert expected[offset[h]..offset[h] + layouts[h].BucketCount()]
            == expected0[offset[h]..offset[h] + layouts[h].BucketCount()];
      }
      assert ListsGroup(layouts, offset, expected, g);
    }
  }

  lemma AssignedAppend<T(!new)>(sk: SortKey<T>, layouts: seq<BucketLayout<T>>, offset: seq<nat>, items: seq<T>,
                                buckets: seq<nat>, x: T)
    requires WellFormed(sk) && |layouts| == sk.groups && |offset| == |layouts| + 1
    requires Assigned(sk, layouts, offset, items, buckets)
    ensures Assigned(sk, layouts, offset, items + [x], buckets + [BucketFor(sk, layouts, offset, x)])
  {
    var items', buckets' := items + [x], buckets + [BucketFor(sk, layouts, offset, x)];
    forall s | 0 <= s < |items'| ensures AssignedAt(sk, layouts, offset, items', buckets', s) {
      assert s < |items| ==> AssignedAt(sk, layouts, offset, items, buckets, s);
    }
  }

  lemma AssignedUpdate<T(!new)>(sk: SortKey<T>, layouts: seq<BucketLayout<T>>, offset: seq<nat>, before: seq<T>,
                                items: seq<T>, buckets: seq<nat>, slot: nat)
    requires WellFormed(sk) && |layouts| == sk.groups && |offset| == |layouts| + 1
    requires Assigned(sk, layouts, offset, before, buckets)
    requires slot < |before| == |items| && items == before[slot := items[slot]]
    ensures Assigned(sk, layouts, offset, items, buckets[slot := BucketFor(sk, layouts, offset, items[slot])])
  {
    var buckets' := buckets[slot := BucketFor(sk, layouts, offset, items[slot])];
    forall s | 0 <= s < |items| ensures AssignedAt(sk, layouts, offset, items, buckets', s) {
      assert AssignedAt(sk, layouts, offset, before, buckets, s);
    }
  }

  lemma ExpectedMatchesCounts<T(!new)>(sk: SortKey<T>, items: seq<T>, plan: BucketPlan, d: SlotData<T>, g: nat)
    requires WellFormed(sk) && LayoutsShaped(sk, d.layouts, d.groupOffset) && AllEstimated(sk, items, d.layouts, plan)
    requires Assigned(sk, d.layouts, d.groupOffset, items, d.buckets) && CountsMatch(d.counts, d.buckets)
    requires |d.counts| == |d.expected| == d.groupOffset[|d.layouts|]
    requires g < |d.layouts| && |Members(sk, items, g)| <= plan.sampleSize
    requires ListsGroup(d.layouts, d.groupOffset, d.expected, g)
    ensures GroupExact(d, g)
  {
    forall local | 0 <= local < d.layouts[g].BucketCount()
      ensures CountIs(d.counts, d.groupOffset[g] + local, d.layouts[g].expected[local])
    {
      ExpectedIsActual(sk, items, d.layouts, d.groupOffset, plan, d.buckets, d.counts, g, local);
    }
    assert d.groupOffset[g + 1] == d.groupOffset[g] + Sizes(d.layouts)[g];
    SegmentExact(d.counts, d.expected, d.groupOffset[g], d.layouts[g].expected);
  }

  ghost predicate CountIs(counts: seq<nat>, b: nat, n: nat) {
    b < |counts| && counts[b] == n
  }

  lemma SegmentExact(counts: seq<nat>, expected: seq<nat>, lo: nat, part: seq<nat>)
    requires lo + |part| <= |expected| && expected[lo..lo + |part|] == part
    requires forall k :: 0 <= k < |part| ==> CountIs(counts, lo + k, part[k])
    ensures forall b :: lo <= b < lo + |part| ==> CountIs(counts, b, expected[b])
  {
    forall b | lo <= b < lo + |part| ensures CountIs(counts, b, expected[b]) {
      SliceAt(expected, lo, lo + |part|, b - lo);
      assert CountIs(counts, lo + (b - lo), part[b - lo]);
    }
  }

  // --- per-slot data ----------------------------------------------------------------------

  /** What one sort key knows about every slot, and the layouts it knows it from. */
  datatype SlotData<!T> = SlotData(
    keys: seq<Key64>,                  // in step with the elements, or empty for comparator-only keys
    buckets: seq<nat>,                 // what the layouts assign to each element
    layouts: seq<BucketLayout<T>>,     // indexed by group
    groupOffset: seq<nat>,             // cuts the bucket ids into groups
    expected: seq<nat>,                // indexed by bucket id, as `counts` is
    counts: seq<nat>)                  // multiplicities of the ids in `buckets`

  /** Lengths, keys and counts fit `items`; which bucket a slot is in is left open. */
  ghost predicate Tallied<T(!new)>(sk: SortKey<T>, d: SlotData<T>, items: seq<T>) {
    && WellFormed(sk) && LayoutsShaped(sk, d.layouts, d.groupOffset)
    && |d.expected| == |d.counts| == d.groupOffset[|d.layouts|]
    && KeysInSync(sk, items, d.keys)
    && |d.buckets| == |items| && CountsMatch(d.counts, d.buckets)
  }

  /** The data describes `items`: every stored bucket id is the one the layouts assign, for any comparator. */
  ghost predicate Describes<T(!new)>(sk: SortKey<T>, d: SlotData<T>, items: seq<T>) {
    Tallied(sk, d, items) && Assigned(sk, d.layouts, d.groupOffset, items, d.buckets)
  }

  /** Every bucket of group `g` holds as many elements as predicted. */
  ghost predicate GroupExact<T>(d: SlotData<T>, g: nat) {
    && g + 1 < |d.groupOffset|
    && forall b :: d.groupOffset[g] <= b < d.groupOffset[g + 1] ==>
         b < |d.counts| && b < |d.expected| && d.counts[b] == d.expected[b]
  }

  /** So does every bucket of every group small enough to be sampled completely. */
  ghost predicate ExactWhereSampled<T(!new)>(sk: SortKey<T>, items: seq<T>, d: SlotData<T>, plan: BucketPlan) {
    forall g :: 0 <= g < sk.groups && |Members(sk, items, g)| <= plan.sampleSize ==> GroupExact(d, g)
  }

  /** The buckets of group `g` hold what `plan` asks for when it is given n elements. */
  ghost predicate GroupPlanned<T>(d: SlotData<T>, g: nat, plan: BucketPlan, n: nat)
    requires plan.WellFormed()
  {
    && g + 1 < |d.groupOffset| && d.groupOffset[g] <= d.groupOffset[g + 1] <= |d.counts|
    && AsPlanned(plan, n, d.counts[d.groupOffset[g]..d.groupOffset[g + 1]])
  }

  ghost predicate DistinctAndSampled<T>(sk: SortKey<T>, items: seq<T>, plan: BucketPlan, g: nat) {
    |Members(sk, items, g)| <= plan.sampleSize && AllDiffer(sk, items, Members(sk, items, g))
  }

  /** So do the buckets of every group without ties that was sampled completely. */
  ghost predicate PlannedWhereDistinct<T(!new)>(sk: SortKey<T>, items: seq<T>, d: SlotData<T>, plan: BucketPlan)
    requires WellFormed(sk) && plan.WellFormed()
  {
    forall g :: 0 <= g < sk.groups && DistinctAndSampled(sk, items, plan, g) ==>
      GroupPlanned(d, g, PerGroup(plan, sk.groups), |Members(sk, items, g)|)
  }

  lemma ExactIsPlanned<T(!new)>(sk: SortKey<T>, items: seq<T>, plan: BucketPlan, d: SlotData<T>, g: nat)
    requires WellFormed(sk) && LayoutsShaped(sk, d.layouts, d.groupOffset) && AllEstimated(sk, items, d.layouts, plan)
    requires |d.counts| == |d.expected| == d.groupOffset[|d.layouts|] && plan.WellFormed()
    requires g < |d.layouts| && DistinctAndSampled(sk, items, plan, g)
    requires ListsGroup(d.layouts, d.groupOffset, d.expected, g) && GroupExact(d, g)
    ensures GroupPlanned(d, g, plan, |Members(sk, items, g)|)
  {
    var lo, hi := d.groupOffset[g], d.groupOffset[g + 1];
    assert Estimated(d.layouts[g], sk, items, Members(sk, items, g), plan);
    assert hi == lo + Sizes(d.layouts)[g];
    StartsAscend(d.groupOffset, Sizes(d.layouts), g + 1, |d.layouts|);
    SegmentsAgree(d.counts, d.expected, lo, hi);
  }

  lemma SegmentsAgree(s: seq<nat>, t: seq<nat>, lo: nat, hi: nat)
    requires lo <= hi <= |s| && hi <= |t| && forall b :: lo <= b < hi ==> s[b] == t[b]
    ensures s[lo..hi] == t[lo..hi]
  {
  }

  /** Every splitter is an element of `items`, taken from one of `slots`. */
  ghost predicate SplittersFrom<T>(layouts: seq<BucketLayout<T>>, items: seq<T>, slots: seq<nat>) {
    forall g, e :: 0 <= g < |layouts| && 0 <= e < |layouts[g].splitters| ==> SplitterFrom(layouts[g], items, slots, e)
  }

  ghost predicate SplitterFrom<T>(layout: BucketLayout<T>, items: seq<T>, slots: seq<nat>, e: nat) {
    && e < |layout.splitters| == |layout.splitterPositions|
    && layout.splitterPositions[e] in slots && layout.splitterPositions[e] < |items|
    && layout.splitters[e] == items[layout.splitterPositions[e]]
  }

  lemma EstimatedSplitters<T(!new)>(sk: SortKey<T>, items: seq<T>, layouts: seq<BucketLayout<T>>, plan: BucketPlan,
                                    slots: seq<nat>)
    requires AllEstimated(sk, items, layouts, plan)
    requires forall g, e :: 0 <= g < |layouts| && 0 <= e < |layouts[g].splitterPositions| ==>
        layouts[g].splitterPositions[e] in slots
    ensures SplittersFrom(layouts, items, slots)
  {
    forall g, e | 0 <= g < |layouts| && 0 <= e < |layouts[g].splitters|
      ensures SplitterFrom(layouts[g], items, slots, e)
    {
      assert Estimated(layouts[g], sk, items, Members(sk, items, g), plan);
    }
  }

  /** New layouts for all groups, and what they say about every element. */
  method FreshData<T(!new)>(sk: SortKey<T>, items: seq<T>, keys: seq<Key64>, plan: BucketPlan)
    returns (d: SlotData<T>, splitters: seq<nat>)
    requires WellFormed(sk) && Consistent(sk) && plan.WellFormed() && KeysInSync(sk, items, keys)
    ensures Describes(sk, d, items) && d.keys == keys && LayoutsIncreasing(sk, d.layouts)
    ensures AscendingNats(splitters) && forall i :: 0 <= i < |splitters| ==> splitters[i] < |items|
    ensures SplittersFrom(d.layouts, items, splitters)
    ensures ExactWhereSampled(sk, items, d, plan) && PlannedWhereDistinct(sk, items, d, plan)
  {
    ghost var used := PerGroup(plan, sk.groups);
    var layouts := EstimateLayouts(sk, items, keys, plan);
    var offset, expected := LayOut(layouts);
    TotalFits(sk, items, layouts, offset, used);
    splitters := CollectSplitters(sk, items, layouts, used);
    EstimatedSplitters(sk, items, layouts, used, splitters);
    var buckets, counts := AssignBuckets(sk, layouts, offset, items, keys);
    d := SlotData(keys, buckets, layouts, offset, expected, counts);
    forall g | 0 <= g < sk.groups && |Members(sk, items, g)| <= plan.sampleSize ensures GroupExact(d, g) {
      ExpectedMatchesCounts(sk, items, used, d, g);
    }
    forall g | 0 <= g < sk.groups && DistinctAndSampled(sk, items, plan, g)
      ensures GroupPlanned(d, g, used, |Members(sk, items, g)|)
    {
      ExactIsPlanned(sk, items, used, d, g);
    }
  }

  method AppendData<T(!new)>(sk: SortKey<T>, d0: SlotData<T>, ghost items: seq<T>, x: T)
    returns (d: SlotData<T>, b: nat)
    requires Describes(sk, d0, items)
    ensures Describes(sk, d, items + [x])
    ensures d.layouts == d0.layouts && d.groupOffset == d0.groupOffset && d.expected == d0.expected
    ensures d.buckets == d0.buckets + [b]
  {
    var key: Key64, keys := 0, d0.keys;
    if sk.key.Some? {
      key := sk.key.value(x);
      keys := keys + [key];
    }
    b := FindBucketFor(sk, d0.layouts, d0.groupOffset, x, key);
    assert Cast16(b) == b;
    CountsAppend(d0.counts, d0.buckets, b);
    AssignedAppend(sk, d0.layouts, d0.groupOffset, items, d0.buckets, x);
    d := d0.(keys := keys, buckets := d0.buckets + [Cast16(b)], counts := d0.counts[b := d0.counts[b] + 1]);
  }

  /** rekey: re-reads one slot's key and moves it to the bucket the layouts now lead to, right or wrong. */
  method RekeySlot<T(!new)>(sk: SortKey<T>, d0: SlotData<T>, ghost before: seq<T>, x: T, slot: nat)
    returns (d: SlotData<T>, b: nat)
    requires Tallied(sk, d0, before) && slot < |before|
    ensures Tallied(sk, d, before[slot := x])
    ensures d == d0.(keys := d.keys, buckets := d0.buckets[slot := b], counts := d.counts)
    ensures b == BucketFor(sk, d0.layouts, d0.groupOffset, x)
  {
    var keys := d0.keys;
    if sk.key.Some? {
      keys := keys[slot := sk.key.value(x)];
    }
    b := FindBucketFor(sk, d0.layouts, d0.groupOffset, x, if sk.key.Some? then keys[slot] else 0);
    assert Cast16(b) == b;
    CountsUpdate(d0.counts, d0.buckets, slot, b);
    var counts := d0.counts[d0.buckets[slot] := d0.counts[d0.buckets[slot]] - 1];
    d := d0.(keys := keys, buckets := d0.buckets[slot := Cast16(b)], counts := counts[b := counts[b] + 1]);
  }

  method RekeyData<T(!new)>(sk: SortKey<T>, d0: SlotData<T>, ghost before: seq<T>, items: seq<T>, slot: nat)
    returns (d: SlotData<T>, b: nat)
    requires Describes(sk, d0, before) && slot < |before| == |items| && items == before[slot := items[slot]]
    ensures Describes(sk, d, items)
    ensures d.layouts == d0.layouts && d.groupOffset == d0.groupOffset && d.expected == d0.expected
    ensures d.buckets == d0.buckets[slot := b]
  {
    d, b := RekeySlot(sk, d0, before, items[slot], slot);
    AssignedUpdate(sk, d0.layouts, d0.groupOffset, before, items, d0.buckets, slot);
  }

  /** Per-slot data of the survivors: aligned with them, counts exact. */
  method CompactData<T(!new)>(sk: SortKey<T>, d0: SlotData<T>, ghost items: seq<T>, remap: seq<nat>, kept: nat)
    returns (d: SlotData<T>)
    requires Describes(sk, d0, items) && |remap| == |items| && IsRemap(remap) && kept == KeptBefore(remap, |remap|)
    ensures Describes(sk, d, Compacted(remap, items))
    ensures d.layouts == d0.layouts && d.groupOffset == d0.groupOffset && d.expected == d0.expected
    ensures d.buckets == Compacted<nat>(remap, d0.buckets)
  {
    var keys, buckets, counts := CompactArrays(sk.key.Some?, d0.keys, d0.buckets, d0.counts, remap, kept);
    CompactedDescribes(sk, d0, items, remap, keys, buckets, counts);
    d := d0.(keys := keys, buckets := buckets, counts := counts);
  }

  /** The arrays alone: this much of a removal looks at no element. */
  method CompactArrays(keyed: bool, keys: seq<Key64>, buckets: seq<nat>, counts: seq<nat>, remap: seq<nat>, kept: nat)
    returns (keys': seq<Key64>, buckets': seq<nat>, counts': seq<nat>)
    requires |remap| == |buckets| && kept == KeptBefore(remap, |remap|) && CountsMatch(counts, buckets)
    requires keyed ==> |keys| == |buckets|
    ensures keys' == if keyed then Compacted<Key64>(remap, keys) else keys
    ensures buckets' == Compacted<nat>(remap, buckets) && |counts'| == |counts| && CountsMatch(counts', buckets')
  {
    counts' := CompactCounts(remap, buckets, counts);
    keys' := keys;
    if keyed {
      keys' := CompactInPlace(remap, keys, kept);
    }
    buckets' := CompactInPlace(remap, buckets, kept);
  }

  lemma CompactedDescribes<T(!new)>(sk: SortKey<T>, d: SlotData<T>, items: seq<T>, remap: seq<nat>, keys: seq<Key64>,
                                    buckets: seq<nat>, counts: seq<nat>)
    requires Describes(sk, d, items) && |remap| == |items|
    requires keys == if sk.key.Some? then Compacted<Key64>(remap, d.keys) else d.keys
    requires buckets == Compacted<nat>(remap, d.buckets) && |counts| == |d.counts| && CountsMatch(counts, buckets)
    ensures Describes(sk, d.(keys := keys, buckets := buckets, counts := counts), Compacted(remap, items))
  {
    if sk.key.Some? {
      CompactedKeys(sk, items, d.keys, remap);
    }
    CompactedAssigned(sk, d.layouts, d.groupOffset, items, d.buckets, remap);
  }

  lemma CompactedKeys<T(!new)>(sk: SortKey<T>, items: seq<T>, keys: seq<Key64>, remap: seq<nat>)
    requires sk.key.Some? && KeysInSync(sk, items, keys) && |items| <= |remap|
    ensures KeysInSync(sk, Compacted(remap, items), Compacted<Key64>(remap, keys))
  {
    CompactedMap<T, Key64>(remap, items, keys, x => sk.Key(x));
  }

  lemma CompactedAssigned<T(!new)>(sk: SortKey<T>, layouts: seq<BucketLayout<T>>, offset: seq<nat>, items: seq<T>,
                                   buckets: seq<nat>, remap: seq<nat>)
    requires WellFormed(sk) && |layouts| == sk.groups && |offset| == |layouts| + 1
    requires Assigned(sk, layouts, offset, items, buckets)
    requires |items| <= |remap|
    ensures Assigned(sk, layouts, offset, Compacted(remap, items), Compacted<nat>(remap, buckets))
  {
    forall s | 0 <= s < |items| ensures buckets[s] == BucketFor(sk, layouts, offset, items[s]) {
      assert AssignedAt(sk, layouts, offset, items, buckets, s);
    }
    CompactedMap<T, nat>(remap, items, buckets, x => BucketFor(sk, layouts, offset, x));
  }

  // --- the cached grouping --------------------------------------------------------------------

  datatype Grouping = Grouping(
    order: seq<nat>,           // a permutation of the first `orderedSlots` slots
    start: seq<nat>,           // cuts `order` into one segment per bucket
    sortedLen: seq<nat>,       // how far each segment is known to ascend
    orderedSlots: nat,         // later slots are pending
    moved: seq<bool>)          // marked slots may stand in a foreign segment

  ghost predicate Groups(c: Grouping, buckets: seq<nat>, k: nat) {
    c.orderedSlots == |c.moved| && Cached(c.order, c.start, c.sortedLen, c.moved, buckets, k)
  }

  /** Recorded sorted prefixes are sorted by key, tie-breaker and slot. */
  ghost predicate Ascends<T>(sk: SortKey<T>, items: seq<T>, keys: seq<Key64>, c: Grouping) {
    PrefixesAscend(IndexOrder(sk, items, keys), c.order, c.start, c.sortedLen, c.moved)
  }

  /** Adding an element does not touch the order of the others. */
  lemma AppendKeepsAscending<T(!new)>(sk: SortKey<T>, items: seq<T>, keys: seq<Key64>, x: T, keys': seq<Key64>,
                                      order: seq<nat>, start: seq<nat>, sortedLen: seq<nat>, moved: seq<bool>)
    requires KeysInSync(sk, items, keys) && KeysInSync(sk, items + [x], keys') && |moved| <= |items|
    requires PrefixesAscend(IndexOrder(sk, items, keys), order, start, sortedLen, moved)
    ensures PrefixesAscend(IndexOrder(sk, items + [x], keys'), order, start, sortedLen, moved)
  {
    var c, d := IndexOrder(sk, items, keys), IndexOrder(sk, items + [x], keys');
    forall s: nat, t: nat | Stays(moved)(s) && Stays(moved)(t) ensures c(s, t) == d(s, t) {
      IndexOrderAgrees(sk, items, keys, items + [x], keys', s, t);
    }
    AgreeingAscends(c, d, order, start, sortedLen, moved, moved);
  }

  /** Changing an element does not touch the order of the others. */
  lemma UpdateKeepsAscending<T(!new)>(sk: SortKey<T>, before: seq<T>, keys: seq<Key64>, items: seq<T>,
                                      keys': seq<Key64>, slot: nat,
                                      order: seq<nat>, start: seq<nat>, sortedLen: seq<nat>, moved: seq<bool>,
                                      moved': seq<bool>)
    requires KeysInSync(sk, before, keys) && KeysInSync(sk, items, keys') && |moved| <= |before|
    requires slot < |before| == |items| && items == before[slot := items[slot]] && moved' == MarkMoved(moved, slot)
    requires PrefixesAscend(IndexOrder(sk, before, keys), order, start, sortedLen, moved)
    ensures PrefixesAscend(IndexOrder(sk, items, keys'), order, start, sortedLen, moved')
  {
    var c, d := IndexOrder(sk, before, keys), IndexOrder(sk, items, keys');
    forall s: nat, t: nat | Stays(moved')(s) && Stays(moved')(t) ensures c(s, t) == d(s, t) {
      IndexOrderAgrees(sk, before, keys, items, keys', s, t);
    }
    AgreeingAscends(c, d, order, start, sortedLen, moved, moved');
  }


  /** The grouping with one slot marked for re-placement, if it holds the slot. */
  function Marked(c: Grouping, slot: nat): Grouping {
    c.(moved := MarkMoved(c.moved, slot))
  }

  lemma RekeyKeepsGrouping<T(!new)>(sk: SortKey<T>, before: seq<T>, keys: seq<Key64>, items: seq<T>,
                                    keys': seq<Key64>, slot: nat,
                                    c: Grouping, buckets: seq<nat>, k: nat, b: nat)
    requires Groups(c, buckets, k) && slot < |before| == |items| == |buckets| && items == before[slot := items[slot]]
    requires KeysInSync(sk, before, keys) && KeysInSync(sk, items, keys')
    ensures Groups(Marked(c, slot), buckets[slot := b], k)
    ensures Ascends(sk, before, keys, c) ==> Ascends(sk, items, keys', Marked(c, slot))
  {
    UpdateKeepsCached(c.order, c.start, c.sortedLen, c.moved, buckets, k, slot, b);
    if Ascends(sk, before, keys, c) {
      UpdateKeepsAscending(sk, before, keys, items, keys', slot, c.order, c.start, c.sortedLen, c.moved,
          MarkMoved(c.moved, slot));
    }
  }

  /** build_order: a grouping that claims no order inside its segments. */
  method BuildGrouping(buckets: seq<nat>, counts: seq<nat>) returns (c: Grouping)
    requires CountsMatch(counts, buckets)
    ensures Groups(c, buckets, |counts|) && c.moved == NoneMoved(|buckets|)
    ensures c.sortedLen == Zeros(|counts|) && IsStarts(c.start, counts)
  {
    var order, start := CountingSort(buckets, counts);
    IotaElements(|buckets|);
    forall b | 0 <= b < |counts| ensures start[b] + Zeros(|counts|)[b] <= start[b + 1] {
    }
    GroupedIsCached(order, start, buckets, |counts|, Iota(0, |buckets|), Zeros(|counts|));
    c := Grouping(order, start, Zeros(|counts|), |buckets|, NoneMoved(|buckets|));
  }

  /** regroup: every slot in its bucket, nothing pending, surviving sorted prefixes still in front. */
  method RegroupGrouping(c0: Grouping, buckets: seq<nat>, counts: seq<nat>) returns (c: Grouping)
    requires CountsMatch(counts, buckets) && Groups(c0, buckets, |counts|)
    ensures Groups(c, buckets, |counts|) && c.moved == NoneMoved(|buckets|) && IsStarts(c.start, counts)
    ensures Regrouped(c0.order, c0.start, c0.sortedLen, c0.moved, buckets, |counts|, c.order, c.start, c.sortedLen)
  {
    var order, start, sortedLen := Regroup(c0.order, c0.start, c0.sortedLen, c0.moved, buckets, counts);
    RegroupedIsCached(c0.order, c0.start, c0.sortedLen, c0.moved, buckets, |counts|, order, start, sortedLen);
    c := Grouping(order, start, sortedLen, |buckets|, NoneMoved(|buckets|));
  }

  /** compact: the grouping of the survivors. */
  method CompactGrouping(c0: Grouping, ghost buckets: seq<nat>, ghost k: nat, remap: seq<nat>, kept: nat)
    returns (c: Grouping)
    requires Groups(c0, buckets, k) && c0.moved == NoneMoved(|buckets|)
    requires IsRemap(remap) && |remap| == |buckets| && kept == KeptBefore(remap, |remap|)
    ensures Groups(c, Compacted<nat>(remap, buckets), k) && c.moved == NoneMoved(kept)
    ensures Removed(c0.order, c0.start, c0.sortedLen, buckets, remap, k, c.order, c.start, c.sortedLen)
  {
    KeptCount(c0.order, remap);
    forall b | 0 <= b < k ensures c0.start[b] + c0.sortedLen[b] <= c0.start[b + 1] {
      assert SegmentCached(c0.order, c0.start, c0.sortedLen, c0.moved, buckets, b);
    }
    var order, start, sortedLen := CompactOrder(c0.order, c0.start, c0.sortedLen, remap, kept);
    RemovedIsCached(c0.order, c0.start, c0.sortedLen, buckets, remap, k, order, start, sortedLen);
    c := Grouping(order, start, sortedLen, kept, NoneMoved(kept));
  }

  /** Segment `b` rearranged, everything else as before. */
  ghost predicate SegmentRearranged(order: seq<nat>, order': seq<nat>, lo: nat, hi: nat) {
    && |order'| == |order| && lo <= hi <= |order|
    && (forall x :: 0 <= x < lo || hi <= x < |order| ==> order'[x] == order[x])
    && multiset(order'[lo..hi]) == multiset(order[lo..hi])
  }

  lemma RearrangedPermutes(order: seq<nat>, order': seq<nat>, lo: nat, hi: nat, n: nat)
    requires SegmentRearranged(order, order', lo, hi) && IsPermutation(order, n)
    ensures IsPermutation(order', n)
  {
    assert order'[0..lo] == order[0..lo] && order'[hi..] == order[hi..];
    ThreeSlices(order, lo, hi);
    ThreeSlices(order', lo, hi);
    PermutationTransfers(order, order', n);
  }

  lemma RearrangedOrigin(order: seq<nat>, order': seq<nat>, lo: nat, hi: nat, x: nat) returns (y: nat)
    requires SegmentRearranged(order, order', lo, hi) && lo <= x < hi
    ensures lo <= y < hi && order[y] == order'[x]
  {
    assert order'[lo..hi][x - lo] in multiset(order'[lo..hi]);
    assert order'[x] in order[lo..hi];
    var i :| 0 <= i < hi - lo && order[lo..hi][i] == order'[x];
    y := lo + i;
  }

  /** Sorting one segment keeps the grouping, whatever the comparator. */
  lemma RearrangedGroups(c: Grouping, buckets: seq<nat>, k: nat, b: nat, order': seq<nat>)
    requires Groups(c, buckets, k) && c.moved == NoneMoved(|buckets|) && b < k
    requires SegmentRearranged(c.order, order', c.start[b], c.start[b + 1])
    ensures Groups(c.(order := order', sortedLen := c.sortedLen[b := c.start[b + 1] - c.start[b]]), buckets, k)
  {
    var c' := c.(order := order', sortedLen := c.sortedLen[b := c.start[b + 1] - c.start[b]]);
    RearrangedPermutes(c.order, order', c.start[b], c.start[b + 1], |c.moved|);
    forall d | 0 <= d < k ensures SegmentCached(order', c.start, c'.sortedLen, c.moved, buckets, d) {
      assert SegmentCached(c.order, c.start, c.sortedLen, c.moved, buckets, d);
      assert d < b ==> c.start[d + 1] <= c.start[b];
      assert b < d ==> c.start[b + 1] <= c.start[d];
      if d == b {
        forall x | c.start[b] <= x < c.start[b + 1] && Stays(c.moved)(order'[x])
          ensures InBucket(buckets, b)(order'[x])
        {
          var y := RearrangedOrigin(c.order, order', c.start[b], c.start[b + 1], x);
          assert Stays(c.moved)(c.order[y]);
        }
      }
    }
  }

  lemma RearrangedAscends(cmp: Comparator<nat>, c: Grouping, buckets: seq<nat>, k: nat, b: nat, order': seq<nat>)
    requires Groups(c, buckets, k) && b < k
    requires SegmentRearranged(c.order, order', c.start[b], c.start[b + 1])
    requires Ascending(cmp, order'[c.start[b]..c.start[b + 1]])
    requires PrefixesAscend(cmp, c.order, c.start, c.sortedLen, c.moved)
    ensures PrefixesAscend(cmp, order', c.start, c.sortedLen[b := c.start[b + 1] - c.start[b]], c.moved)
  {
    var lo, hi := c.start[b], c.start[b + 1];
    var sortedLen' := c.sortedLen[b := hi - lo];
    forall d | 0 <= d < k
      ensures c.start[d] + sortedLen'[d] <= |order'| && SegmentAscends(cmp, order', c.start, sortedLen', c.moved, d)
    {
      assert SegmentCached(c.order, c.start, c.sortedLen, c.moved, buckets, d);
      assert SegmentAscends(cmp, c.order, c.start, c.sortedLen, c.moved, d);
      assert d < b ==> c.start[d + 1] <= lo;
      assert b < d ==> hi <= c.start[d];
      if d == b {
        forall x, y | lo <= x < y < hi ensures cmp(order'[x], order'[y]) <= 0 {
          assert order'[lo..hi][x - lo] == order'[x] && order'[lo..hi][y - lo] == order'[y];
        }
      }
    }
  }

  /** Only the segment of bucket `b` was rearranged, and all of it is recorded as sorted. */
  ghost predicate BucketSorted(c0: Grouping, c: Grouping, b: nat) {
    && c.start == c0.start && b + 1 < |c.start| && c.start[b] <= c.start[b + 1]
    && SegmentRearranged(c0.order, c.order, c.start[b], c.start[b + 1])
    && b < |c0.sortedLen| && c.sortedLen == c0.sortedLen[b := c.start[b + 1] - c.start[b]]
  }

  /** sort_bucket: afterwards the whole segment is known to ascend; the other segments are untouched. */
  method SortSegment(cmp: Comparator<nat>, c0: Grouping, ghost buckets: seq<nat>, ghost k: nat, b: nat)
    returns (c: Grouping)
    requires Groups(c0, buckets, k) && c0.moved == NoneMoved(|buckets|) && b < k
    ensures Groups(c, buckets, k) && c.moved == c0.moved && BucketSorted(c0, c, b)
    ensures c0.sortedLen[b] == c0.start[b + 1] - c0.start[b] ==> c == c0
    ensures TotalPreorder(cmp) && PrefixesAscend(cmp, c0.order, c0.start, c0.sortedLen, c0.moved)
            ==> PrefixesAscend(cmp, c.order, c.start, c.sortedLen, c.moved)
  {
    assert SegmentCached(c0.order, c0.start, c0.sortedLen, c0.moved, buckets, b);
    var from, to, sorted := c0.start[b], c0.start[b + 1], c0.sortedLen[b];
    if sorted == to - from {
      assert c0.sortedLen[b := to - from] == c0.sortedLen;
      return c0;
    }
    var order := SortRange(cmp, c0.order, from, from + sorted, to);
    RearrangedGroups(c0, buckets, k, b, order);
    if TotalPreorder(cmp) && PrefixesAscend(cmp, c0.order, c0.start, c0.sortedLen, c0.moved) {
      assert SegmentAscends(cmp, c0.order, c0.start, c0.sortedLen, c0.moved, b);
      PrefixSlice(cmp, c0, buckets, k, b);
      RearrangedAscends(cmp, c0, buckets, k, b, order);
    }
    c := c0.(order := order, sortedLen := c0.sortedLen[b := to - from]);
  }

  lemma PrefixSlice(cmp: Comparator<nat>, c: Grouping, buckets: seq<nat>, k: nat, b: nat)
    requires Groups(c, buckets, k) && c.moved == NoneMoved(|buckets|) && b < k
    requires c.start[b] + c.sortedLen[b] <= |c.order|
    requires SegmentAscends(cmp, c.order, c.start, c.sortedLen, c.moved, b)
    ensures Ascending(cmp, c.order[c.start[b]..c.start[b] + c.sortedLen[b]])
  {
    var lo, part := c.start[b], c.order[c.start[b]..c.start[b] + c.sortedLen[b]];
    forall i, j | 0 <= i < j < |part| ensures cmp(part[i], part[j]) <= 0 {
      assert part[i] == c.order[lo + i] && part[j] == c.order[lo + j];
      assert Stays(c.moved)(c.order[lo + i]) && Stays(c.moved)(c.order[lo + j]);
    }
  }

  /** The array work: sort [mid, to), then merge it with the sorted [from, mid). */
  method SortRange(cmp: Comparator<nat>, order: seq<nat>, from: nat, mid: nat, to: nat) returns (order': seq<nat>)
    requires from <= mid < to <= |order|
    ensures SegmentRearranged(order, order', from, to)
    ensures TotalPreorder(cmp) && Ascending(cmp, order[from..mid]) ==> Ascending(cmp, order'[from..to])
  {
    var a := new nat[|order|](i requires 0 <= i < |order| => order[i]);
    var tmp := new nat[Max(to - mid, mid - from)];
    assert a[..] == order;
    ghost var left, right := order[from..mid], order[mid..to];
    assert order[from..to] == left + right && a[mid..to] == right;
    SlotSorting.Sort(a, tmp, mid, to, cmp);
    ghost var right' := a[mid..to];
    assert a[from..mid] == left && a[from..to] == left + right';
    SlotSorting.MergeRuns(a, tmp, from, mid, to, cmp);
    order' := a[..];
    assert order'[from..to] == a[from..to];
    if TotalPreorder(cmp) && Ascending(cmp, left) {
      StableSortStable(cmp, right);
      MergeAscending(cmp, left, right');
    }
  }

  // --- removal: splitters and order ---------------------------------------------------------

  /** The splitter slots renumbered, or nothing if one of them was removed. */
  method RemapSplitters(slots: seq<nat>, remap: seq<nat>) returns (r: Option<seq<nat>>)
    requires IsRemap(remap) && AscendingNats(slots) && forall i :: 0 <= i < |slots| ==> slots[i] < |remap|
    ensures r.None? <==> exists i :: 0 <= i < |slots| && remap[slots[i]] == REMOVED
    ensures r.Some? ==> |r.value| == |slots| && AscendingNats(r.value)
    ensures r.Some? ==> forall i :: 0 <= i < |slots| ==> r.value[i] == remap[slots[i]] < KeptBefore(remap, |remap|)
  {
    var out: seq<nat> := [];
    for i := 0 to |slots|
      invariant |out| == i && AscendingNats(out)
      invariant forall j :: 0 <= j < i ==>
          remap[slots[j]] != REMOVED && out[j] == remap[slots[j]] < KeptBefore(remap, |remap|)
    {
      if remap[slots[i]] == REMOVED {
        return None;
      }
      RemapBelow(remap, slots[i]);
      forall j | 0 <= j < i ensures out[j] <= remap[slots[i]] {
        if slots[j] < slots[i] {
          RemapMonotone(remap, slots[j], slots[i]);
        }
      }
      out := out + [remap[slots[i]]];
    }
    return Some(out);
  }

  /** Survivors keep their relative order: the renumbering agrees with the order inside buckets. */
  lemma RemapKeepsIndexOrder<T(!new)>(sk: SortKey<T>, items: seq<T>, keys: seq<Key64>, keys': seq<Key64>,
                                      remap: seq<nat>, s: nat, t: nat)
    requires KeysInSync(sk, items, keys) && |remap| == |items| && IsRemap(remap)
    requires KeysInSync(sk, Compacted(remap, items), keys')
    requires Kept(remap)(s) && Kept(remap)(t) && IndexOrder(sk, items, keys)(s, t) <= 0
    ensures IndexOrder(sk, Compacted(remap, items), keys')(remap[s], remap[t]) <= 0
  {
    var items' := Compacted(remap, items);
    CompactedAt(remap, items, s);
    CompactedAt(remap, items, t);
    var o, o' := SlotOrder(sk, items, keys), SlotOrder(sk, items', keys');
    if sk.key.Some? {
      assert keys[s] == keys'[remap[s]] && keys[t] == keys'[remap[t]];
    }
    assert o(s, t) == o'(remap[s], remap[t]);
    if s < t {
      RemapMonotone(remap, s, t);
    }
  }

  /** The surviving sorted prefixes are sorted for the survivors. */
  lemma RemovalKeepsAscending<T(!new)>(sk: SortKey<T>, items: seq<T>, keys: seq<Key64>, keys': seq<Key64>,
                                       remap: seq<nat>,
                                       c: Grouping, buckets: seq<nat>, k: nat, c': Grouping)
    requires KeysInSync(sk, items, keys) && |remap| == |items| == |buckets| && IsRemap(remap)
    requires KeysInSync(sk, Compacted(remap, items), keys')
    requires c.moved == NoneMoved(|buckets|) && Ascends(sk, items, keys, c)
    requires Removed(c.order, c.start, c.sortedLen, buckets, remap, k, c'.order, c'.start, c'.sortedLen)
    requires c'.moved == NoneMoved(|c'.order|)
    ensures Ascends(sk, Compacted(remap, items), keys', c')
  {
    var f, d := IndexOrder(sk, items, keys), IndexOrder(sk, Compacted(remap, items), keys');
    forall s: nat, t: nat | Kept(remap)(s) && Kept(remap)(t) && f(s, t) <= 0 ensures d(remap[s], remap[t]) <= 0 {
      RemapKeepsIndexOrder(sk, items, keys, keys', remap, s, t);
    }
    RemovedAscends(f, d, c.order, c.start, c.sortedLen, buckets, remap, k, c'.order, c'.start, c'.sortedLen);
  }
}
