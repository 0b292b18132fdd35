/** BucketIndex.java, KeyState over shared mutable elements. */
module HandleStates {
  import opened Sequences
  import opened SortKeys
  import opened Views
  import opened BucketPlans
  import opened BucketLayouts
  import opened LayoutEstimation
  import opened Compaction
  import opened CacheInvariants
  import opened Assignments
  import opened SlotTables
  import opened Handles
  import opened Reads

  class HandleState<V(!new)> {
    const sk: SortKey<V>
    var data: SlotData<Element<V>>    // layouts split on elements, not on copies
    var splitterSlots: seq<nat>
    var splitterChanged: bool
    var hasOrder: bool
    var orderStale: bool
    var cache: Grouping

    /** Everything except the bucket ids being right: the state may be half-way through an update. */
    ghost predicate Loose(hs: seq<Element<V>>, seen: map<Element<V>, V>)
      reads this
    {
      && |hs| <= REMOVED && NoDup(hs) && Knows(seen, hs)
      && AscendingNats(splitterSlots) && (forall i :: 0 <= i < |splitterSlots| ==> splitterSlots[i] < |hs|)
      && SplittersLive(data.layouts, hs, splitterSlots) && KnowsAll(seen, data.layouts)
      && Tallied(sk, ResolvedData(data, seen), Seen(hs, seen))
      && (hasOrder ==>
            && Groups(cache, data.buckets, |data.counts|) && Ascends(sk, Seen(hs, seen), data.keys, cache)
            && (!orderStale ==> cache.moved == NoneMoved(|hs|)))
    }

    /** Every stored bucket id is the one the layouts assign, given the values last seen. */
    ghost predicate Exact(hs: seq<Element<V>>, seen: map<Element<V>, V>)
      requires Loose(hs, seen)
      reads this
    {
      && LayoutsIncreasing(sk, ResolvedAll(data.layouts, seen))
      && Assigned(sk, ResolvedAll(data.layouts, seen), data.groupOffset, Seen(hs, seen), data.buckets)
    }

    ghost predicate Right(hs: seq<Element<V>>, seen: map<Element<V>, V>)
      reads this
    {
      Loose(hs, seen) && Exact(hs, seen)
    }

    constructor (key: SortKey<V>, hs: seq<Element<V>>, plan: BucketPlan, ghost now: map<Element<V>, V>)
      requires WellFormed(key) && Consistent(key) && plan.WellFormed() && |hs| <= REMOVED && NoDup(hs) && IsNow(now, hs)
      ensures sk == key && Right(hs, now) && !splitterChanged
    {
      sk := key;
      data := SlotData([], [], [], [0], [], []);
      cache := Grouping([], [], [], 0, []);
      new;
      var values := ReadValues(hs, now);
      var keys := ReadKeys(key, values);
      Relayout(hs, keys, plan, now);
    }

    /** New layouts from the current values; their splitters are the sampled elements. */
    method Relayout(hs: seq<Element<V>>, keys: seq<Key64>, plan: BucketPlan, ghost now: map<Element<V>, V>)
      requires WellFormed(sk) && Consistent(sk) && plan.WellFormed() && |hs| <= REMOVED && NoDup(hs) && IsNow(now, hs)
      requires Knows(now, hs) && KeysInSync(sk, Seen(hs, now), keys)
      modifies this
      ensures Right(hs, now) && !splitterChanged && !hasOrder
    {
      var values := ReadValues(hs, now);
      var d, slots := FreshData(sk, values, keys, plan);
      assert forall g :: 0 <= g < |d.layouts| ==> d.layouts[g].Shaped(sk);
      data := TakeHandles(d, hs, slots, now);
      splitterSlots, splitterChanged := slots, false;
      hasOrder, orderStale := false, false;
      cache := Grouping([], [], [], 0, []);
    }

    /** rekey: the bucket is looked up with the values the splitters have now, which may differ from those seen. */
    method Rekey(hs: seq<Element<V>>, slot: nat, ghost seen: map<Element<V>, V>, ghost now: map<Element<V>, V>)
      requires Loose(hs, seen) && slot < |hs| && IsNow(now, hs)
      modifies this
      ensures splitterSlots == old(splitterSlots)
      ensures splitterChanged == (old(splitterChanged) || slot in splitterSlots)
      ensures Loose(hs, seen[hs[slot] := now[hs[slot]]])
      ensures old(Right(hs, seen)) && slot !in splitterSlots && AgreeAt(splitterSlots, hs, seen, now)
          ==> Right(hs, seen[hs[slot] := now[hs[slot]]])
    {
      ghost var seen' := seen[hs[slot] := now[hs[slot]]];
      var isSplitter := Contains(splitterSlots, slot);
      var d, b := RekeyHandles(sk, data, hs, splitterSlots, slot, seen, now);
      if hasOrder {
        RekeyKeepsGrouping(sk, Seen(hs, seen), data.keys, Seen(hs, seen'), d.keys, slot, cache, data.buckets,
            |data.counts|, b);
        orderStale, cache := orderStale || slot < cache.orderedSlots, Marked(cache, slot);
      }
      data, splitterChanged := d, splitterChanged || isSplitter;
    }

    /** append: needs the splitters to have the values seen. */
    method Append(hs: seq<Element<V>>, h: Element<V>, ghost now: map<Element<V>, V>)
      requires Right(hs, now) && |hs| < REMOVED && h !in hs && IsNow(now, hs + [h])
      modifies this
      ensures Right(hs + [h], now) && splitterChanged == old(splitterChanged)
    {
      ghost var data0, values, hs' := data, Seen(hs, now), hs + [h];
      NowOfPrefix(now, hs, h);
      LiveIsNow(data.layouts, hs, splitterSlots, now);
      var d := Dereference(data, now);
      var b;
      d, b := AppendData(sk, d, values, h.value);
      data := data.(keys := d.keys, buckets := d.buckets, counts := d.counts);
      LiveAppended(data.layouts, hs, splitterSlots, h);
      assert Seen(hs', now) == values + [h.value];
      if hasOrder {
        AppendKeepsCached(cache.order, cache.start, cache.sortedLen, cache.moved, data0.buckets, |data0.counts|, b);
        AppendKeepsAscending(sk, values, data0.keys, h.value, data.keys, cache.order, cache.start, cache.sortedLen,
            cache.moved);
        orderStale := true;
      }
    }

    /** Makes the grouping current: counting sort, or placing what is pending. */
    method Group(ghost hs: seq<Element<V>>, ghost seen: map<Element<V>, V>)
      requires Right(hs, seen)
      modifies this`cache, this`hasOrder, this`orderStale
      ensures Right(hs, seen) && hasOrder && !orderStale
    {
      ghost var cmp, cache0 := IndexOrder(sk, Seen(hs, seen), data.keys), cache;
      if !hasOrder {
        cache := BuildGrouping(data.buckets, data.counts);
        NothingSortedAscends(cmp, cache.order, cache.start, cache.moved, |data.counts|);
      } else if orderStale {
        cache := RegroupGrouping(cache, data.buckets, data.counts);
        RegroupedAscends(cmp, cache0.order, cache0.start, cache0.sortedLen, cache0.moved,
                         data.buckets, |data.counts|, cache.order, cache.start, cache.sortedLen);
      }
      hasOrder, orderStale := true, false;
    }

    /** sortBucket: compares the current values, which must be the ones seen. */
    method SortBucket(hs: seq<Element<V>>, b: nat, ghost now: map<Element<V>, V>)
      requires Right(hs, now) && Consistent(sk) && hasOrder && !orderStale && b < |data.counts| && IsNow(now, hs)
      modifies this`cache
      ensures Right(hs, now) && BucketSorted(old(cache), cache, b)
    {
      var values := ReadValues(hs, now);
      IndexOrderIsTotal(sk, values, data.keys);
      cache := SortSegment(IndexOrder(sk, values, data.keys), cache, data.buckets, |data.counts|, b);
    }

    /** at: the slot at a position of the order, after sorting the bucket it is in. */
    method SlotAtPosition(hs: seq<Element<V>>, direction: Direction, p: nat, ghost now: map<Element<V>, V>)
    returns (slot: nat)
      requires Right(hs, now) && Consistent(sk) && IsNow(now, hs) && p < |hs|
      modifies this`cache, this`hasOrder, this`orderStale
      ensures Right(hs, now) && slot < |hs|
      ensures p < |View(sk, direction, Seen(hs, now))| && now[hs[slot]] == View(sk, direction, Seen(hs, now))[p]
      ensures IsSlotAt(sk, direction, Seen(hs, now), p, slot)
    {
      Group(hs, now);
      var q, b := Locate(hs, direction, p, now);
      SortBucket(hs, b, now);
      SortedBucketFinal(this, hs, now, b, q);
      ViewAt(sk, direction, Seen(hs, now), p, q);
      slot := cache.order[q];
    }

    /** to_ascending and bucket_at: where the grouping keeps position `p`, and in which segment. */
    method Locate(hs: seq<Element<V>>, direction: Direction, p: nat, ghost now: map<Element<V>, V>)
      returns (q: nat, b: nat)
      requires Right(hs, now) && Consistent(sk) && IsNow(now, hs) && p < |hs| && hasOrder && !orderStale
      ensures q == AscendingPosition(sk, direction, Seen(hs, now), p)
      ensures b < |data.counts| && cache.start[b] <= q < cache.start[b + 1]
    {
      LiveIsNow(data.layouts, hs, splitterSlots, now);
      var values := ReadValues(hs, now);
      var d := Dereference(data, now);
      q := FindAscendingPosition(sk, values, d, cache, direction, p);
      AscendingPositionInvolution(sk, direction, values, p);
      b := FindSegment(cache.start, |data.counts|, |hs|, q);
    }

    /** compact: new layouts if a splitter is gone, else everything renumbered. */
    method Compact(hs: seq<Element<V>>, left: seq<Element<V>>, remap: seq<nat>, kept: nat, plan: BucketPlan,
                   ghost seen: map<Element<V>, V>)
      requires Right(hs, seen) && Consistent(sk) && plan.WellFormed() && (hasOrder ==> !orderStale)
      requires IsRemap(remap) && |remap| == |hs| && kept == KeptBefore(remap, |remap|) && left == Compacted(remap, hs)
      requires IsNow(seen, left)
      modifies this
      ensures Right(left, seen)
      ensures splitterChanged ==> old(splitterChanged)
    {
      ghost var values := Seen(hs, seen);
      SurvivorsKnown(remap, hs, seen);
      var d := CompactHandles(sk, data, values, remap, kept, seen);
      var splitters := RemapSplitters(splitterSlots, remap);
      if splitters.None? {
        Relayout(left, d.keys, plan, seen);
        return;
      }
      LiveCompacted(data.layouts, hs, splitterSlots, remap, splitters.value);
      var c := CompactCache(sk, values, data.keys, d.keys, hasOrder, cache, data.buckets, |data.counts|, remap, kept);
      data, splitterSlots, cache := d, splitters.value, c;
    }
  }

  /** `slot` is the one that sorting the slots puts at position `p` of the order. */
  ghost predicate IsSlotAt<V(!new)>(sk: SortKey<V>, direction: Direction, values: seq<V>, p: nat, slot: nat) {
    var q, asc := AscendingPosition(sk, direction, values, p), AscendingSlots(sk, values);
    0 <= q < |asc| && slot == asc[q]
  }

  /** The cached grouping, if there is one, renumbered. */
  method CompactCache<V(!new)>(sk: SortKey<V>, ghost values: seq<V>, ghost keys: seq<Key64>, ghost keys': seq<Key64>,
                               hasOrder: bool, c0: Grouping, ghost buckets: seq<nat>, ghost k: nat, remap: seq<nat>,
                               kept: nat)
    returns (c: Grouping)
    requires |remap| == |values| == |buckets| && IsRemap(remap) && kept == KeptBefore(remap, |remap|)
    requires KeysInSync(sk, values, keys) && KeysInSync(sk, Compacted(remap, values), keys')
    requires hasOrder ==> Groups(c0, buckets, k) && c0.moved == NoneMoved(|buckets|) && Ascends(sk, values, keys, c0)
    ensures hasOrder ==>
      && Groups(c, Compacted<nat>(remap, buckets), k) && c.moved == NoneMoved(kept)
      && Ascends(sk, Compacted(remap, values), keys', c)
  {
    c := c0;
    if hasOrder {
      c := CompactGrouping(c0, buckets, k, remap, kept);
      RemovedSegments(c0.order, c0.start, c0.sortedLen, buckets, remap, k, c.order, c.start, c.sortedLen);
      RemovalKeepsAscending(sk, values, keys, keys', remap, c0, buckets, k, c);
    }
  }

  lemma NowOfPrefix<V>(now: map<Element<V>, V>, hs: seq<Element<V>>, h: Element<V>)
    requires IsNow(now, hs + [h])
    ensures IsNow(now, hs) && h in now && now[h] == h.value
  {
    assert forall i :: 0 <= i < |hs| ==> (hs + [h])[i] == hs[i];
    assert (hs + [h])[|hs|] == h;
  }

  lemma LiveAppended<V>(layouts: seq<BucketLayout<Element<V>>>, hs: seq<Element<V>>, slots: seq<nat>, h: Element<V>)
    requires SplittersLive(layouts, hs, slots)
    ensures SplittersLive(layouts, hs + [h], slots)
  {
    forall g, e | 0 <= g < |layouts| && 0 <= e < |layouts[g].splitters|
      ensures SplitterLive(layouts[g], hs + [h], slots, e)
    {
      assert SplitterLive(layouts[g], hs, slots, e);
      var i :| 0 <= i < |slots| && slots[i] < |hs| && hs[slots[i]] == layouts[g].splitters[e];
      assert (hs + [h])[slots[i]] == layouts[g].splitters[e];
    }
  }

  lemma SurvivorsKnown<V>(remap: seq<nat>, hs: seq<Element<V>>, seen: map<Element<V>, V>)
    requires |hs| == |remap| && NoDup(hs) && Knows(seen, hs)
    ensures var left := Compacted(remap, hs);
      && NoDup(left) && |left| == KeptBefore(remap, |remap|) <= |hs| && Knows(seen, left)
      && Seen(left, seen) == Compacted(remap, Seen(hs, seen)) && forall h :: h in left ==> h in hs
  {
    CompactedNoDup(remap, hs);
    CompactedLength(remap, hs);
    SeenCompacted(remap, hs, seen);
  }

  /** The entries of the survivors. No element is looked at, so changed ones may be among the removed. */
  method CompactHandles<V(!new)>(sk: SortKey<V>, data: SlotData<Element<V>>, ghost values: seq<V>, remap: seq<nat>,
                                 kept: nat,
                                 ghost seen: map<Element<V>, V>) returns (r: SlotData<Element<V>>)
    requires KnowsAll(seen, data.layouts) && Describes(sk, ResolvedData(data, seen), values) && |remap| == |values|
    requires kept == KeptBefore(remap, |remap|)
    ensures r == data.(keys := r.keys, buckets := Compacted<nat>(remap, data.buckets), counts := r.counts)
    ensures Describes(sk, ResolvedData(r, seen), Compacted(remap, values)) && |r.counts| == |data.counts|
  {
    var keys, buckets, counts := CompactArrays(sk.key.Some?, data.keys, data.buckets, data.counts, remap, kept);
    CompactedDescribes(sk, ResolvedData(data, seen), values, remap, keys, buckets, counts);
    r := data.(keys := keys, buckets := buckets, counts := counts);
  }

  /** In a right, current state a fully sorted bucket holds its slots where the sorted list of values has them. */
  lemma SortedBucketFinal<V(!new)>(s: HandleState<V>, hs: seq<Element<V>>, seen: map<Element<V>, V>, b: nat, p: nat)
    requires s.Right(hs, seen) && s.hasOrder && !s.orderStale && Consistent(s.sk) && b < |s.data.counts|
    requires s.cache.start[b] <= p < s.cache.start[b + 1]
    requires s.cache.sortedLen[b] == s.cache.start[b + 1] - s.cache.start[b]
    ensures p < |s.cache.order| == |hs| && s.cache.order[p] < |hs| && |AscendingSlots(s.sk, Seen(hs, seen))| == |hs|
    ensures s.cache.order[p] == AscendingSlots(s.sk, Seen(hs, seen))[p]
  {
    AscendingSlotsPermute(s.sk, Seen(hs, seen));
    SortedSegmentRank(s.sk, Seen(hs, seen), ResolvedData(s.data, seen), s.cache, b, p);
  }

  /** The slot's entries re-read; right if the splitters have the values seen and the slot holds none of them. */
  method RekeyHandles<V(!new)>(sk: SortKey<V>, data: SlotData<Element<V>>, hs: seq<Element<V>>, ghost slots: seq<nat>,
                               slot: nat,
                               ghost seen: map<Element<V>, V>, ghost now: map<Element<V>, V>)
    returns (r: SlotData<Element<V>>, b: nat)
    requires NoDup(hs) && slot < |hs| && Knows(seen, hs) && IsNow(now, hs)
    requires SplittersLive(data.layouts, hs, slots) && KnowsAll(seen, data.layouts)
    requires Tallied(sk, ResolvedData(data, seen), Seen(hs, seen))
    ensures r == data.(keys := r.keys, buckets := data.buckets[slot := b], counts := r.counts)
    ensures var seen' := seen[hs[slot] := now[hs[slot]]];
      && Knows(seen', hs) && Seen(hs, seen') == Seen(hs, seen)[slot := now[hs[slot]]]
      && KnowsAll(seen', r.layouts) && Tallied(sk, ResolvedData(r, seen'), Seen(hs, seen'))
      && (slot !in slots && AgreeAt(slots, hs, seen, now) ==>
          ResolvedAll(r.layouts, seen') == ResolvedAll(data.layouts, seen))
      && (slot !in slots && AgreeAt(slots, hs, seen, now) && Describes(sk, ResolvedData(data, seen), Seen(hs, seen))
          ==> Describes(sk, ResolvedData(r, seen'), Seen(hs, seen')))
  {
    ghost var seen', values := seen[hs[slot] := now[hs[slot]]], Seen(hs, seen);
    LiveIsNow(data.layouts, hs, slots, now);
    var d := Dereference(data, now);
    TalliedAnyway(sk, data, seen, now, values);
    d, b := RekeySlot(sk, d, values, hs[slot].value, slot);
    r := data.(keys := d.keys, buckets := d.buckets, counts := d.counts);
    SeenUpdated(hs, seen, slot, now[hs[slot]]);
    TalliedAnyway(sk, r, now, seen', Seen(hs, seen'));
    if slot !in slots && AgreeAt(slots, hs, seen, now) {
      SameMeaning(data.layouts, hs, slots, slot, seen, now);
      if Describes(sk, ResolvedData(data, seen), Seen(hs, seen)) {
        AssignedUpdate(sk, ResolvedAll(data.layouts, seen), data.groupOffset, values, Seen(hs, seen'), data.buckets,
            slot);
      }
    }
  }

  lemma SeenUpdated<V>(hs: seq<Element<V>>, seen: map<Element<V>, V>, slot: nat, v: V)
    requires Knows(seen, hs) && NoDup(hs) && slot < |hs|
    ensures Knows(seen[hs[slot] := v], hs) && Seen(hs, seen[hs[slot] := v]) == Seen(hs, seen)[slot := v]
  {
  }

  /** If no splitter changed, old snapshot, new snapshot and current values give the layouts one meaning. */
  lemma SameMeaning<V>(layouts: seq<BucketLayout<Element<V>>>, hs: seq<Element<V>>, slots: seq<nat>, slot: nat,
                       seen: map<Element<V>, V>, now: map<Element<V>, V>)
    requires NoDup(hs) && slot < |hs| && slot !in slots && SplittersLive(layouts, hs, slots)
    requires Knows(seen, hs) && Knows(now, hs) && AgreeAt(slots, hs, seen, now)
    ensures var seen' := seen[hs[slot] := now[hs[slot]]];
      && KnowsAll(seen, layouts) && KnowsAll(now, layouts) && KnowsAll(seen', layouts)
      && ResolvedAll(layouts, seen) == ResolvedAll(layouts, now) == ResolvedAll(layouts, seen')
  {
    var seen' := seen[hs[slot] := now[hs[slot]]];
    AgreeingLayouts(layouts, hs, slots, seen, now);
    AgreeingLayouts(layouts, hs, slots, seen, seen');
  }
}
