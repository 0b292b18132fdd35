/** Reads of one key state that walk whole segments: for_each, position_if and sort_all. */
module StateVisits {
  import opened Sequences
  import opened Orders
  import opened SortKeys
  import opened Views
  import opened BucketPlans
  import opened Groupings
  import opened Assignments
  import opened Reads
  import opened BucketedLists
  import opened KeyStates
  import opened StateReads

  /** The ascending list: what the grouping holds once every bucket is sorted. */
  function Sorted<T(!new)>(sk: SortKey<T>, items: seq<T>): seq<T> {
    StableSort(sk.Order(), items)
  }

  lemma SegmentBounds<T(!new)>(s: KeyState<T>, items: seq<T>, plan: BucketPlan, b: nat, c: nat)
    requires Readable(s, items, plan) && b <= c <= |s.data.counts|
    ensures |s.cache.start| == |s.data.counts| + 1 && |s.cache.order| == |items| == |Sorted(s.sk, items)|
    ensures s.cache.start[b] <= s.cache.start[c] <= |items|
    ensures s.cache.start[0] == 0 && s.cache.start[|s.data.counts|] == |items|
  {
    ReadableMeans(s, items, plan);
    StableSortPermutes(s.sk.Order(), items);
    assert s.cache.start[c] <= s.cache.start[|s.data.counts|];
  }

  /** A fully sorted segment holds its stretch of the ascending list. */
  lemma SegmentIsStretch<T(!new)>(s: KeyState<T>, items: seq<T>, plan: BucketPlan, b: nat, slots: seq<nat>)
    requires Readable(s, items, plan) && b < |s.data.counts| && s.Full(b)
    requires |s.cache.order| == |items| == |Sorted(s.sk, items)| && s.cache.start[b] <= s.cache.start[b + 1] <= |items|
    requires slots == s.cache.order[s.cache.start[b]..s.cache.start[b + 1]]
    ensures forall i :: 0 <= i < |slots| ==> slots[i] < |items|
    ensures Reordered(items, slots) == Sorted(s.sk, items)[s.cache.start[b]..s.cache.start[b + 1]]
  {
    AscendingView(s.sk, items);
    forall i | 0 <= i < |slots|
      ensures slots[i] < |items| && items[slots[i]] == Sorted(s.sk, items)[s.cache.start[b] + i]
    {
      FullSegmentFinal(s, items, plan, b, s.cache.start[b] + i);
    }
  }

  /** Sorts one bucket and visits its elements, forwards or backwards. */
  method VisitBucket<T(!new)>(s: KeyState<T>, items: seq<T>, ghost plan: BucketPlan, b: nat, backwards: bool)
    returns (out: seq<T>)
    requires Readable(s, items, plan) && b < |s.data.counts|
    modifies s`cache
    ensures Readable(s, items, plan) && s.cache.start == old(s.cache.start) && |s.cache.start| == |s.data.counts| + 1
    ensures s.cache.start[b] <= s.cache.start[b + 1] <= |items| == |Sorted(s.sk, items)|
    ensures var stretch := Sorted(s.sk, items)[s.cache.start[b]..s.cache.start[b + 1]];
      out == if backwards then Reverse(stretch) else stretch
    ensures backwards ==> Backwards(Sorted(s.sk, items), s.cache.start[b], s.cache.start[b + 1], out)
  {
    ReadBucket(s, items, plan, b);
    SegmentBounds(s, items, plan, b, b + 1);
    var slots := s.cache.order[s.cache.start[b]..s.cache.start[b + 1]];
    SegmentIsStretch(s, items, plan, b, slots);
    out := Collect(items, slots, backwards);
  }

  lemma StretchesJoin<X>(s: seq<X>, a: nat, b: nat, c: nat)
    requires a <= b <= c <= |s|
    ensures s[a..b] + s[b..c] == s[a..c]
    ensures Reverse(s[b..c]) + Reverse(s[a..b]) == Reverse(s[a..c])
  {
  }

  /** `out` is a stretch read backwards. Opened only on request. */
  ghost predicate Backwards<X>(s: seq<X>, lo: nat, hi: nat, out: seq<X>) {
    forall u {:trigger Opened(u)} :: Opened(u) ==> lo <= hi <= |s| && out == Reverse(s[lo..hi])
  }

  lemma BackwardsMeans<X>(s: seq<X>, lo: nat, hi: nat, out: seq<X>)
    requires Backwards(s, lo, hi, out)
    ensures lo <= hi <= |s| && out == Reverse(s[lo..hi])
  {
    assert Opened(0);
  }

  lemma BackwardsJoin<X>(s: seq<X>, a: nat, b: nat, c: nat, out: seq<X>, more: seq<X>)
    requires Backwards(s, b, c, out) && Backwards(s, a, b, more)
    ensures Backwards(s, a, c, out + more)
  {
    BackwardsMeans(s, b, c, out);
    BackwardsMeans(s, a, b, more);
    StretchesJoin(s, a, b, c);
  }

  /** for_each, ascending: bucket after bucket. */
  method VisitAscending<T(!new)>(s: KeyState<T>, items: seq<T>, ghost plan: BucketPlan) returns (out: seq<T>)
    requires Readable(s, items, plan)
    modifies s`cache
    ensures Readable(s, items, plan) && out == View(s.sk, AscendingOrder, items)
  {
    out := [];
    var k := |s.data.counts|;
    ghost var list := Sorted(s.sk, items);
    SegmentBounds(s, items, plan, 0, k);
    for b := 0 to k
      invariant Readable(s, items, plan) && s.cache.start == old(s.cache.start)
      invariant s.cache.start[b] <= |list| && out == list[0..s.cache.start[b]]
    {
      var more := VisitBucket(s, items, plan, b, false);
      StretchesJoin(list, 0, s.cache.start[b], s.cache.start[b + 1]);
      out := out + more;
    }
    assert list[0..|list|] == list;
  }

  /** for_each, descending: one group, its buckets and their elements from the last to the first. */
  method VisitGroupBackwards<T(!new)>(s: KeyState<T>, items: seq<T>, ghost plan: BucketPlan, first: nat, end: nat)
    returns (out: seq<T>)
    requires Readable(s, items, plan) && first <= end <= |s.data.counts|
    modifies s`cache
    ensures Readable(s, items, plan) && s.cache.start == old(s.cache.start) && |s.cache.start| == |s.data.counts| + 1
    ensures s.cache.start[first] <= s.cache.start[end] <= |Sorted(s.sk, items)|
    ensures out == Reverse(Sorted(s.sk, items)[s.cache.start[first]..s.cache.start[end]])
  {
    out := [];
    ghost var list := Sorted(s.sk, items);
    SegmentBounds(s, items, plan, first, end);
    ghost var start := s.cache.start;
    var b := end;
    while b > first
      invariant first <= b <= end && Readable(s, items, plan) && s.cache.start == start
      invariant Backwards(list, start[b], start[end], out)
    {
      ghost var lo, hi := start[b - 1], start[b];
      b := b - 1;
      var more := VisitBucket(s, items, plan, b, true);
      assert s.cache.start[b] == lo && s.cache.start[b + 1] == hi;
      BackwardsJoin(list, lo, hi, start[end], out, more);
      out := out + more;
    }
    BackwardsMeans(list, start[first], start[end], out);
  }

  /** A group's part of the view is the stretch its buckets cover. */
  lemma GroupCovers<T(!new)>(s: KeyState<T>, items: seq<T>, plan: BucketPlan, g: nat)
    requires Readable(s, items, plan) && g < |s.data.layouts|
    ensures |s.data.groupOffset| == |s.data.layouts| + 1 && |s.data.layouts| == s.sk.groups
    ensures s.data.groupOffset[g] <= s.data.groupOffset[g + 1] <= |s.data.counts|
    ensures |s.cache.start| == |s.data.counts| + 1
    ensures s.cache.start[s.data.groupOffset[g]] <= s.cache.start[s.data.groupOffset[g + 1]] <= |Sorted(s.sk, items)|
    ensures GroupParts(s.sk, Sorted(s.sk, items))[g]
         == Sorted(s.sk, items)[s.cache.start[s.data.groupOffset[g]]..s.cache.start[s.data.groupOffset[g + 1]]]
  {
    ReadableMeans(s, items, plan);
    GroupPositions(s.sk, items, s.data, s.cache, g);
    GroupPositions(s.sk, items, s.data, s.cache, g + 1);
    GroupSlice(s.sk, items, g);
    StartsAscend(s.data.groupOffset, Sizes(s.data.layouts), g + 1, |s.data.layouts|);
    StartsAscend(s.data.groupOffset, Sizes(s.data.layouts), g, g + 1);
  }

  /** for_each, descending: every group is walked from its last bucket to its first. */
  method VisitDescending<T(!new)>(s: KeyState<T>, items: seq<T>, ghost plan: BucketPlan) returns (out: seq<T>)
    requires Readable(s, items, plan)
    modifies s`cache
    ensures Readable(s, items, plan) && out == View(s.sk, DescendingOrder, items)
  {
    out := [];
    ghost var parts := GroupParts(s.sk, Sorted(s.sk, items));
    ReadableMeans(s, items, plan);
    for g := 0 to |s.data.layouts|
      invariant Readable(s, items, plan) && |s.data.layouts| == |parts|
      invariant out == EachReversed(parts[..g])
    {
      GroupCovers(s, items, plan, g);
      var more := VisitGroupBackwards(s, items, plan, s.data.groupOffset[g], s.data.groupOffset[g + 1]);
      assert more == Reverse(parts[g]);
      assert parts[..g + 1][..g] == parts[..g] && parts[..g + 1][g] == parts[g];
      out := out + more;
    }
    assert parts[..|parts|] == parts;
  }

  method VisitAll<T(!new)>(s: KeyState<T>, items: seq<T>, ghost plan: BucketPlan, direction: Direction)
    returns (out: seq<T>)
    requires Readable(s, items, plan)
    modifies s`cache
    ensures Readable(s, items, plan) && out == View(s.sk, direction, items)
  {
    if direction == AscendingOrder {
      out := VisitAscending(s, items, plan);
    } else {
      out := VisitDescending(s, items, plan);
    }
  }

  /** sort_all: afterwards the grouping is the ascending view. */
  method SortEverything<T(!new)>(s: KeyState<T>, items: seq<T>, ghost plan: BucketPlan)
    requires Readable(s, items, plan)
    modifies s`cache
    ensures Readable(s, items, plan) && s.cache.order == AscendingSlots(s.sk, items)
  {
    ReadBuckets(s, items, plan, 0, |s.data.counts|);
    EverythingSorted(s, items, plan);
  }

  lemma EverythingSorted<T(!new)>(s: KeyState<T>, items: seq<T>, plan: BucketPlan)
    requires Readable(s, items, plan) && forall c :: 0 <= c < |s.data.counts| ==> s.Full(c)
    ensures s.cache.order == AscendingSlots(s.sk, items)
  {
    ReadableMeans(s, items, plan);
    AscendingSlotsPermute(s.sk, items);
    forall p | 0 <= p < |items| ensures s.cache.order[p] == AscendingSlots(s.sk, items)[p] {
      var b := SegmentOf(s.cache.start, |s.data.counts|, |items|, p);
      FullSegmentFinal(s, items, plan, b, p);
    }
  }

  // --- position_if ------------------------------------------------------------------------------

  /** A slot is found in the segment of its bucket. */
  lemma SlotInSegment<T(!new)>(s: KeyState<T>, items: seq<T>, plan: BucketPlan, slot: nat) returns (p: nat)
    requires Readable(s, items, plan) && slot < |items|
    ensures slot < |s.data.buckets| && s.data.buckets[slot] < |s.data.counts| && |s.cache.start| == |s.data.counts| + 1
    ensures s.cache.start[s.data.buckets[slot]] <= p < s.cache.start[s.data.buckets[slot] + 1] <= |s.cache.order|
        == |items|
    ensures s.cache.order[p] == slot
  {
    ReadableMeans(s, items, plan);
    PermutationCovers(s.cache.order, |items|);
    assert slot in s.cache.order;
    p :| 0 <= p < |items| && s.cache.order[p] == slot;
    var b := SegmentOf(s.cache.start, |s.data.counts|, |items|, p);
    SlotAt(s.sk, items, s.data, s.cache, b, p);
    SegmentBounds(s, items, plan, b, b + 1);
  }

  /** A slot's place in a permutation is unique. */
  lemma PlaceIsIndex(order: seq<nat>, n: nat, p: nat)
    requires IsPermutation(order, n) && p < n
    ensures IndexOf(order, order[p]) == p
  {
    assert order[p] in order;
    var q := IndexOf(order, order[p]);
    assert order[q] == order[p];
  }

  /** std::find over the segment of a sorted bucket. */
  method FindSlot<T(!new)>(s: KeyState<T>, items: seq<T>, ghost plan: BucketPlan, slot: nat) returns (p: nat)
    requires Readable(s, items, plan) && slot < |items|
    modifies s`cache
    ensures Readable(s, items, plan) && p < |items| && p == IndexOf(AscendingSlots(s.sk, items), slot)
  {
    ghost var at := SlotInSegment(s, items, plan, slot);
    var b := s.data.buckets[slot];
    ReadBucket(s, items, plan, b);
    at := SlotInSegment(s, items, plan, slot);
    p := s.cache.start[b];
    while s.cache.order[p] != slot
      invariant s.cache.start[b] <= p <= at
      decreases at - p
    {
      p := p + 1;
    }
    FullSegmentFinal(s, items, plan, b, p);
    AscendingSlotsPermute(s.sk, items);
    PlaceIsIndex(AscendingSlots(s.sk, items), |items|, p);
  }

  /** position_if on a prepared state: the mapping of positions is its own inverse. */
  method FindPosition<T(!new)>(s: KeyState<T>, items: seq<T>, ghost plan: BucketPlan, direction: Direction, slot: nat)
    returns (p: nat)
    requires Readable(s, items, plan) && slot < |items|
    modifies s`cache
    ensures Readable(s, items, plan)
    ensures p == AscendingPosition(s.sk, direction, items, IndexOf(AscendingSlots(s.sk, items), slot))
  {
    var q := FindSlot(s, items, plan, slot);
    ReadableMeans(s, items, plan);
    p := s.ToAscending(items, direction, q);
  }
}
