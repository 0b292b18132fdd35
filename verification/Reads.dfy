/** Why a read returns what the view promises: a sorted bucket holds its slots at their final positions. */
module Reads {
  import opened Sequences
  import opened Orders
  import opened Searching
  import opened SortKeys
  import opened Views
  import opened LayoutEstimation
  import opened Groupings
  import opened CacheInvariants
  import opened Assignments
  import opened SlotTables

  /** A current grouping under a consistent comparator. */
  ghost predicate Ready<T(!new)>(sk: SortKey<T>, items: seq<T>, d: SlotData<T>, c: Grouping) {
    && Consistent(sk) && Describes(sk, d, items) && LayoutsIncreasing(sk, d.layouts)
    && Groups(c, d.buckets, |d.counts|) && c.moved == NoneMoved(|items|) && Ascends(sk, items, d.keys, c)
  }

  /** The slot at position `x` of segment `b` is in bucket `b`. */
  lemma SlotAt<T(!new)>(sk: SortKey<T>, items: seq<T>, d: SlotData<T>, c: Grouping, b: nat, x: nat)
    requires Describes(sk, d, items) && Groups(c, d.buckets, |d.counts|) && c.moved == NoneMoved(|items|)
    requires b < |d.counts| && c.start[b] <= x < c.start[b + 1]
    ensures x < |c.order| == |items| && c.order[x] < |items|
    ensures d.buckets[c.order[x]] == b == BucketFor(sk, d.layouts, d.groupOffset, items[c.order[x]])
  {
    assert SegmentCached(c.order, c.start, c.sortedLen, c.moved, d.buckets, b);
    assert Stays(c.moved)(c.order[x]);
    assert InBucket(d.buckets, b)(c.order[x]);
    assert AssignedAt(sk, d.layouts, d.groupOffset, items, d.buckets, c.order[x]);
  }

  /** Inside one bucket the index order and the order of the view agree. */
  lemma IndexOrderIsRank<T(!new)>(sk: SortKey<T>, items: seq<T>, d: SlotData<T>, s: nat, t: nat)
    requires Describes(sk, d, items) && s < |items| && t < |items| && d.buckets[s] == d.buckets[t]
    ensures IndexOrder(sk, items, d.keys)(s, t) == SlotRank(sk, items)(s, t)
  {
    assert AssignedAt(sk, d.layouts, d.groupOffset, items, d.buckets, s);
    assert AssignedAt(sk, d.layouts, d.groupOffset, items, d.buckets, t);
    SameBucketSameGroup(sk, d.layouts, d.groupOffset, items[s], items[t]);
    var o := SlotOrder(sk, items, d.keys);
    if sk.key.Some? {
      assert d.keys[s] == sk.Key(items[s]) && d.keys[t] == sk.Key(items[t]);
    }
    assert o(s, t) == sk.Within(items[s], items[t]);
    WithinIsCompare(sk, items[s], items[t]);
  }

  /** Two positions, the left one in a segment recorded as sorted if they share it, hold slots in view order. */
  lemma PositionsInOrder<T(!new)>(sk: SortKey<T>, items: seq<T>, d: SlotData<T>, c: Grouping, b: nat, x: nat, y: nat)
    requires Ready(sk, items, d, c) && b < |d.counts| && x < y < |items|
    requires c.start[b] <= x < c.start[b + 1] || c.start[b] <= y < c.start[b + 1]
    requires c.sortedLen[b] == c.start[b + 1] - c.start[b]
    ensures c.order[x] < |items| && c.order[y] < |items|
    ensures SlotRank(sk, items)(c.order[x], c.order[y]) <= 0
  {
    var e := SegmentOf(c.start, |d.counts|, |c.order|, x);
    var f := SegmentOf(c.start, |d.counts|, |c.order|, y);
    SlotAt(sk, items, d, c, e, x);
    SlotAt(sk, items, d, c, f, y);
    SegmentsInOrder(c.start, |d.counts|, |c.order|, e, x, f, y);
    if e == f {
      var z := if c.start[b] <= x < c.start[b + 1] then x else y;
      SegmentsInOrder(c.start, |d.counts|, |c.order|, b, z, e, z);
      SegmentsInOrder(c.start, |d.counts|, |c.order|, e, z, b, z);
      assert SegmentAscends(IndexOrder(sk, items, d.keys), c.order, c.start, c.sortedLen, c.moved, b);
      assert Stays(c.moved)(c.order[x]) && Stays(c.moved)(c.order[y]);
      IndexOrderIsRank(sk, items, d, c.order[x], c.order[y]);
    } else {
      BucketIdsFollowOrder(sk, d.layouts, d.groupOffset, items[c.order[x]], items[c.order[y]]);
    }
  }

  /** A slot in a sorted segment is where the view has it. */
  lemma SortedSegmentRank<T(!new)>(sk: SortKey<T>, items: seq<T>, d: SlotData<T>, c: Grouping, b: nat, p: nat)
    requires Ready(sk, items, d, c) && b < |d.counts| && c.start[b] <= p < c.start[b + 1]
    requires c.sortedLen[b] == c.start[b + 1] - c.start[b]
    ensures p < |c.order| == |items| && c.order[p] < |items|
    ensures p < |AscendingSlots(sk, items)| && c.order[p] == AscendingSlots(sk, items)[p]
  {
    var r, n := SlotRank(sk, items), |items|;
    SlotAt(sk, items, d, c, b, p);
    SlotRankIsTotal(sk, items);
    AscendingSlotsPermute(sk, items);
    StableSortStable(r, Iota(0, n));
    forall x | 0 <= x < p ensures r(c.order[x], c.order[p]) <= 0 {
      PositionsInOrder(sk, items, d, c, b, x, p);
    }
    forall x | p < x < n ensures r(c.order[p], c.order[x]) <= 0 {
      PositionsInOrder(sk, items, d, c, b, p, x);
    }
    RankDetermines(r, AscendingSlots(sk, items), c.order, n, p);
  }

  // --- positions of groups ----------------------------------------------------------------

  function SlotGroupLess<T>(sk: SortKey<T>, items: seq<T>, g: nat): nat -> bool {
    (s: nat) => s < |items| && sk.Group(items[s]) < g
  }

  lemma {:induction false} GroupStartSlots<T(!new)>(sk: SortKey<T>, items: seq<T>, g: nat, n: nat)
    requires n <= |items|
    ensures |Filter<nat>(SlotGroupLess(sk, items, g), Iota(0, n))| == |Filter(GroupLess(sk, g), items[..n])|
  {
    if n > 0 {
      GroupStartSlots(sk, items, g, n - 1);
      assert Iota(0, n)[..n - 1] == Iota(0, n - 1);
      assert items[..n][..n - 1] == items[..n - 1];
    }
  }

  /** Group `g` starts in the grouping where it starts in the view. */
  lemma GroupPositions<T(!new)>(sk: SortKey<T>, items: seq<T>, d: SlotData<T>, c: Grouping, g: nat)
    requires Describes(sk, d, items) && Groups(c, d.buckets, |d.counts|) && c.moved == NoneMoved(|items|)
    requires g <= |d.layouts|
    ensures d.groupOffset[g] < |c.start| && c.start[d.groupOffset[g]] == GroupStart(sk, items, g)
  {
    var k, n, first := |d.counts|, |items|, d.groupOffset[g];
    StartsAscend(d.groupOffset, Sizes(d.layouts), g, |d.layouts|);
    var p, at := SlotGroupLess(sk, items, g), c.start[first];
    assert at <= c.start[k];
    forall x | 0 <= x < n ensures p(c.order[x]) <==> x < at {
      var b := SegmentOf(c.start, k, n, x);
      SlotAt(sk, items, d, c, b, x);
      GroupFromBucket(sk, d.layouts, d.groupOffset, items[c.order[x]], g);
      assert b < first ==> c.start[b + 1] <= at;
      assert first <= b ==> at <= c.start[b];
    }
    PermutationFilter(p, c.order, n, at);
    GroupStartSlots(sk, items, g, n);
    assert items[..n] == items;
  }

  lemma PermutationFilter(p: nat -> bool, order: seq<nat>, n: nat, at: nat)
    requires IsPermutation(order, n) && at <= n && forall x :: 0 <= x < n ==> (p(order[x]) <==> x < at)
    ensures |Filter<nat>(p, Iota(0, n))| == at
  {
    IotaElements(n);
    FilterNoDup(p, Iota(0, n));
    PermutationCovers(order, n);
    forall x: nat ensures x in Filter<nat>(p, Iota(0, n)) <==> x in order[..at] {
      FilterMember(p, Iota(0, n), x);
      assert x < n ==> Iota(0, n)[x] == x;
      if x in order {
        var i :| 0 <= i < n && order[i] == x;
        assert i < at ==> order[..at][i] == x;
      }
    }
    SameElementsSameLength(Filter<nat>(p, Iota(0, n)), order[..at]);
  }

  // --- mirroring inside groups ------------------------------------------------------------

  /** `bounds` are the starts of `groups` consecutive groups covering `n` positions. */
  ghost predicate BoundsAscend(bounds: nat -> nat, groups: nat, n: nat) {
    && bounds(0) == 0 && bounds(groups) == n
    && forall g: nat, h: nat :: g <= h <= groups ==> bounds(g) <= bounds(h)
  }

  /** The group position `p` lies in: the last of the first `groups` that starts at or before it. */
  function GroupAt(bounds: nat -> nat, groups: nat, p: nat): nat {
    if groups <= 1 || bounds(groups - 1) <= p then Max(groups, 1) - 1 else GroupAt(bounds, groups - 1, p)
  }

  lemma {:induction false} GroupAtEncloses(bounds: nat -> nat, groups: nat, p: nat)
    requires 0 < groups && bounds(0) == 0 && p < bounds(groups)
    ensures GroupAt(bounds, groups, p) < groups
    ensures bounds(GroupAt(bounds, groups, p)) <= p < bounds(GroupAt(bounds, groups, p) + 1)
  {
    if groups > 1 && bounds(groups - 1) > p {
      GroupAtEncloses(bounds, groups - 1, p);
    }
  }

  /** Mirrors a position inside its group. */
  function Mirrored(bounds: nat -> nat, groups: nat, p: nat): int {
    bounds(GroupAt(bounds, groups, p)) + (bounds(GroupAt(bounds, groups, p) + 1) - 1 - p)
  }

  /** Only one group encloses a position, empty groups or not. */
  lemma GroupAtUnique(bounds: nat -> nat, groups: nat, n: nat, p: nat, g: nat)
    requires BoundsAscend(bounds, groups, n) && g < groups && bounds(g) <= p < bounds(g + 1)
    ensures GroupAt(bounds, groups, p) == g
  {
    assert bounds(g + 1) <= bounds(groups);
    GroupAtEncloses(bounds, groups, p);
    var h := GroupAt(bounds, groups, p);
    var a, b, first, last := bounds(h + 1), bounds(g + 1), bounds(g), bounds(h);
    assert h + 1 <= g ==> a <= first;
    assert g + 1 <= h ==> b <= last;
  }

  /** Mirroring is a bijection of [0, n) that is its own inverse and maps each group onto itself. */
  lemma MirroredInvolution(bounds: nat -> nat, groups: nat, n: nat, p: nat)
    requires BoundsAscend(bounds, groups, n) && 0 < groups && p < n
    ensures 0 <= Mirrored(bounds, groups, p) < n
    ensures Mirrored(bounds, groups, Mirrored(bounds, groups, p)) == p
    ensures GroupAt(bounds, groups, Mirrored(bounds, groups, p)) == GroupAt(bounds, groups, p)
  {
    GroupAtEncloses(bounds, groups, p);
    var g := GroupAt(bounds, groups, p);
    assert bounds(g + 1) <= bounds(groups);
    GroupAtUnique(bounds, groups, n, Mirrored(bounds, groups, p), g);
  }

  lemma ViewBounds<T(!new)>(sk: SortKey<T>, items: seq<T>)
    requires WellFormed(sk)
    ensures BoundsAscend(Bounds(sk, items), sk.groups, |items|)
  {
    GroupStartTotal(sk, items);
    var bounds := Bounds(sk, items);
    forall g: nat, h: nat | g <= h <= sk.groups ensures bounds(g) <= bounds(h) {
      BoundsMonotone(sk, items, g, h);
    }
  }

  /** Group starts depend on nothing but the groups of the elements. */
  lemma {:induction false} BoundsMonotone<T>(sk: SortKey<T>, items: seq<T>, g: nat, h: nat)
    requires g <= h
    ensures GroupStart(sk, items, g) <= GroupStart(sk, items, h)
  {
    if items != [] {
      BoundsMonotone(sk, items[..|items| - 1], g, h);
    }
  }

  /** Descending order mirrors positions inside each group. */
  function AscendingPosition<T>(sk: SortKey<T>, direction: Direction, items: seq<T>, p: nat): int {
    if direction == AscendingOrder then p else Mirrored(Bounds(sk, items), sk.groups, p)
  }

  lemma AscendingPositionInvolution<T(!new)>(sk: SortKey<T>, direction: Direction, items: seq<T>, p: nat)
    requires WellFormed(sk) && p < |items|
    ensures 0 <= AscendingPosition(sk, direction, items, p) < |items|
    ensures AscendingPosition(sk, direction, items, AscendingPosition(sk, direction, items, p)) == p
  {
    ViewBounds(sk, items);
    MirroredInvolution(Bounds(sk, items), sk.groups, |items|, p);
  }

  /** The view at a position is the element at its ascending position. */
  lemma ViewAscending<T(!new)>(sk: SortKey<T>, direction: Direction, items: seq<T>, p: nat)
    requires WellFormed(sk) && Consistent(sk) && p < |items|
    ensures p < |View(sk, direction, items)| && |StableSort(sk.Order(), items)| == |items|
    ensures 0 <= AscendingPosition(sk, direction, items, p) < |items|
    ensures View(sk, direction, items)[p] == StableSort(sk.Order(), items)[AscendingPosition(sk, direction, items, p)]
  {
    AscendingPositionInvolution(sk, direction, items, p);
    StableSortPermutes(sk.Order(), items);
    if direction == DescendingOrder {
      DescendingMirrors(sk, items, p);
    }
  }

  lemma DescendingMirrors<T(!new)>(sk: SortKey<T>, items: seq<T>, p: nat)
    requires WellFormed(sk) && Consistent(sk) && p < |items|
    ensures p < |View(sk, DescendingOrder, items)| && |StableSort(sk.Order(), items)| == |items|
    ensures 0 <= Mirrored(Bounds(sk, items), sk.groups, p) < |items|
    ensures View(sk, DescendingOrder, items)[p]
        == StableSort(sk.Order(), items)[Mirrored(Bounds(sk, items), sk.groups, p)]
  {
    var bounds := Bounds(sk, items);
    ViewBounds(sk, items);
    GroupAtEncloses(bounds, sk.groups, p);
    var g := GroupAt(bounds, sk.groups, p);
    DescendingAt(sk, items, bounds, g, p, Mirrored(bounds, sk.groups, p));
  }

  /** ... that is, the element at that place of the sorted slots. */
  lemma ViewAt<T(!new)>(sk: SortKey<T>, direction: Direction, items: seq<T>, p: nat, q: nat)
    requires WellFormed(sk) && Consistent(sk) && p < |items| && q == AscendingPosition(sk, direction, items, p)
    ensures p < |View(sk, direction, items)| && q < |AscendingSlots(sk, items)| == |items|
    ensures AscendingSlots(sk, items)[q] < |items|
    ensures View(sk, direction, items)[p] == items[AscendingSlots(sk, items)[q]]
  {
    ViewAscending(sk, direction, items, p);
    AscendingView(sk, items);
  }

  // --- to_ascending ---------------------------------------------------------------------------

  function BoundAfter(bounds: nat -> nat, p: nat): nat -> bool {
    (g: nat) => bounds(g) > p
  }

  /** Searching the group starts ends right after the group that encloses the position. */
  lemma BoundFound(bounds: nat -> nat, groups: nat, n: nat, p: nat)
    requires BoundsAscend(bounds, groups, n) && p < n
    ensures 0 < PartitionPoint(BoundAfter(bounds, p), 0, groups) <= groups
    ensures bounds(PartitionPoint(BoundAfter(bounds, p), 0,
        groups) - 1) <= p < bounds(PartitionPoint(BoundAfter(bounds, p), 0, groups))
  {
    var after := BoundAfter(bounds, p);
    PartitionPointCorrect(after, 0, groups);
    var lo := PartitionPoint(after, 0, groups);
    assert !after(0) && after(groups);
    assert after(lo);
    if 0 < lo {
      assert !after(lo - 1);
    }
  }

  function GroupStartsAfter(start: seq<nat>, offset: seq<nat>, p: nat): nat -> bool {
    (g: nat) => g < |offset| && offset[g] < |start| ==> start[offset[g]] > p
  }

  lemma SameGroupSearch<T(!new)>(sk: SortKey<T>, items: seq<T>, d: SlotData<T>, c: Grouping, p: nat)
    requires Describes(sk, d, items) && Groups(c, d.buckets, |d.counts|) && c.moved == NoneMoved(|items|)
    ensures PartitionPoint(GroupStartsAfter(c.start, d.groupOffset, p), 0, |d.layouts|)
         == PartitionPoint(BoundAfter(Bounds(sk, items), p), 0, |d.layouts|)
  {
    var a, b, groups := GroupStartsAfter(c.start, d.groupOffset, p), BoundAfter(Bounds(sk, items), p), |d.layouts|;
    forall g: nat | g < groups ensures a(g) == b(g) {
      GroupPositions(sk, items, d, c, g);
    }
    PartitionPointSame(a, b, 0, groups);
  }

  function StartsAfter(start: seq<nat>, p: nat): nat -> bool {
    (b: nat) => b < |start| ==> start[b] > p
  }

  lemma StartsAfterUpward(start: seq<nat>, k: nat, n: nat, p: nat)
    requires Segments(start, k, n)
    ensures UpwardClosed(StartsAfter(start, p), 0, |start|)
  {
  }

  /** bucket_at: the last segment that starts at or before a position. */
  method FindSegment(start: seq<nat>, ghost k: nat, ghost n: nat, p: nat) returns (b: nat)
    requires Segments(start, k, n) && p < n
    ensures b < k && start[b] <= p < start[b + 1]
  {
    var first := BinarySearch(StartsAfter(start, p), |start|);
    StartsAfterUpward(start, k, n, p);
    PartitionPointCorrect(StartsAfter(start, p), 0, |start|);
    assert !StartsAfter(start, p)(0) && StartsAfter(start, p)(k);
    b := first - 1;
    assert !StartsAfter(start, p)(b) && StartsAfter(start, p)(b + 1);
  }

  /** to_ascending on a current grouping. */
  method FindAscendingPosition<T(!new)>(sk: SortKey<T>, items: seq<T>, d: SlotData<T>, c: Grouping,
                                        direction: Direction, p: nat) returns (q: nat)
    requires Describes(sk, d, items) && Groups(c, d.buckets, |d.counts|) && c.moved == NoneMoved(|items|)
    requires p < |items|
    ensures q == AscendingPosition(sk, direction, items, p)
  {
    if direction == AscendingOrder {
      return p;
    }
    ghost var bounds := Bounds(sk, items);
    ViewBounds(sk, items);
    if |d.layouts| == 1 {
      GroupAtUnique(bounds, 1, |items|, p, 0);
      return |items| - 1 - p;
    }
    q := MirrorInGroup(sk, items, d, c, p);
  }

  /** The position mirrored inside its group, which is found by searching the group starts. */
  method MirrorInGroup<T(!new)>(sk: SortKey<T>, items: seq<T>, d: SlotData<T>, c: Grouping, p: nat) returns (q: nat)
    requires Describes(sk, d, items) && Groups(c, d.buckets, |d.counts|) && c.moved == NoneMoved(|items|)
    requires p < |items|
    ensures q == Mirrored(Bounds(sk, items), sk.groups, p)
  {
    ghost var bounds := Bounds(sk, items);
    ViewBounds(sk, items);
    var lo := BinarySearch(GroupStartsAfter(c.start, d.groupOffset, p), |d.layouts|);
    SameGroupSearch(sk, items, d, c, p);
    BoundFound(bounds, sk.groups, |items|, p);
    var g := lo - 1;
    GroupAtUnique(bounds, sk.groups, |items|, p, g);
    GroupPositions(sk, items, d, c, g);
    GroupPositions(sk, items, d, c, g + 1);
    q := c.start[d.groupOffset[g]] + (c.start[d.groupOffset[g + 1]] - 1 - p);
  }
}
