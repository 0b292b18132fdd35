/**
 What the order of a read means for the fields of the sort key: groups by number, then keys, then the
 tie-breaker, then insertion order. Descending reverses all but the groups.
 */
module ReadOrders {
  import opened Sequences
  import opened Orders
  import opened SortKeys
  import opened Views
  import opened Reads

  /** The element `x` of slot `a` may be read before the element `y` of slot `b` when ascending inside a group. */
  ghost predicate InsideGroup<T>(sk: SortKey<T>, x: T, y: T, a: nat, b: nat) {
    var sameKey := sk.key.None? || sk.key.value(x) == sk.key.value(y);
    var tied := sk.ties.None? || sk.ties.value(x, y) == 0;
    && (sk.key.Some? ==> sk.key.value(x) <= sk.key.value(y))
    && (sameKey && sk.ties.Some? ==> sk.ties.value(x, y) <= 0)
    && (sameKey && tied ==> a < b)
  }

  /** The element `x` of slot `a` may be read before the element `y` of slot `b`. */
  ghost predicate ReadBefore<T>(sk: SortKey<T>, direction: Direction, x: T, y: T, a: nat, b: nat) {
    var sameGroup := sk.groupOf.None? || sk.groupOf.value(x) == sk.groupOf.value(y);
    && (sk.groupOf.Some? ==> sk.groupOf.value(x) <= sk.groupOf.value(y))
    && (sameGroup && direction == AscendingOrder ==> InsideGroup(sk, x, y, a, b))
    && (sameGroup && direction == DescendingOrder ==> InsideGroup(sk, y, x, b, a))
  }

  /** Ranked slots of one group hold elements in the order read ascending. */
  lemma RankedInside<T(!new)>(sk: SortKey<T>, items: seq<T>, a: nat, b: nat)
    requires a < |items| && b < |items| && a != b && SlotRank(sk, items)(a, b) <= 0
    requires sk.Group(items[a]) == sk.Group(items[b])
    ensures InsideGroup(sk, items[a], items[b], a, b)
  {
  }

  lemma RankedRead<T(!new)>(sk: SortKey<T>, direction: Direction, items: seq<T>, a: nat, b: nat)
    requires a < |items| && b < |items| && a != b && sk.Group(items[a]) <= sk.Group(items[b])
    requires sk.Group(items[a]) == sk.Group(items[b]) ==>
        if direction == AscendingOrder then SlotRank(sk, items)(a, b) <= 0 else SlotRank(sk, items)(b, a) <= 0
    ensures ReadBefore(sk, direction, items[a], items[b], a, b)
  {
    if sk.Group(items[a]) == sk.Group(items[b]) {
      if direction == AscendingOrder {
        RankedInside(sk, items, a, b);
      } else {
        RankedInside(sk, items, b, a);
      }
    }
  }

  /** The number of the group a position lies in. */
  function GroupOf<T>(sk: SortKey<T>, items: seq<T>, p: nat): nat {
    GroupAt(Bounds(sk, items), sk.groups, p)
  }

  lemma GroupBelow<T(!new)>(sk: SortKey<T>, items: seq<T>, g: nat, q: nat)
    requires Consistent(sk) && q < |items|
    ensures var asc := StableSort(sk.Order(), items);
      |asc| == |items| && (sk.Group(asc[q]) < g <==> q < GroupStart(sk, items, g))
  {
    GroupsAscend(sk, items, g);
  }

  lemma GroupBetween<T(!new)>(sk: SortKey<T>, items: seq<T>, g: nat, q: nat)
    requires Consistent(sk) && q < |items| && GroupStart(sk, items, g) <= q < GroupStart(sk, items, g + 1)
    ensures |StableSort(sk.Order(), items)| == |items| && sk.Group(StableSort(sk.Order(), items)[q]) == g
  {
    GroupBelow(sk, items, g, q);
    GroupBelow(sk, items, g + 1, q);
  }

  lemma GroupKept<T(!new)>(sk: SortKey<T>, direction: Direction, items: seq<T>, p: nat)
    returns (q: nat, g: nat)
    requires WellFormed(sk) && p < |items|
    ensures q == AscendingPosition(sk, direction, items, p) && g == GroupOf(sk, items, p)
    ensures q < |items| && GroupStart(sk, items, g) <= q < GroupStart(sk, items, g + 1)
  {
    AscendingPositionInvolution(sk, direction, items, p);
    q, g := AscendingPosition(sk, direction, items, p), GroupOf(sk, items, p);
    BoundsEnclose(sk, items, p);
    BoundIs(sk, items, g);
    BoundIs(sk, items, g + 1);
  }

  lemma BoundsEnclose<T(!new)>(sk: SortKey<T>, items: seq<T>, p: nat)
    requires WellFormed(sk) && p < |items|
    ensures var bounds, g := Bounds(sk, items), GroupOf(sk, items, p);
      bounds(g) <= p < bounds(g + 1) && bounds(g) <= Mirrored(bounds, sk.groups, p) < bounds(g + 1)
  {
    ViewBounds(sk, items);
    MirroredStays(Bounds(sk, items), sk.groups, |items|, p);
  }

  lemma BoundIs<T>(sk: SortKey<T>, items: seq<T>, g: nat)
    ensures Bounds(sk, items)(g) == GroupStart(sk, items, g)
  {
  }

  lemma MirroredStays(bounds: nat -> nat, groups: nat, n: nat, p: nat)
    requires BoundsAscend(bounds, groups, n) && 0 < groups && p < n
    ensures var g := GroupAt(bounds, groups, p);
      bounds(g) <= p < bounds(g + 1) && bounds(g) <= Mirrored(bounds, groups, p) < bounds(g + 1)
  {
    GroupAtEncloses(bounds, groups, p);
  }

  /** The group a position lies in is that of the element read there. */
  lemma GroupAtPosition<T(!new)>(sk: SortKey<T>, direction: Direction, items: seq<T>, p: nat)
    requires WellFormed(sk) && Consistent(sk) && p < |items|
    ensures p < |View(sk, direction, items)|
    ensures sk.Group(View(sk, direction, items)[p]) == GroupOf(sk, items, p)
  {
    var q, g := GroupKept(sk, direction, items, p);
    GroupBetween(sk, items, g, q);
    ViewAscending(sk, direction, items, p);
  }

  /** Groups ascend with positions, and mirroring turns positions of one group around. */
  lemma PositionsMirrored(bounds: nat -> nat, groups: nat, n: nat, i: nat, j: nat)
    requires BoundsAscend(bounds, groups, n) && 0 < groups && i < j < n
    ensures GroupAt(bounds, groups, i) <= GroupAt(bounds, groups, j)
    ensures GroupAt(bounds, groups, i) == GroupAt(bounds, groups, j)
        ==> Mirrored(bounds, groups, j) < Mirrored(bounds, groups, i)
  {
    GroupAtEncloses(bounds, groups, i);
    GroupAtEncloses(bounds, groups, j);
    var g, h := GroupAt(bounds, groups, i), GroupAt(bounds, groups, j);
    var a, b := bounds(h + 1), bounds(g);
    assert h < g ==> a <= b;
  }

  /** The slot read at position `p`. */
  function SlotReadAt<T>(sk: SortKey<T>, direction: Direction, items: seq<T>, p: nat): (slot: int) {
    var q, asc := AscendingPosition(sk, direction, items, p), AscendingSlots(sk, items);
    if 0 <= q < |asc| then asc[q] else -1
  }

  /** Later in the sorted slots means ranked later. */
  lemma RanksAscend<T(!new)>(sk: SortKey<T>, items: seq<T>, p: nat, q: nat)
    requires Consistent(sk) && p < q < |items|
    ensures var asc := AscendingSlots(sk, items);
      |asc| == |items| && asc[p] < |items| && asc[q] < |items| && asc[p] != asc[q]
      && SlotRank(sk, items)(asc[p], asc[q]) <= 0
  {
    AscendingSlotsPermute(sk, items);
    SlotRankIsTotal(sk, items);
    StableSortStable(SlotRank(sk, items), Iota(0, |items|));
  }

  /** The group and the slot at a position. */
  lemma ReadAt<T(!new)>(sk: SortKey<T>, direction: Direction, items: seq<T>, p: nat)
    requires WellFormed(sk) && Consistent(sk) && p < |items|
    ensures 0 <= SlotReadAt(sk, direction, items, p) < |items| && p < |View(sk, direction, items)|
    ensures View(sk, direction, items)[p] == items[SlotReadAt(sk, direction, items, p)]
    ensures sk.Group(items[SlotReadAt(sk, direction, items, p)]) == GroupOf(sk, items, p)
  {
    AscendingPositionInvolution(sk, direction, items, p);
    ViewAt(sk, direction, items, p, AscendingPosition(sk, direction, items, p));
    GroupAtPosition(sk, direction, items, p);
  }

  /** Where two positions lie in the ascending order. */
  lemma PositionsFollow<T(!new)>(sk: SortKey<T>, direction: Direction, items: seq<T>, i: nat, j: nat)
    requires WellFormed(sk) && i < j < |items|
    ensures var p, q := AscendingPosition(sk, direction, items, i), AscendingPosition(sk, direction, items, j);
      && 0 <= p < |items| && 0 <= q < |items| && p != q
      && GroupOf(sk, items, i) <= GroupOf(sk, items, j)
      && (GroupOf(sk, items, i) == GroupOf(sk, items, j) ==> (p < q <==> direction == AscendingOrder))
  {
    ViewBounds(sk, items);
    PositionsMirrored(Bounds(sk, items), sk.groups, |items|, i, j);
    AscendingPositionInvolution(sk, direction, items, i);
    AscendingPositionInvolution(sk, direction, items, j);
  }

  /** Two elements in the order they are read. */
  lemma TwoInOrder<T(!new)>(sk: SortKey<T>, direction: Direction, items: seq<T>, i: nat, j: nat, a: nat, b: nat)
    requires WellFormed(sk) && Consistent(sk) && i < j < |items|
    requires a == SlotReadAt(sk, direction, items, i) < |items| && b == SlotReadAt(sk, direction, items, j) < |items|
    ensures a != b && ReadBefore(sk, direction, items[a], items[b], a, b)
  {
    var p, q := AscendingPosition(sk, direction, items, i), AscendingPosition(sk, direction, items, j);
    ReadAt(sk, direction, items, i);
    ReadAt(sk, direction, items, j);
    PositionsFollow(sk, direction, items, i, j);
    if p < q {
      RanksAscend(sk, items, p, q);
    } else {
      RanksAscend(sk, items, q, p);
    }
    RankedRead(sk, direction, items, a, b);
  }

  /**
   What every read returns, in terms of the sort key's fields alone: each element once, groups by their number,
   inside a group by key, then tie-breaker, then insertion, all three turned around when descending.
   */
  lemma ReadOrder<T(!new)>(sk: SortKey<T>, direction: Direction, items: seq<T>) returns (slots: seq<nat>)
    requires WellFormed(sk) && Consistent(sk)
    ensures IsPermutation(slots, |items|) && View(sk, direction, items) == Reordered(items, slots)
    ensures forall p :: 0 <= p < |slots| ==> slots[p] == SlotReadAt(sk, direction, items, p)
    ensures forall i, j :: 0 <= i < j < |slots| ==>
        ReadBefore(sk, direction, items[slots[i]], items[slots[j]], slots[i], slots[j])
  {
    var n := |items|;
    forall p: nat | p < n
      ensures 0 <= SlotReadAt(sk, direction, items, p) < n && p < |View(sk, direction, items)|
      ensures View(sk, direction, items)[p] == items[SlotReadAt(sk, direction, items, p)]
    {
      ReadAt(sk, direction, items, p);
    }
    ViewLength(sk, direction, items);
    slots := seq(n, p requires 0 <= p < n => SlotReadAt(sk, direction, items, p));
    forall i, j | 0 <= i < j < n
      ensures slots[i] != slots[j]
      ensures ReadBefore(sk, direction, items[slots[i]], items[slots[j]], slots[i], slots[j])
    {
      TwoInOrder(sk, direction, items, i, j, slots[i], slots[j]);
    }
  }
}
