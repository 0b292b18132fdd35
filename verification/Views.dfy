/**
 The promise of BucketedList: the order a reader sees. Ascending, it is the insertion-order list
 stably sorted by SortKey::compare; descending, that order reversed inside each group.
 */
module Views {
  import opened Sequences
  import opened Orders
  import opened SortKeys

  function GroupIs<T>(sk: SortKey<T>, g: nat): T -> bool {
    x => sk.Group(x) == g
  }

  /** The groups of a list, in group order, each in list order. */
  function GroupParts<T>(sk: SortKey<T>, list: seq<T>): (parts: seq<seq<T>>)
    ensures |parts| == sk.groups
  {
    seq(sk.groups, g requires 0 <= g < sk.groups => Filter(GroupIs(sk, g), list))
  }

  /** All parts one after the other, each reversed. */
  function EachReversed<T>(parts: seq<seq<T>>): seq<T> {
    if parts == [] then [] else EachReversed(parts[..|parts| - 1]) + Reverse(parts[|parts| - 1])
  }

  /** What reads must return. */
  function View<T>(sk: SortKey<T>, direction: Direction, items: seq<T>): seq<T> {
    var ascending := StableSort(sk.Order(), items);
    if direction == AscendingOrder then ascending else EachReversed(GroupParts(sk, ascending))
  }

  // --- the same order on slots --------------------------------------------------------

  /** Compare the elements, then the slots: insertion order breaks ties. */
  function SlotRank<T>(sk: SortKey<T>, items: seq<T>): Comparator<nat> {
    (a: nat, b: nat) =>
      if a >= |items| || b >= |items| || sk.Compare(items[a], items[b]) == 0 then a - b
      else sk.Compare(items[a], items[b])
  }

  function SortedSlots<T>(sk: SortKey<T>, items: seq<T>, n: nat): seq<nat> {
    StableSort(SlotRank(sk, items), Iota(0, n))
  }

  function AscendingSlots<T>(sk: SortKey<T>, items: seq<T>): seq<nat> {
    SortedSlots(sk, items, |items|)
  }

  lemma SlotRankIsTotal<T(!new)>(sk: SortKey<T>, items: seq<T>)
    requires Consistent(sk)
    ensures TotalPreorder(SlotRank(sk, items))
    ensures forall a: nat, b: nat :: SlotRank(sk, items)(a, b) == 0 ==> a == b
  {
    CompareIsPreorder(sk);
    var c, o := SlotRank(sk, items), sk.Order();
    forall a: nat, b: nat ensures c(a, b) < 0 <==> c(b, a) > 0 {
      if a < |items| && b < |items| {
        Mirrors(o, items[a], items[b]);
      }
    }
    forall x: nat, y: nat, z: nat ensures Chains(c, x, y, z) {
      if x < |items| && y < |items| && z < |items| && c(x, y) <= 0 && c(y, z) <= 0 {
        StrictChain(o, items[x], items[y], items[z]);
      }
    }
  }

  lemma AscendingSlotsPermute<T(!new)>(sk: SortKey<T>, items: seq<T>)
    ensures IsPermutation(AscendingSlots(sk, items), |items|)
  {
    var c, n := SlotRank(sk, items), |items|;
    StableSortPermutes(c, Iota(0, n));
    IotaElements(n);
    var s := AscendingSlots(sk, items);
    NoDupTransfers(Iota(0, n), s);
    forall i | 0 <= i < n ensures s[i] < n {
      assert s[i] in multiset(s);
      assert s[i] in Iota(0, n);
    }
  }

  // --- sorting slots is sorting elements ------------------------------------------------

  /** Sorting the slots sorts the elements: inserting the newest slot follows inserting its element. */
  lemma {:induction false} SlotsSortElements<T(!new)>(sk: SortKey<T>, items: seq<T>, n: nat)
    requires n <= |items|
    ensures var s := SortedSlots(sk, items, n);
      && |s| == n && (forall i :: 0 <= i < n ==> s[i] < n)
      && Reordered(items, s) == StableSort(sk.Order(), items[..n])
  {
    if n > 0 {
      var c := SlotRank(sk, items);
      SlotsSortElements(sk, items, n - 1);
      var s := SortedSlots(sk, items, n - 1);
      assert Iota(0, n)[..n - 1] == Iota(0, n - 1);
      assert items[..n][..n - 1] == items[..n - 1];
      InsertSlot(sk, items, s, n - 1);
    }
  }

  lemma {:induction false} InsertSlot<T(!new)>(sk: SortKey<T>, items: seq<T>, s: seq<nat>, slot: nat)
    requires slot < |items| && forall i :: 0 <= i < |s| ==> s[i] < slot
    ensures var r: seq<nat> := Insert(SlotRank(sk, items), s, slot);
      && |r| == |s| + 1 && (forall i :: 0 <= i < |r| ==> r[i] <= slot)
      && Reordered(items, r) == Insert(sk.Order(), Reordered(items, s), items[slot])
  {
    var c, o := SlotRank(sk, items), sk.Order();
    var r: seq<nat>, es := Insert(c, s, slot), Reordered(items, s);
    if s == [] || c(s[|s| - 1], slot) <= 0 {
      assert r == s + [slot];
      assert Reordered(items, r) == es + [items[slot]];
    } else {
      var t, last := s[..|s| - 1], s[|s| - 1];
      InsertSlot(sk, items, t, slot);
      assert es[..|es| - 1] == Reordered(items, t);
      assert Reordered(items, r) == Reordered(items, Insert(c, t, slot)) + [items[last]];
    }
  }

  /** The ascending view, slot by slot. */
  lemma AscendingView<T(!new)>(sk: SortKey<T>, items: seq<T>)
    ensures var s := AscendingSlots(sk, items);
      && |s| == |items| && (forall i :: 0 <= i < |s| ==> s[i] < |items|)
      && Reordered(items, s) == StableSort(sk.Order(), items)
  {
    SlotsSortElements(sk, items, |items|);
    assert items[..|items|] == items;
  }

  /** Both sequences list the slots below the one at `q` (or `p`) before it. */
  lemma SmallerComeFirst(c: Comparator<nat>, s: seq<nat>, t: seq<nat>, n: nat, q: nat, p: nat, x: nat)
    requires TotalPreorder(c) && (forall a: nat, b: nat :: c(a, b) == 0 ==> a == b)
    requires IsPermutation(s, n) && IsPermutation(t, n) && q < n && p < n && s[q] == t[p]
    requires forall i :: 0 <= i < q ==> c(s[i], s[q]) <= 0
    requires forall i :: p < i < n ==> c(t[p], t[i]) <= 0
    requires x in s[..q]
    ensures x in t[..p]
  {
    var i :| 0 <= i < q && s[..q][i] == x;
    assert s[i] == x && c(x, t[p]) <= 0;
    PermutationCovers(t, n);
    assert x < n && x in t;
    var j :| 0 <= j < n && t[j] == x;
    Mirrors(c, x, t[p]);
    assert t[..p][j] == x;
  }

  /** The slot with everything smaller before it and everything larger after it has its final position. */
  lemma RankDetermines(c: Comparator<nat>, sorted: seq<nat>, order: seq<nat>, n: nat, p: nat)
    requires TotalPreorder(c) && (forall a: nat, b: nat :: c(a, b) == 0 ==> a == b)
    requires IsPermutation(sorted, n) && IsPermutation(order, n) && Ascending(c, sorted) && p < n
    requires forall x :: 0 <= x < p ==> c(order[x], order[p]) <= 0
    requires forall x :: p < x < n ==> c(order[p], order[x]) <= 0
    ensures sorted[p] == order[p]
  {
    PermutationCovers(sorted, n);
    assert order[p] in sorted;
    var q :| 0 <= q < n && sorted[q] == order[p];
    forall x ensures x in sorted[..q] <==> x in order[..p] {
      if x in sorted[..q] {
        SmallerComeFirst(c, sorted, order, n, q, p, x);
      }
      if x in order[..p] {
        SmallerComeFirst(c, order, sorted, n, p, q, x);
      }
    }
    SameElementsSameLength(sorted[..q], order[..p]);
  }

  // --- descending: groups keep their place, each is reversed --------------------------------

  function GroupLess<T>(sk: SortKey<T>, g: nat): T -> bool {
    x => sk.Group(x) < g
  }

  /** Where group `g` starts in every order: after all elements of lower groups. */
  function GroupStart<T>(sk: SortKey<T>, items: seq<T>, g: nat): nat {
    |Filter(GroupLess(sk, g), items)|
  }

  lemma {:induction false} InsertFilterLength<X>(p: X -> bool, c: Comparator<X>, s: seq<X>, x: X)
    ensures |Filter(p, Insert(c, s, x))| == |Filter(p, s)| + if p(x) then 1 else 0
  {
    if s == [] || c(s[|s| - 1], x) <= 0 {
      assert (s + [x])[..|s|] == s;
    } else {
      var t, last := s[..|s| - 1], s[|s| - 1];
      InsertFilterLength(p, c, t, x);
      var u := Insert(c, t, x);
      assert (u + [last])[..|u|] == u;
    }
  }

  lemma {:induction false} SortFilterLength<X>(p: X -> bool, c: Comparator<X>, s: seq<X>)
    ensures |Filter(p, StableSort(c, s))| == |Filter(p, s)|
  {
    if s != [] {
      SortFilterLength(p, c, s[..|s| - 1]);
      InsertFilterLength(p, c, StableSort(c, s[..|s| - 1]), s[|s| - 1]);
    }
  }

  /** If hits come before misses, filtering takes a prefix. */
  lemma {:induction false} FilterIsPrefix<X>(p: X -> bool, s: seq<X>)
    requires forall i, j :: 0 <= i < j < |s| && p(s[j]) ==> p(s[i])
    ensures |Filter(p, s)| <= |s| && Filter(p, s) == s[..|Filter(p, s)|]
    ensures forall i :: 0 <= i < |s| ==> (p(s[i]) <==> i < |Filter(p, s)|)
  {
    if s != [] {
      var t, last := s[..|s| - 1], s[|s| - 1];
      FilterIsPrefix(p, t);
      if p(last) {
        FilterAll(p, t) by {
          forall x | x in t ensures p(x) {
            var i :| 0 <= i < |t| && t[i] == x;
            assert s[i] == x;
          }
        }
        assert s == t + [last];
      }
    }
  }

  /** In the ascending list the elements of lower groups are exactly a prefix. */
  lemma GroupsAscend<T(!new)>(sk: SortKey<T>, items: seq<T>, g: nat)
    requires Consistent(sk)
    ensures var asc := StableSort(sk.Order(), items);
      && |asc| == |items| && GroupStart(sk, items, g) <= |asc|
      && forall i :: 0 <= i < |asc| ==> (sk.Group(asc[i]) < g <==> i < GroupStart(sk, items, g))
  {
    var o, p := sk.Order(), GroupLess(sk, g);
    var asc := StableSort(o, items);
    CompareIsPreorder(sk);
    StableSortStable(o, items);
    StableSortPermutes(o, items);
    SortFilterLength(p, o, items);
    forall i, j | 0 <= i < j < |asc| && p(asc[j]) ensures p(asc[i]) {
      assert o(asc[i], asc[j]) <= 0;
    }
    FilterIsPrefix(p, asc);
    forall i | 0 <= i < |asc| ensures sk.Group(asc[i]) < g <==> i < GroupStart(sk, items, g) {
      assert p(asc[i]) <==> sk.Group(asc[i]) < g;
    }
  }

  lemma GroupSlice<T(!new)>(sk: SortKey<T>, items: seq<T>, g: nat)
    requires Consistent(sk)
    ensures var asc := StableSort(sk.Order(), items);
      && GroupStart(sk, items, g) <= GroupStart(sk, items, g + 1) <= |asc|
      && Filter(GroupIs(sk, g), asc) == asc[GroupStart(sk, items, g)..GroupStart(sk, items, g + 1)]
  {
    var asc, lo, hi := StableSort(sk.Order(), items), GroupStart(sk, items, g), GroupStart(sk, items, g + 1);
    GroupsAscend(sk, items, g);
    GroupsAscend(sk, items, g + 1);
    if hi < |asc| {
      var x := asc[hi];
      assert sk.Group(x) < g <==> hi < lo;
    }
    FilterOneStretch(GroupIs(sk, g), asc, lo, hi);
  }

  ghost predicate PartIs<T>(parts: seq<seq<T>>, asc: seq<T>, bounds: nat -> nat, g: nat)
    requires g < |parts|
  {
    bounds(g) <= bounds(g + 1) <= |asc| && parts[g] == asc[bounds(g)..bounds(g + 1)]
  }

  /** `bounds` cuts `asc` into the parts. */
  ghost predicate CutsInto<T>(parts: seq<seq<T>>, asc: seq<T>, bounds: nat -> nat) {
    bounds(0) == 0 && forall g :: 0 <= g < |parts| ==> PartIs(parts, asc, bounds, g)
  }

  lemma CutsPrefix<T>(parts: seq<seq<T>>, asc: seq<T>, bounds: nat -> nat)
    requires CutsInto(parts, asc, bounds) && parts != []
    ensures CutsInto(parts[..|parts| - 1], asc, bounds)
  {
    var front := parts[..|parts| - 1];
    forall g | 0 <= g < |front| ensures PartIs(front, asc, bounds, g) {
      assert PartIs(parts, asc, bounds, g);
    }
  }

  lemma {:induction false} ReversedLength<T>(parts: seq<seq<T>>, asc: seq<T>, bounds: nat -> nat)
    requires CutsInto(parts, asc, bounds)
    ensures |EachReversed(parts)| == bounds(|parts|)
  {
    if parts != [] {
      CutsPrefix(parts, asc, bounds);
      ReversedLength(parts[..|parts| - 1], asc, bounds);
      assert PartIs(parts, asc, bounds, |parts| - 1);
    }
  }

  /** Position `p` inside part `g` mirrors the part's stretch of the ascending list. */
  lemma {:induction false} ReversedAt<T>(parts: seq<seq<T>>, asc: seq<T>, bounds: nat -> nat, g: nat, p: nat, m: int)
    requires CutsInto(parts, asc, bounds) && g < |parts|
    requires bounds(g) <= p < bounds(g + 1) && m == bounds(g) + (bounds(g + 1) - 1 - p)
    ensures p < |EachReversed(parts)| && 0 <= m < |asc|
    ensures EachReversed(parts)[p] == asc[m]
  {
    var last := |parts| - 1;
    var front, rev := EachReversed(parts[..last]), Reverse(parts[last]);
    assert PartIs(parts, asc, bounds, g);
    CutsPrefix(parts, asc, bounds);
    ReversedLength(parts[..last], asc, bounds);
    if g < last {
      ReversedAt(parts[..last], asc, bounds, g, p, m);
    } else {
      MirrorAt(asc, bounds(g), bounds(g + 1), p);
    }
  }

  lemma MirrorAt<X>(s: seq<X>, lo: nat, hi: nat, p: nat)
    requires lo <= p < hi <= |s|
    ensures Reverse(s[lo..hi])[p - lo] == s[lo + (hi - 1 - p)]
  {
  }

  function Bounds<T>(sk: SortKey<T>, items: seq<T>): nat -> nat {
    (g: nat) => GroupStart(sk, items, g)
  }

  lemma GroupsCut<T(!new)>(sk: SortKey<T>, items: seq<T>)
    requires Consistent(sk)
    ensures CutsInto(GroupParts(sk, StableSort(sk.Order(), items)), StableSort(sk.Order(), items), Bounds(sk, items))
  {
    var asc := StableSort(sk.Order(), items);
    FilterNone(GroupLess(sk, 0), items);
    forall g: nat | g < sk.groups ensures PartIs(GroupParts(sk, asc), asc, Bounds(sk, items), g) {
      GroupSlice(sk, items, g);
    }
  }

  lemma DescendingAt<T(!new)>(sk: SortKey<T>, items: seq<T>, bounds: nat -> nat, g: nat, p: nat, m: int)
    requires Consistent(sk) && g < sk.groups && bounds == Bounds(sk, items)
    requires bounds(g) <= p < bounds(g + 1) && m == bounds(g) + (bounds(g + 1) - 1 - p)
    ensures |StableSort(sk.Order(), items)| == |items|
    ensures p < |View(sk, DescendingOrder, items)| && 0 <= m < |items|
    ensures View(sk, DescendingOrder, items)[p] == StableSort(sk.Order(), items)[m]
  {
    var asc := StableSort(sk.Order(), items);
    StableSortPermutes(sk.Order(), items);
    GroupsCut(sk, items);
    ReversedAt(GroupParts(sk, asc), asc, bounds, g, p, m);
  }

  lemma GroupStartTotal<T(!new)>(sk: SortKey<T>, items: seq<T>)
    requires WellFormed(sk)
    ensures GroupStart(sk, items, sk.groups) == |items| && GroupStart(sk, items, 0) == 0
  {
    FilterAll(GroupLess(sk, sk.groups), items);
    FilterNone(GroupLess(sk, 0), items);
  }

  /** The view has every element once, whatever the direction. */
  lemma ViewLength<T(!new)>(sk: SortKey<T>, direction: Direction, items: seq<T>)
    requires WellFormed(sk) && Consistent(sk)
    ensures |View(sk, direction, items)| == |items|
  {
    StableSortPermutes(sk.Order(), items);
    var asc := StableSort(sk.Order(), items);
    GroupsCut(sk, items);
    ReversedLength(GroupParts(sk, asc), asc, Bounds(sk, items));
    GroupStartTotal(sk, items);
  }
}
