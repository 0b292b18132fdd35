/**
 The cached grouping of slots by bucket, as values: `order` is a permutation of slots and `start` cuts
 it into one segment per bucket. Writing slots one by one at the fill mark of their segment is the core
 of both build_order and regroup.
 */
module Groupings {
  import opened Sequences

  // --- counts and starts ------------------------------------------------------------

  ghost predicate CountsMatch(counts: seq<nat>, buckets: seq<nat>) {
    && (forall s :: 0 <= s < |buckets| ==> buckets[s] < |counts|)
    && (forall b :: 0 <= b < |counts| ==> counts[b] == multiset(buckets)[b])
  }

  lemma CountsAppend(counts: seq<nat>, buckets: seq<nat>, b: nat)
    requires CountsMatch(counts, buckets) && b < |counts|
    ensures CountsMatch(counts[b := counts[b] + 1], buckets + [b])
  {
  }

  lemma CountsUpdate(counts: seq<nat>, buckets: seq<nat>, slot: nat, b: nat)
    requires CountsMatch(counts, buckets) && slot < |buckets| && b < |counts|
    ensures counts[buckets[slot]] > 0
    ensures var fewer := counts[buckets[slot] := counts[buckets[slot]] - 1];
      CountsMatch(fewer[b := fewer[b] + 1], buckets[slot := b])
  {
    var a := buckets[slot];
    assert a in multiset(buckets);
    assert multiset(buckets[slot := b]) == multiset(buckets) - multiset{a} + multiset{b};
  }

  ghost predicate IsStarts(start: seq<nat>, counts: seq<nat>) {
    && |start| == |counts| + 1 && start[0] == 0
    && forall b :: 0 <= b < |counts| ==> start[b + 1] == start[b] + counts[b]
  }

  /** Segment boundaries: non-decreasing from 0 to `n`, one segment per bucket. */
  ghost predicate Segments(start: seq<nat>, k: nat, n: nat) {
    && |start| == k + 1 && start[0] == 0 && start[k] == n
    && forall b, c :: 0 <= b <= c <= k ==> start[b] <= start[c]
  }

  function InBucket(buckets: seq<nat>, b: nat): nat -> bool {
    (s: nat) => s < |buckets| && buckets[s] == b
  }

  /** The slots of bucket `b` among the first `n`, ascending. */
  function BucketSlots(buckets: seq<nat>, b: nat, n: nat): seq<nat> {
    Filter(InBucket(buckets, b), Iota(0, n))
  }

  lemma {:induction false} BucketSlotsCount(buckets: seq<nat>, b: nat, n: nat)
    requires n <= |buckets|
    ensures |BucketSlots(buckets, b, n)| == multiset(buckets[..n])[b]
  {
    if n > 0 {
      BucketSlotsCount(buckets, b, n - 1);
      assert Iota(0, n)[..n - 1] == Iota(0, n - 1);
      assert buckets[..n] == buckets[..n - 1] + [buckets[n - 1]];
    }
  }

  /** Distinct slots of bucket `b` are at most as many as the bucket counts. */
  lemma BucketCapacity(buckets: seq<nat>, b: nat, placed: seq<nat>)
    requires NoDup(placed)
    ensures |Filter(InBucket(buckets, b), placed)| <= multiset(buckets)[b]
  {
    var p, n := InBucket(buckets, b), |buckets|;
    var mine, all := Filter(p, placed), BucketSlots(buckets, b, n);
    BucketSlotsCount(buckets, b, n);
    assert buckets[..n] == buckets;
    FilterNoDup(p, placed);
    IotaElements(n);
    FilterNoDup(p, Iota(0, n));
    NoDupCardinality(mine);
    NoDupCardinality(all);
    forall x | x in Elements(mine) ensures x in Elements(all) {
      FilterMember(p, placed, x);
      FilterMember(p, Iota(0, n), x);
      assert Iota(0, n)[x] == x;
    }
    SubsetNotLarger(Elements(mine), Elements(all));
  }

  lemma SubsetNotLarger<X>(a: set<X>, b: set<X>)
    requires a <= b
    ensures |a| <= |b|
  {
    assert b == a + (b - a);
  }

  /** A permutation of all slots fills every bucket exactly. */
  lemma BucketFull(buckets: seq<nat>, b: nat, placed: seq<nat>)
    requires IsPermutation(placed, |buckets|)
    ensures |Filter(InBucket(buckets, b), placed)| == multiset(buckets)[b]
  {
    var p, n := InBucket(buckets, b), |buckets|;
    BucketSlotsCount(buckets, b, n);
    assert buckets[..n] == buckets;
    FilterNoDup(p, placed);
    IotaElements(n);
    FilterNoDup(p, Iota(0, n));
    PermutationCovers(placed, n);
    forall x: nat ensures x in Filter(p, placed) <==> x in BucketSlots(buckets, b, n) {
      FilterMember(p, placed, x);
      FilterMember(p, Iota(0, n), x);
      assert x in Iota(0, n) <==> x < n by {
        assert x < n ==> Iota(0, n)[x] == x;
      }
    }
    SameElementsSameLength(Filter(p, placed), BucketSlots(buckets, b, n));
  }

  /** How many slots have a bucket below `b`. */
  function SlotsBelow(buckets: seq<nat>, b: nat): nat {
    if b == 0 then 0 else SlotsBelow(buckets, b - 1) + multiset(buckets)[b - 1]
  }

  lemma {:induction false} SlotsBelowAppend(buckets: seq<nat>, x: nat, b: nat)
    ensures SlotsBelow(buckets + [x], b) == SlotsBelow(buckets, b) + if x < b then 1 else 0
  {
    if b > 0 {
      SlotsBelowAppend(buckets, x, b - 1);
    }
  }

  lemma {:induction false} SlotsBelowTotal(buckets: seq<nat>, k: nat)
    requires forall s :: 0 <= s < |buckets| ==> buckets[s] < k
    ensures SlotsBelow(buckets, k) == |buckets|
  {
    if buckets == [] {
      SlotsBelowNone(k);
    } else {
      var last := |buckets| - 1;
      SlotsBelowTotal(buckets[..last], k);
      SlotsBelowAppend(buckets[..last], buckets[last], k);
      assert buckets == buckets[..last] + [buckets[last]];
    }
  }

  lemma {:induction false} SlotsBelowNone(k: nat)
    ensures SlotsBelow([], k) == 0
  {
    if k > 0 {
      SlotsBelowNone(k - 1);
    }
  }

  lemma {:induction false} StartsAreSlotsBelow(start: seq<nat>, counts: seq<nat>, buckets: seq<nat>, b: nat)
    requires CountsMatch(counts, buckets) && IsStarts(start, counts) && b <= |counts|
    ensures start[b] == SlotsBelow(buckets, b)
  {
    if b > 0 {
      StartsAreSlotsBelow(start, counts, buckets, b - 1);
    }
  }

  lemma {:induction false} StartsAscend(start: seq<nat>, counts: seq<nat>, b: nat, c: nat)
    requires IsStarts(start, counts) && b <= c <= |counts|
    ensures start[b] <= start[c]
  {
    if b < c {
      StartsAscend(start, counts, b, c - 1);
    }
  }

  lemma StartsAreSegments(start: seq<nat>, counts: seq<nat>, buckets: seq<nat>)
    requires CountsMatch(counts, buckets) && IsStarts(start, counts)
    ensures Segments(start, |counts|, |buckets|)
  {
    StartsAreSlotsBelow(start, counts, buckets, |counts|);
    SlotsBelowTotal(buckets, |counts|);
    forall b, c | 0 <= b <= c <= |counts| ensures start[b] <= start[c] {
      StartsAscend(start, counts, b, c);
    }
  }

  method BucketStarts(counts: seq<nat>) returns (start: seq<nat>)
    ensures IsStarts(start, counts)
  {
    start := [0];
    for b := 0 to |counts|
      invariant |start| == b + 1 && start[0] == 0
      invariant forall c :: 0 <= c < b ==> start[c + 1] == start[c] + counts[c]
    {
      start := start + [start[b] + counts[b]];
    }
  }

  /** The segment a position lies in. */
  lemma SegmentOf(start: seq<nat>, k: nat, n: nat, x: nat) returns (b: nat)
    requires Segments(start, k, n) && x < n
    ensures b < k && start[b] <= x < start[b + 1]
  {
    b := 0;
    while start[b + 1] <= x
      invariant b < k && start[b] <= x
      decreases k - b
    {
      b := b + 1;
    }
  }

  /** Positions in order lie in segments in order. */
  lemma SegmentsInOrder(start: seq<nat>, k: nat, n: nat, b: nat, x: nat, c: nat, y: nat)
    requires Segments(start, k, n) && b < k && c < k
    requires start[b] <= x < start[b + 1] && start[c] <= y < start[c + 1] && x <= y
    ensures b <= c
  {
    var end, first := start[c + 1], start[b];
    assert c + 1 <= b ==> end <= first;
  }

  // --- placing ------------------------------------------------------------------------

  /** order[start[b]..fill[b]] holds the slots of bucket `b` placed so far, in placing order. */
  ghost predicate SegmentPlacing(order: seq<nat>, start: seq<nat>, fill: seq<nat>, buckets: seq<nat>,
                                 placed: seq<nat>, b: nat)
    requires b < |fill| && |start| == |fill| + 1
  {
    && start[b] <= fill[b] <= start[b + 1] <= |order|
    && order[start[b]..fill[b]] == Filter(InBucket(buckets, b), placed)
  }

  ghost predicate Placing(order: seq<nat>, start: seq<nat>, fill: seq<nat>, buckets: seq<nat>, placed: seq<nat>) {
    && |start| == |fill| + 1 && Segments(start, |fill|, |order|)
    && forall b :: 0 <= b < |fill| ==> SegmentPlacing(order, start, fill, buckets, placed, b)
  }

  lemma PlacingStarts(order: seq<nat>, start: seq<nat>, buckets: seq<nat>, k: nat)
    requires Segments(start, k, |order|)
    ensures Placing(order, start, start[..k], buckets, [])
  {
    forall b | 0 <= b < k ensures SegmentPlacing(order, start, start[..k], buckets, [], b) {
      assert start[b + 1] <= start[k];
    }
  }

  /** order[fill[b]++] = slot keeps the invariant: the bucket has room, and no other segment is touched. */
  lemma PlaceNext(order: seq<nat>, start: seq<nat>, fill: seq<nat>, counts: seq<nat>, buckets: seq<nat>,
                  placed: seq<nat>, slot: nat, b: nat)
    requires Placing(order, start, fill, buckets, placed)
    requires CountsMatch(counts, buckets) && IsStarts(start, counts)
    requires slot < |buckets| && buckets[slot] == b && NoDup(placed + [slot])
    ensures b < |fill| && fill[b] < |order|
    ensures Placing(order[fill[b] := slot], start, fill[b := fill[b] + 1], buckets, placed + [slot])
  {
    PlaceHere(order, start, fill, counts, buckets, placed, slot, b);
    var order', fill' := order[fill[b] := slot], fill[b := fill[b] + 1];
    forall c | 0 <= c < |fill| ensures SegmentPlacing(order', start, fill', buckets, placed + [slot], c) {
      if c != b {
        PlaceElsewhere(order, start, fill, buckets, placed, slot, b, c);
      }
    }
  }

  lemma PlaceHere(order: seq<nat>, start: seq<nat>, fill: seq<nat>, counts: seq<nat>, buckets: seq<nat>,
                  placed: seq<nat>, slot: nat, b: nat)
    requires Placing(order, start, fill, buckets, placed)
    requires CountsMatch(counts, buckets) && IsStarts(start, counts)
    requires slot < |buckets| && buckets[slot] == b && NoDup(placed + [slot])
    ensures b < |fill| && fill[b] < start[b + 1] <= |order|
    ensures SegmentPlacing(order[fill[b] := slot], start, fill[b := fill[b] + 1], buckets, placed + [slot], b)
  {
    assert SegmentPlacing(order, start, fill, buckets, placed, b);
    BucketCapacity(buckets, b, placed + [slot]);
    FilterConcat(InBucket(buckets, b), placed, [slot]);
    assert Filter(InBucket(buckets, b), [slot]) == [slot];
    assert order[fill[b] := slot][start[b]..fill[b] + 1] == order[start[b]..fill[b]] + [slot];
  }

  lemma PlaceElsewhere(order: seq<nat>, start: seq<nat>, fill: seq<nat>, buckets: seq<nat>, placed: seq<nat>,
                       slot: nat, b: nat, c: nat)
    requires Placing(order, start, fill, buckets, placed)
    requires b < |fill| && c < |fill| && b != c && fill[b] < start[b + 1] <= |order|
    requires slot < |buckets| && buckets[slot] == b
    ensures SegmentPlacing(order[fill[b] := slot], start, fill[b := fill[b] + 1], buckets, placed + [slot], c)
  {
    assert SegmentPlacing(order, start, fill, buckets, placed, b)
        && SegmentPlacing(order, start, fill, buckets, placed, c);
    assert c < b ==> start[c + 1] <= start[b];
    assert b < c ==> start[b + 1] <= start[c];
    UntouchedSlice(order, start[c], fill[c], fill[b], slot);
    FilterConcat(InBucket(buckets, c), placed, [slot]);
    assert Filter(InBucket(buckets, c), [slot]) == [];
  }

  lemma UntouchedSlice<X>(s: seq<X>, lo: nat, hi: nat, i: nat, x: X)
    requires lo <= hi <= |s| && i < |s| && !(lo <= i < hi)
    ensures s[i := x][lo..hi] == s[lo..hi]
  {
  }

  /** Segment `b` holds exactly the slots of bucket `b`, in the order of `placed`. */
  ghost predicate SegmentGrouped(order: seq<nat>, start: seq<nat>, buckets: seq<nat>, placed: seq<nat>, b: nat)
    requires b + 1 < |start|
  {
    && start[b] <= start[b + 1] <= |order|
    && order[start[b]..start[b + 1]] == Filter(InBucket(buckets, b), placed)
  }

  ghost predicate GroupedBy(order: seq<nat>, start: seq<nat>, buckets: seq<nat>, k: nat, placed: seq<nat>) {
    && Segments(start, k, |order|)
    && forall b :: 0 <= b < k ==> SegmentGrouped(order, start, buckets, placed, b)
  }

  lemma PlacingDone(order: seq<nat>, start: seq<nat>, fill: seq<nat>, counts: seq<nat>, buckets: seq<nat>,
                    placed: seq<nat>)
    requires Placing(order, start, fill, buckets, placed)
    requires CountsMatch(counts, buckets) && IsStarts(start, counts)
    requires IsPermutation(placed, |buckets|)
    ensures GroupedBy(order, start, buckets, |counts|, placed)
  {
    forall b | 0 <= b < |counts| ensures SegmentGrouped(order, start, buckets, placed, b) {
      assert SegmentPlacing(order, start, fill, buckets, placed, b);
      BucketFull(buckets, b, placed);
    }
  }

  lemma GroupedAt(order: seq<nat>, start: seq<nat>, buckets: seq<nat>, k: nat, placed: seq<nat>, b: nat, x: nat)
    requires GroupedBy(order, start, buckets, k, placed) && b < k && start[b] <= x < start[b + 1]
    ensures order[x] < |buckets| && buckets[order[x]] == b
  {
    assert SegmentGrouped(order, start, buckets, placed, b);
    FilterAt(InBucket(buckets, b), placed, x - start[b]);
    assert order[x] == order[start[b]..start[b + 1]][x - start[b]];
  }

  lemma GroupedDistinct(order: seq<nat>, start: seq<nat>, buckets: seq<nat>, k: nat, placed: seq<nat>, b: nat, x: nat,
                        y: nat)
    requires GroupedBy(order, start, buckets, k, placed) && NoDup(placed)
    requires b < k && start[b] <= x < y < start[b + 1]
    ensures order[x] != order[y]
  {
    assert SegmentGrouped(order, start, buckets, placed, b);
    FilterNoDup(InBucket(buckets, b), placed);
    var seg := order[start[b]..start[b + 1]];
    assert seg[x - start[b]] != seg[y - start[b]];
  }

  lemma GroupedIsPermutation(order: seq<nat>, start: seq<nat>, buckets: seq<nat>, k: nat, placed: seq<nat>)
    requires GroupedBy(order, start, buckets, k, placed) && NoDup(placed) && |order| == |buckets|
    ensures IsPermutation(order, |buckets|)
  {
    forall x | 0 <= x < |order| ensures order[x] < |buckets| {
      var b := SegmentOf(start, k, |order|, x);
      GroupedAt(order, start, buckets, k, placed, b, x);
    }
    forall x, y | 0 <= x < y < |order| ensures order[x] != order[y] {
      var b := SegmentOf(start, k, |order|, x);
      var c := SegmentOf(start, k, |order|, y);
      GroupedAt(order, start, buckets, k, placed, b, x);
      GroupedAt(order, start, buckets, k, placed, c, y);
      if b == c {
        GroupedDistinct(order, start, buckets, k, placed, b, x, y);
      }
    }
  }

  /** build_order: one pass in slot order fills every segment. */
  method CountingSort(buckets: seq<nat>, counts: seq<nat>) returns (order: seq<nat>, start: seq<nat>)
    requires CountsMatch(counts, buckets)
    ensures IsStarts(start, counts) && |order| == |buckets|
    ensures GroupedBy(order, start, buckets, |counts|, Iota(0, |buckets|))
  {
    var n := |buckets|;
    start := BucketStarts(counts);
    StartsAreSegments(start, counts, buckets);
    var fill := start[..|counts|];
    order := seq(n, _ => 0);
    PlacingStarts(order, start, buckets, |counts|);
    ghost var placed: seq<nat> := [];
    for slot := 0 to n
      invariant placed == Iota(0, slot) && |order| == n && |fill| == |counts|
      invariant Placing(order, start, fill, buckets, placed)
    {
      var b := buckets[slot];
      assert placed + [slot] == Iota(0, slot + 1);
      PlaceNext(order, start, fill, counts, buckets, placed, slot, b);
      order := order[fill[b] := slot];
      fill := fill[b := fill[b] + 1];
      placed := placed + [slot];
    }
    PlacingDone(order, start, fill, counts, buckets, placed);
  }

  // --- the cached grouping with pending changes -----------------------------------------

  function Stays(moved: seq<bool>): nat -> bool {
    (s: nat) => s < |moved| && !moved[s]
  }

  function Moves(moved: seq<bool>): nat -> bool {
    (s: nat) => !(s < |moved| && !moved[s])
  }

  /** Segment `b` has a recorded sorted prefix, and every slot in it that was not updated belongs to bucket `b`. */
  ghost predicate SegmentCached(order: seq<nat>, start: seq<nat>, sortedLen: seq<nat>, moved: seq<bool>,
                                buckets: seq<nat>, b: nat)
    requires b < |sortedLen| && |start| == |sortedLen| + 1
  {
    && start[b] + sortedLen[b] <= start[b + 1] <= |order|
    && forall x :: start[b] <= x < start[b + 1] && Stays(moved)(order[x]) ==> InBucket(buckets, b)(order[x])
  }

  /** What holds of the cached grouping at any time: the first |moved| slots are in `order`, grouped up to updates. */
  ghost predicate Cached(order: seq<nat>, start: seq<nat>, sortedLen: seq<nat>, moved: seq<bool>, buckets: seq<nat>,
                         k: nat) {
    && |sortedLen| == k && Segments(start, k, |order|)
    && |moved| <= |buckets| && IsPermutation(order, |moved|)
    && forall b :: 0 <= b < k ==> SegmentCached(order, start, sortedLen, moved, buckets, b)
  }

  /** The order regroup places slots in: those that stayed, then the updated ones, then the added ones. */
  function RegroupList(order: seq<nat>, moved: seq<bool>, n: nat): seq<nat>
    requires |moved| <= n
  {
    Filter(Stays(moved), order) + Filter(Moves(moved), order) + Iota(|moved|, n)
  }

  lemma {:induction false} FilterSplits(moved: seq<bool>, s: seq<nat>)
    ensures |Filter(Stays(moved), s)| + |Filter(Moves(moved), s)| == |s|
  {
    if s != [] {
      FilterSplits(moved, s[..|s| - 1]);
    }
  }

  lemma RegroupListIsPermutation(order: seq<nat>, moved: seq<bool>, n: nat)
    requires IsPermutation(order, |moved|) && |moved| <= n
    ensures IsPermutation(RegroupList(order, moved, n), n)
  {
    var p, q := Stays(moved), Moves(moved);
    var stay: seq<nat>, move: seq<nat> := Filter(p, order), Filter(q, order);
    FilterSplits(moved, order);
    FilterNoDup(p, order);
    FilterNoDup(q, order);
    forall i | 0 <= i < |stay| ensures stay[i] < |moved| && p(stay[i]) {
      var k := FilterOrigin(p, order, i);
    }
    forall i | 0 <= i < |move| ensures move[i] < |moved| && !p(move[i]) {
      var k := FilterOrigin(q, order, i);
    }
    ThreePartsDistinct(stay, move, Iota(|moved|, n), p, |moved|);
  }

  lemma ThreePartsDistinct(a: seq<nat>, b: seq<nat>, c: seq<nat>, p: nat -> bool, m: nat)
    requires NoDup(a) && NoDup(b) && NoDup(c)
    requires forall i :: 0 <= i < |a| ==> a[i] < m && p(a[i])
    requires forall i :: 0 <= i < |b| ==> b[i] < m && !p(b[i])
    requires forall i :: 0 <= i < |c| ==> c[i] >= m
    ensures NoDup(a + b + c)
  {
    var s := a + b + c;
    forall i, j | 0 <= i < j < |s| ensures s[i] != s[j] {
      if i < |a| {
        assert s[i] == a[i];
      } else if i < |a| + |b| {
        assert s[i] == b[i - |a|];
      }
    }
  }

  lemma PrefixNoDup<X>(s: seq<X>, t: seq<X>)
    requires s <= t && NoDup(t)
    ensures NoDup(s)
  {
    assert forall i :: 0 <= i < |s| ==> s[i] == t[i];
  }

  lemma FilterPrefix<X>(p: X -> bool, s: seq<X>, i: nat)
    requires i < |s|
    ensures p(s[i]) ==> Filter(p, s[..i + 1]) == Filter(p, s[..i]) + [s[i]]
    ensures !p(s[i]) ==> Filter(p, s[..i + 1]) == Filter(p, s[..i])
  {
    assert s[..i + 1][..i] == s[..i];
  }

  /** The first pass of regroup up to position `i`: stayed slots are placed, moved ones deferred. */
  ghost predicate Restaying(order': seq<nat>, start': seq<nat>, fill: seq<nat>, buckets: seq<nat>, order: seq<nat>,
                            moved: seq<bool>,
                            deferred: seq<nat>, i: nat)
  {
    && i <= |order|
    && Placing(order', start', fill, buckets, Filter(Stays(moved), order[..i]))
    && deferred == Filter(Moves(moved), order[..i])
  }

  /** One segment of the first pass. Returns how much of its sorted prefix stayed. */
  method RestaySegment(order0: seq<nat>, start': seq<nat>, fill0: seq<nat>, counts: seq<nat>, buckets: seq<nat>,
                       order: seq<nat>, start: seq<nat>, moved: seq<bool>, deferred0: seq<nat>, b: nat, prefixEnd: nat)
    returns (order': seq<nat>, fill: seq<nat>, deferred: seq<nat>, sorted: nat)
    requires CountsMatch(counts, buckets) && IsStarts(start', counts)
    requires IsPermutation(order, |moved|) && b + 1 < |start| && start[b] <= prefixEnd <= start[b + 1] <= |order|
    requires forall x :: start[b] <= x < start[b + 1] && Stays(moved)(order[x]) ==> InBucket(buckets, b)(order[x])
    requires Restaying(order0, start', fill0, buckets, order, moved, deferred0, start[b])
    ensures Restaying(order', start', fill, buckets, order, moved, deferred, start[b + 1])
    ensures |order'| == |order0| && |fill| == |fill0|
    ensures sorted == |Filter(Stays(moved), order[start[b]..prefixEnd])|
  {
    order', fill, deferred, sorted := order0, fill0, deferred0, 0;
    ghost var p := Stays(moved);
    ghost var placed := Filter(p, order[..start[b]]);
    assert order[start[b]..start[b]] == [];
    for i := start[b] to start[b + 1]
      invariant placed == Filter(p, order[..i]) && Placing(order', start', fill, buckets, placed)
      invariant deferred == Filter(Moves(moved), order[..i])
      invariant |order'| == |order0| && |fill| == |fill0|
      invariant sorted == |Filter(p, order[start[b]..Min(i, prefixEnd)])|
    {
      var slot := order[i];
      FilterPrefix(p, order, i);
      FilterPrefix(Moves(moved), order, i);
      PrefixCount(p, order, start[b], i, prefixEnd);
      if moved[slot] {
        deferred := deferred + [slot];
      } else {
        RestayNext(order', start', fill, counts, buckets, order, moved, placed, i, b);
        order' := order'[fill[b] := slot];
        fill := fill[b := fill[b] + 1];
        placed := placed + [slot];
        if i < prefixEnd {
          sorted := sorted + 1;
        }
      }
    }
  }

  /** A slot that stayed is placed next in its bucket. */
  lemma RestayNext(order': seq<nat>, start': seq<nat>, fill: seq<nat>, counts: seq<nat>, buckets: seq<nat>,
                   order: seq<nat>, moved: seq<bool>, placed: seq<nat>, i: nat, b: nat)
    requires CountsMatch(counts, buckets) && IsStarts(start', counts) && IsPermutation(order, |moved|)
    requires i < |order| && Stays(moved)(order[i]) && InBucket(buckets, b)(order[i])
    requires placed == Filter<nat>(Stays(moved), order[..i]) && Placing(order', start', fill, buckets, placed)
    ensures b < |fill| && fill[b] < |order'|
    ensures Placing(order'[fill[b] := order[i]], start', fill[b := fill[b] + 1], buckets, placed + [order[i]])
  {
    FilterPrefix(Stays(moved), order, i);
    FilterNoDup(Stays(moved), order[..i + 1]);
    PlaceNext(order', start', fill, counts, buckets, placed, order[i], b);
  }

  /** The survivors of s[lo..end], counted while i runs past `end`. */
  lemma PrefixCount<X>(p: X -> bool, s: seq<X>, lo: nat, i: nat, end: nat)
    requires lo <= i < |s| && lo <= end <= |s|
    ensures |Filter(p, s[lo..Min(i + 1, end)])| == |Filter(p, s[lo..Min(i, end)])| + if i < end && p(s[i]) then 1 else 0
  {
    if i < end {
      assert s[lo..i + 1][..i - lo] == s[lo..i];
    }
  }

  /** Places the slots of `list` one after the other, each at the fill mark of its bucket. */
  method PlaceAll(order0: seq<nat>, start: seq<nat>, fill0: seq<nat>, counts: seq<nat>, buckets: seq<nat>,
                  ghost placed: seq<nat>, list: seq<nat>)
    returns (order: seq<nat>, fill: seq<nat>)
    requires CountsMatch(counts, buckets) && IsStarts(start, counts)
    requires Placing(order0, start, fill0, buckets, placed)
    requires NoDup(placed + list) && forall i :: 0 <= i < |list| ==> list[i] < |buckets|
    ensures |order| == |order0| && |fill| == |fill0|
    ensures Placing(order, start, fill, buckets, placed + list)
  {
    order, fill := order0, fill0;
    ghost var done := placed;
    assert list[..0] == [] && placed + [] == placed;
    for j := 0 to |list|
      invariant |order| == |order0| && |fill| == |fill0|
      invariant done == placed + list[..j] && Placing(order, start, fill, buckets, done)
    {
      var slot := list[j];
      var b := buckets[slot];
      assert done + [slot] == placed + list[..j + 1];
      PrefixNoDup(done + [slot], placed + list);
      PlaceNext(order, start, fill, counts, buckets, done, slot, b);
      order := order[fill[b] := slot];
      fill := fill[b := fill[b] + 1];
      done := done + [slot];
    }
    assert list[..|list|] == list;
  }

  /** How much of the sorted prefix of segment `b` stayed. */
  function StayedLength(order: seq<nat>, start: seq<nat>, sortedLen: seq<nat>, moved: seq<bool>, b: nat): nat
    requires b < |sortedLen| < |start| && start[b] + sortedLen[b] <= |order|
  {
    |Filter(Stays(moved), order[start[b]..start[b] + sortedLen[b]])|
  }

  /** regroup: three passes over the slots, in the order of RegroupList; what stayed of a prefix leads its segment. */
  method Regroup(order: seq<nat>, start: seq<nat>, sortedLen: seq<nat>, moved: seq<bool>, buckets: seq<nat>,
                 counts: seq<nat>)
    returns (order': seq<nat>, start': seq<nat>, sortedLen': seq<nat>)
    requires CountsMatch(counts, buckets) && Cached(order, start, sortedLen, moved, buckets, |counts|)
    ensures IsStarts(start', counts) && |order'| == |buckets|
    ensures GroupedBy(order', start', buckets, |counts|, RegroupList(order, moved, |buckets|))
    ensures |sortedLen'| == |counts|
    ensures forall b :: 0 <= b < |counts| ==>
              && SegmentCached(order, start, sortedLen, moved, buckets, b)
              && sortedLen'[b] == StayedLength(order, start, sortedLen, moved, b)
  {
    var n, k := |buckets|, |counts|;
    start' := BucketStarts(counts);
    StartsAreSegments(start', counts, buckets);
    var fill := start'[..k];
    order' := seq(n, _ => 0);
    sortedLen' := [];
    var deferred: seq<nat> := [];
    PlacingStarts(order', start', buckets, k);
    assert order[..0] == [];
    for b := 0 to k
      invariant |order'| == n && |fill| == k && |sortedLen'| == b
      invariant Restaying(order', start', fill, buckets, order, moved, deferred, start[b])
      invariant forall c :: 0 <= c < b ==>
                  && SegmentCached(order, start, sortedLen, moved, buckets, c)
                  && sortedLen'[c] == StayedLength(order, start, sortedLen, moved, c)
    {
      assert SegmentCached(order, start, sortedLen, moved, buckets, b);
      var sorted;
      order', fill, deferred, sorted := RestaySegment(
        order', start', fill, counts, buckets, order, start, moved, deferred, b, start[b] + sortedLen[b]);
      sortedLen' := sortedLen' + [sorted];
    }
    assert order[..|order|] == order;
    ghost var stay, list := Filter(Stays(moved), order), RegroupList(order, moved, n);
    RegroupListIsPermutation(order, moved, n);
    DeferredInRange(order, moved, deferred);
    PrefixNoDup(stay + deferred, list);
    order', fill := PlaceAll(order', start', fill, counts, buckets, stay, deferred);
    order', fill := PlaceAll(order', start', fill, counts, buckets, stay + deferred, Iota(|moved|, n));
    PlacingDone(order', start', fill, counts, buckets, list);
  }

  lemma DeferredInRange(order: seq<nat>, moved: seq<bool>, deferred: seq<nat>)
    requires IsPermutation(order, |moved|) && deferred == Filter(Moves(moved), order)
    ensures forall i :: 0 <= i < |deferred| ==> deferred[i] < |moved|
  {
    forall i | 0 <= i < |deferred| ensures deferred[i] < |moved| {
      var k := FilterOrigin(Moves(moved), order, i);
    }
  }

  // --- what regroup keeps ----------------------------------------------------------------

  /** Outside segment `b`, slots that stayed are in other buckets. */
  lemma StayedElsewhere(order: seq<nat>, start: seq<nat>, sortedLen: seq<nat>, moved: seq<bool>, buckets: seq<nat>,
                        k: nat, b: nat, x: nat)
    requires Cached(order, start, sortedLen, moved, buckets, k) && b < k && x < |order|
    requires x < start[b] || start[b + 1] <= x
    requires Stays(moved)(order[x])
    ensures !InBucket(buckets, b)(order[x])
  {
    var c := SegmentOf(start, k, |order|, x);
    assert SegmentCached(order, start, sortedLen, moved, buckets, c);
    assert InBucket(buckets, c)(order[x]);
  }

  /** Filtering by bucket what stayed of a stretch of another segment leaves nothing. */
  lemma NothingElsewhere(order: seq<nat>, start: seq<nat>, sortedLen: seq<nat>, moved: seq<bool>, buckets: seq<nat>,
                         k: nat, b: nat, lo: nat, hi: nat)
    requires Cached(order, start, sortedLen, moved, buckets, k) && b < k && lo <= hi <= |order|
    requires hi <= start[b] || start[b + 1] <= lo
    ensures Filter(InBucket(buckets, b), Filter(Stays(moved), order[lo..hi])) == []
  {
    var part := order[lo..hi];
    forall s | s in Filter(Stays(moved), part) ensures !InBucket(buckets, b)(s) {
      FilterMember(Stays(moved), part, s);
      var i :| 0 <= i < |part| && part[i] == s;
      StayedElsewhere(order, start, sortedLen, moved, buckets, k, b, lo + i);
    }
    FilterNone(InBucket(buckets, b), Filter(Stays(moved), part));
  }

  lemma AllHere(order: seq<nat>, start: seq<nat>, sortedLen: seq<nat>, moved: seq<bool>, buckets: seq<nat>, k: nat,
                b: nat, lo: nat, hi: nat)
    requires Cached(order, start, sortedLen, moved, buckets, k) && b < k
    requires start[b] <= lo <= hi <= start[b + 1] <= |order|
    ensures Filter(InBucket(buckets, b), Filter(Stays(moved), order[lo..hi])) == Filter(Stays(moved), order[lo..hi])
  {
    var part := order[lo..hi];
    assert SegmentCached(order, start, sortedLen, moved, buckets, b);
    forall s | s in Filter(Stays(moved), part) ensures InBucket(buckets, b)(s) {
      FilterMember(Stays(moved), part, s);
      var i :| 0 <= i < |part| && part[i] == s;
      assert order[lo + i] == s;
    }
    FilterAll(InBucket(buckets, b), Filter(Stays(moved), part));
  }

  /** What stayed, seen bucket by bucket: the survivors of the segment, sorted prefix first. */
  lemma StayedOfBucket(order: seq<nat>, start: seq<nat>, sortedLen: seq<nat>, moved: seq<bool>, buckets: seq<nat>,
                       k: nat, b: nat)
    requires Cached(order, start, sortedLen, moved, buckets, k) && b < k
    ensures start[b] + sortedLen[b] <= start[b + 1] <= |order|
    ensures Filter(InBucket(buckets, b), Filter(Stays(moved), order))
         == Filter(Stays(moved), order[start[b]..start[b] + sortedLen[b]])
             + Filter(Stays(moved), order[start[b] + sortedLen[b]..start[b + 1]])
  {
    assert SegmentCached(order, start, sortedLen, moved, buckets, b);
    var p, q, lo, mid, hi := Stays(moved), InBucket(buckets, b), start[b], start[b] + sortedLen[b], start[b + 1];
    var n := |order|;
    NothingElsewhere(order, start, sortedLen, moved, buckets, k, b, 0, lo);
    AllHere(order, start, sortedLen, moved, buckets, k, b, lo, mid);
    AllHere(order, start, sortedLen, moved, buckets, k, b, mid, hi);
    NothingElsewhere(order, start, sortedLen, moved, buckets, k, b, hi, n);
    FilterMiddleOf(p, q, order, lo, mid, hi);
  }

  /**
   Filtering by `p`, then by a `q` that no outer element passes and every inner one does, keeps the inner stretches.
   */
  lemma FilterMiddleOf<X>(p: X -> bool, q: X -> bool, s: seq<X>, lo: nat, mid: nat, hi: nat)
    requires lo <= mid <= hi <= |s|
    requires Filter(q, Filter(p, s[0..lo])) == [] && Filter(q, Filter(p, s[hi..|s|])) == []
    requires Filter(q, Filter(p, s[lo..mid])) == Filter(p, s[lo..mid])
    requires Filter(q, Filter(p, s[mid..hi])) == Filter(p, s[mid..hi])
    ensures Filter(q, Filter(p, s)) == Filter(p, s[lo..mid]) + Filter(p, s[mid..hi])
  {
    var a, b, c, d := s[0..lo], s[lo..mid], s[mid..hi], s[hi..|s|];
    FourParts(s, lo, mid, hi);
    FilterMiddle(p, q, a, b, c, d, Filter(p, b), Filter(p, c));
  }

  lemma FilterMiddle<X>(p: X -> bool, q: X -> bool, a: seq<X>, b: seq<X>, c: seq<X>, d: seq<X>, b': seq<X>, c': seq<X>)
    requires Filter(q, Filter(p, a)) == [] && Filter(q, Filter(p, d)) == []
    requires Filter(q, Filter(p, b)) == b' && Filter(q, Filter(p, c)) == c'
    ensures Filter(q, Filter(p, a + b + c + d)) == b' + c'
  {
    FilterFour(p, q, a, b, c, d);
    assert [] + b' + c' + [] == b' + c';
  }

  lemma FourParts<X>(s: seq<X>, lo: nat, mid: nat, hi: nat)
    requires lo <= mid <= hi <= |s|
    ensures s == s[0..lo] + s[lo..mid] + s[mid..hi] + s[hi..|s|]
  {
  }

  lemma FilterFour<X>(p: X -> bool, q: X -> bool, a: seq<X>, b: seq<X>, c: seq<X>, d: seq<X>)
    ensures Filter(q, Filter(p, a + b + c + d))
        == Filter(q, Filter(p, a)) + Filter(q, Filter(p, b)) + Filter(q, Filter(p, c)) + Filter(q, Filter(p, d))
  {
    FilterConcat(p, a + b + c, d);
    FilterConcat(p, a + b, c);
    FilterConcat(p, a, b);
    FilterConcat(q, Filter(p, a + b + c), Filter(p, d));
    FilterConcat(q, Filter(p, a + b), Filter(p, c));
    FilterConcat(q, Filter(p, a), Filter(p, b));
  }

  /** The new sorted prefix of segment `b` is what stayed of the old one, in the same order. */
  lemma RegroupedPrefix(order: seq<nat>, start: seq<nat>, sortedLen: seq<nat>, moved: seq<bool>, buckets: seq<nat>,
                        k: nat, b: nat,
                        order': seq<nat>, start': seq<nat>)
    requires Cached(order, start, sortedLen, moved, buckets, k) && b < k
    requires GroupedBy(order', start', buckets, k, RegroupList(order, moved, |buckets|))
    ensures start[b] + sortedLen[b] <= |order|
    ensures var kept := StayedLength(order, start, sortedLen, moved, b);
      && start'[b] + kept <= start'[b + 1] <= |order'|
      && order'[start'[b]..start'[b] + kept] == Filter(Stays(moved), order[start[b]..start[b] + sortedLen[b]])
  {
    StayedOfBucket(order, start, sortedLen, moved, buckets, k, b);
    var q, stay, move, added := InBucket(buckets, b), Filter(Stays(moved), order), Filter(Moves(moved), order),
        Iota(|moved|, |buckets|);
    assert SegmentGrouped(order', start', buckets, RegroupList(order, moved, |buckets|), b);
    FilterConcat(q, stay + move, added);
    FilterConcat(q, stay, move);
    var first, second := Filter(Stays(moved), order[start[b]..start[b] + sortedLen[b]]),
                         Filter(Stays(moved), order[start[b] + sortedLen[b]..start[b + 1]]);
    SegmentPrefix(order', start'[b], start'[b + 1], first, second, Filter(q, move), Filter(q, added));
  }

  lemma SegmentPrefix<X>(s: seq<X>, lo: nat, hi: nat, a: seq<X>, b: seq<X>, c: seq<X>, d: seq<X>)
    requires lo <= hi <= |s| && s[lo..hi] == a + b + c + d
    ensures lo + |a| <= hi && s[lo..lo + |a|] == a
  {
    var seg := s[lo..hi];
    assert |seg| == hi - lo;
    forall i | 0 <= i < |a| ensures s[lo + i] == a[i] {
      assert seg[i] == a[i];
    }
  }
}
