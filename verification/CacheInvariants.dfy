/** What every change to the cached grouping keeps: the grouping itself, for any comparator, and the sorted prefixes. */
module CacheInvariants {
  import opened Sequences
  import opened Orders
  import opened Groupings
  import opened Compaction

  /** The recorded prefix of segment `b` ascends, leaving out slots updated since. */
  ghost predicate SegmentAscends(c: Comparator<nat>, order: seq<nat>, start: seq<nat>, sortedLen: seq<nat>,
                                 moved: seq<bool>, b: nat)
    requires b < |sortedLen| < |start| && start[b] + sortedLen[b] <= |order|
  {
    forall x, y :: start[b] <= x < y < start[b] + sortedLen[b] && Stays(moved)(order[x]) && Stays(moved)(order[y])
                   ==> c(order[x], order[y]) <= 0
  }

  ghost predicate PrefixesAscend(c: Comparator<nat>, order: seq<nat>, start: seq<nat>, sortedLen: seq<nat>,
                                 moved: seq<bool>) {
    |sortedLen| < |start| &&
    forall b :: 0 <= b < |sortedLen| ==>
      start[b] + sortedLen[b] <= |order| && SegmentAscends(c, order, start, sortedLen, moved, b)
  }

  function NoneMoved(n: nat): (moved: seq<bool>)
    ensures |moved| == n && forall i :: 0 <= i < n ==> !moved[i]
  {
    seq(n, _ => false)
  }

  // --- build_order ------------------------------------------------------------------------

  /** A fresh grouping is a grouping; nothing is recorded as sorted. */
  lemma GroupedIsCached(order: seq<nat>, start: seq<nat>, buckets: seq<nat>, k: nat, placed: seq<nat>,
                        sortedLen: seq<nat>)
    requires GroupedBy(order, start, buckets, k, placed) && NoDup(placed) && |order| == |buckets| && |sortedLen| == k
    requires forall b :: 0 <= b < k ==> start[b] + sortedLen[b] <= start[b + 1]
    ensures Cached(order, start, sortedLen, NoneMoved(|buckets|), buckets, k)
  {
    var moved := NoneMoved(|buckets|);
    GroupedIsPermutation(order, start, buckets, k, placed);
    forall b | 0 <= b < k ensures SegmentCached(order, start, sortedLen, moved, buckets, b) {
      assert SegmentGrouped(order, start, buckets, placed, b);
      forall x | start[b] <= x < start[b + 1] ensures InBucket(buckets, b)(order[x]) {
        GroupedAt(order, start, buckets, k, placed, b, x);
      }
    }
  }

  function Zeros(k: nat): (s: seq<nat>)
    ensures |s| == k && forall b :: 0 <= b < k ==> s[b] == 0
  {
    seq(k, _ => 0)
  }

  lemma NothingSortedAscends(c: Comparator<nat>, order: seq<nat>, start: seq<nat>, moved: seq<bool>, k: nat)
    requires Segments(start, k, |order|)
    ensures PrefixesAscend(c, order, start, Zeros(k), moved)
  {
    forall b | 0 <= b < k
      ensures start[b] + Zeros(k)[b] <= |order| && SegmentAscends(c, order, start, Zeros(k), moved, b)
    {
      assert start[b] <= start[k];
    }
  }

  // --- regroup --------------------------------------------------------------------------------

  ghost predicate Regrouped(order: seq<nat>, start: seq<nat>, sortedLen: seq<nat>, moved: seq<bool>,
                            buckets: seq<nat>, k: nat,
                            order': seq<nat>, start': seq<nat>, sortedLen': seq<nat>)
  {
    && Cached(order, start, sortedLen, moved, buckets, k)
    && GroupedBy(order', start', buckets, k, RegroupList(order, moved, |buckets|))
    && |order'| == |buckets| && |sortedLen'| == k
    && forall b :: 0 <= b < k ==>
         && SegmentCached(order, start, sortedLen, moved, buckets, b)
         && sortedLen'[b] == StayedLength(order, start, sortedLen, moved, b)
  }

  lemma RegroupedIsCached(order: seq<nat>, start: seq<nat>, sortedLen: seq<nat>, moved: seq<bool>, buckets: seq<nat>,
                          k: nat,
                          order': seq<nat>, start': seq<nat>, sortedLen': seq<nat>)
    requires Regrouped(order, start, sortedLen, moved, buckets, k, order', start', sortedLen')
    ensures Cached(order', start', sortedLen', NoneMoved(|buckets|), buckets, k)
  {
    RegroupListIsPermutation(order, moved, |buckets|);
    forall b | 0 <= b < k ensures start'[b] + sortedLen'[b] <= start'[b + 1] {
      RegroupedPrefix(order, start, sortedLen, moved, buckets, k, b, order', start');
    }
    GroupedIsCached(order', start', buckets, k, RegroupList(order, moved, |buckets|), sortedLen');
  }

  /** Every recorded sorted prefix is still sorted after any mix of pending adds and updates has been placed. */
  lemma RegroupedAscends(c: Comparator<nat>, order: seq<nat>, start: seq<nat>, sortedLen: seq<nat>, moved: seq<bool>,
                         buckets: seq<nat>, k: nat,
                         order': seq<nat>, start': seq<nat>, sortedLen': seq<nat>)
    requires Regrouped(order, start, sortedLen, moved, buckets, k, order', start', sortedLen')
    requires PrefixesAscend(c, order, start, sortedLen, moved)
    ensures PrefixesAscend(c, order', start', sortedLen', NoneMoved(|buckets|))
  {
    forall b | 0 <= b < k
      ensures start'[b] + sortedLen'[b] <= |order'|
      ensures SegmentAscends(c, order', start', sortedLen', NoneMoved(|buckets|), b)
    {
      RegroupedPrefix(order, start, sortedLen, moved, buckets, k, b, order', start');
      assert SegmentAscends(c, order, start, sortedLen, moved, b);
      var prefix, prefix' := order[start[b]..start[b] + sortedLen[b]], order'[start'[b]..start'[b] + sortedLen'[b]];
      FilteredPrefixAscends(c, order, start, sortedLen, moved, b, prefix, prefix');
      forall x, y | start'[b] <= x < y < start'[b] + sortedLen'[b] ensures c(order'[x], order'[y]) <= 0 {
        assert prefix'[x - start'[b]] == order'[x] && prefix'[y - start'[b]] == order'[y];
      }
    }
  }

  lemma FilteredPrefixAscends(c: Comparator<nat>, order: seq<nat>, start: seq<nat>, sortedLen: seq<nat>,
                              moved: seq<bool>, b: nat,
                              prefix: seq<nat>, kept: seq<nat>)
    requires b < |sortedLen| < |start| && start[b] + sortedLen[b] <= |order|
    requires SegmentAscends(c, order, start, sortedLen, moved, b)
    requires prefix == order[start[b]..start[b] + sortedLen[b]] && kept == Filter<nat>(Stays(moved), prefix)
    ensures forall i, j :: 0 <= i < j < |kept| ==> c(kept[i], kept[j]) <= 0
  {
    var p, r := Stays(moved), (x: nat, y: nat) => c(x, y) <= 0;
    forall i, j | 0 <= i < j < |prefix| && p(prefix[i]) && p(prefix[j]) ensures r(prefix[i], prefix[j]) {
      assert prefix[i] == order[start[b] + i] && prefix[j] == order[start[b] + j];
    }
    FilterPairwise(p, r, prefix);
    forall i, j | 0 <= i < j < |kept| ensures c(kept[i], kept[j]) <= 0 {
      assert r(kept[i], kept[j]);
    }
  }

  // --- adds and updates -------------------------------------------------------------------------

  /** Adding a slot leaves the cached part alone. */
  lemma AppendKeepsCached(order: seq<nat>, start: seq<nat>, sortedLen: seq<nat>, moved: seq<bool>, buckets: seq<nat>,
                          k: nat, b: nat)
    requires Cached(order, start, sortedLen, moved, buckets, k)
    ensures Cached(order, start, sortedLen, moved, buckets + [b], k)
  {
    forall c | 0 <= c < k ensures SegmentCached(order, start, sortedLen, moved, buckets + [b], c) {
      assert SegmentCached(order, start, sortedLen, moved, buckets, c);
      forall x | start[c] <= x < start[c + 1] && Stays(moved)(order[x]) ensures InBucket(buckets + [b], c)(order[x]) {
        assert InBucket(buckets, c)(order[x]);
      }
    }
  }

  function MarkMoved(moved: seq<bool>, slot: nat): (r: seq<bool>)
    ensures |r| == |moved|
  {
    if slot < |moved| then moved[slot := true] else moved
  }

  /** Re-reading a slot's key keeps the cached part valid: the slot is marked, or it is not there yet. */
  lemma UpdateKeepsCached(order: seq<nat>, start: seq<nat>, sortedLen: seq<nat>, moved: seq<bool>, buckets: seq<nat>,
                          k: nat, slot: nat, b: nat)
    requires Cached(order, start, sortedLen, moved, buckets, k) && slot < |buckets|
    ensures Cached(order, start, sortedLen, MarkMoved(moved, slot), buckets[slot := b], k)
  {
    var moved', buckets' := MarkMoved(moved, slot), buckets[slot := b];
    forall c | 0 <= c < k ensures SegmentCached(order, start, sortedLen, moved', buckets', c) {
      assert SegmentCached(order, start, sortedLen, moved, buckets, c);
      forall x | start[c] <= x < start[c + 1] && Stays(moved')(order[x]) ensures InBucket(buckets', c)(order[x]) {
        assert Stays(moved)(order[x]);
        assert InBucket(buckets, c)(order[x]);
      }
    }
  }

  /** A comparator that agrees on every slot that still stays sees the same sorted prefixes. */
  lemma AgreeingAscends(c: Comparator<nat>, d: Comparator<nat>, order: seq<nat>, start: seq<nat>, sortedLen: seq<nat>,
                        moved: seq<bool>, moved': seq<bool>)
    requires PrefixesAscend(c, order, start, sortedLen, moved)
    requires forall s: nat :: Stays(moved')(s) ==> Stays(moved)(s)
    requires forall s: nat, t: nat :: Stays(moved')(s) && Stays(moved')(t) ==> c(s, t) == d(s, t)
    ensures PrefixesAscend(d, order, start, sortedLen, moved')
  {
    forall b | 0 <= b < |sortedLen|
      ensures start[b] + sortedLen[b] <= |order| && SegmentAscends(d, order, start, sortedLen, moved', b)
    {
      assert SegmentAscends(c, order, start, sortedLen, moved, b);
    }
  }

  // --- compact --------------------------------------------------------------------------------------

  lemma {:induction false} KeptIotaCount(remap: seq<nat>, n: nat)
    requires n <= |remap|
    ensures |Filter<nat>(Kept(remap), Iota(0, n))| == KeptBefore(remap, n)
  {
    if n > 0 {
      KeptIotaCount(remap, n - 1);
      assert Iota(0, n)[..n - 1] == Iota(0, n - 1);
    }
  }

  /** A permutation of the slots holds all kept ones. */
  lemma KeptCount(order: seq<nat>, remap: seq<nat>)
    requires IsPermutation(order, |remap|)
    ensures |Filter<nat>(Kept(remap), order)| == KeptBefore(remap, |remap|)
  {
    var p, n := Kept(remap), |remap|;
    KeptIotaCount(remap, n);
    IotaElements(n);
    FilterNoDup(p, order);
    FilterNoDup(p, Iota(0, n));
    PermutationCovers(order, n);
    forall x: nat ensures x in Filter<nat>(p, order) <==> x in Filter<nat>(p, Iota(0, n)) {
      FilterMember(p, order, x);
      FilterMember(p, Iota(0, n), x);
      assert x < n ==> Iota(0, n)[x] == x;
    }
    SameElementsSameLength(Filter<nat>(p, order), Filter<nat>(p, Iota(0, n)));
  }

  /** Filtering a whole sequence, seen at the place of one of its stretches. */
  lemma FilterSlice(order: seq<nat>, remap: seq<nat>, lo: nat, hi: nat)
    requires lo <= hi <= |order|
    ensures KeptIn(order, remap, 0, lo) <= KeptIn(order, remap, 0, hi) <= |Filter<nat>(Kept(remap), order)|
    ensures Filter<nat>(Kept(remap), order)[KeptIn(order, remap, 0, lo)..KeptIn(order, remap, 0, hi)]
        == Filter<nat>(Kept(remap), order[lo..hi])
  {
    KeptInSplits(order, remap, 0, lo, hi);
    ThreeSlices(order, lo, hi);
    FilterSliceParts(Kept(remap), order, order[0..lo], order[lo..hi], order[hi..]);
  }

  lemma FilterSliceParts<X>(p: X -> bool, s: seq<X>, x: seq<X>, y: seq<X>, z: seq<X>)
    requires s == x + y + z
    ensures |Filter(p, x)| + |Filter(p, y)| <= |Filter(p, s)|
    ensures Filter(p, s)[|Filter(p, x)|..|Filter(p, x)| + |Filter(p, y)|] == Filter(p, y)
  {
    FilterThree(p, x, y, z);
    MiddlePart(Filter(p, x), Filter(p, y), Filter(p, z));
  }

  lemma MiddlePart<X>(a: seq<X>, b: seq<X>, c: seq<X>)
    ensures (a + b + c)[|a|..|a| + |b|] == b
  {
  }

  /** Everything the removal step hands on: the renamed grouping and the compacted bucket ids. */
  ghost predicate Removed(order: seq<nat>, start: seq<nat>, sortedLen: seq<nat>, buckets: seq<nat>, remap: seq<nat>,
                          k: nat,
                          order': seq<nat>, start': seq<nat>, sortedLen': seq<nat>)
  {
    && IsRemap(remap) && |remap| == |buckets|
    && Cached(order, start, sortedLen, NoneMoved(|buckets|), buckets, k)
    && order' == Renamed(remap, Filter<nat>(Kept(remap), order))
    && |sortedLen'| == k && |start'| == k + 1 && start'[0] == 0
    && forall b :: 0 <= b < k ==> SegmentCompacted(order, start, sortedLen, remap, start', sortedLen', b)
  }

  lemma RemovedStart(order: seq<nat>, start: seq<nat>, sortedLen: seq<nat>, buckets: seq<nat>, remap: seq<nat>, k: nat,
                     order': seq<nat>, start': seq<nat>, sortedLen': seq<nat>, b: nat)
    requires Removed(order, start, sortedLen, buckets, remap, k, order', start', sortedLen') && b <= k
    ensures start[b] <= |order| && start'[b] == KeptIn(order, remap, 0, start[b])
  {
    assert start[b] <= start[k];
    if b == 0 {
      assert order[0..0] == [];
    } else {
      assert SegmentCompacted(order, start, sortedLen, remap, start', sortedLen', b - 1);
    }
  }

  lemma RemovedSegments(order: seq<nat>, start: seq<nat>, sortedLen: seq<nat>, buckets: seq<nat>, remap: seq<nat>,
                        k: nat,
                        order': seq<nat>, start': seq<nat>, sortedLen': seq<nat>)
    requires Removed(order, start, sortedLen, buckets, remap, k, order', start', sortedLen')
    ensures Segments(start', k, |order'|) && |order'| == KeptBefore(remap, |remap|)
  {
    KeptCount(order, remap);
    RemovedStart(order, start, sortedLen, buckets, remap, k, order', start', sortedLen', k);
    assert order[0..|order|] == order;
    forall b, c | 0 <= b <= c <= k ensures start'[b] <= start'[c] {
      RemovedStart(order, start, sortedLen, buckets, remap, k, order', start', sortedLen', b);
      RemovedStart(order, start, sortedLen, buckets, remap, k, order', start', sortedLen', c);
      KeptInSplits(order, remap, 0, start[b], start[c]);
    }
  }

  lemma RemovedPermutation(order: seq<nat>, remap: seq<nat>, order': seq<nat>)
    requires IsRemap(remap) && IsPermutation(order, |remap|)
    requires order' == Renamed(remap, Filter<nat>(Kept(remap), order))
    ensures IsPermutation(order', KeptBefore(remap, |remap|))
  {
    var kept: seq<nat> := Filter(Kept(remap), order);
    KeptCount(order, remap);
    FilterNoDup(Kept(remap), order);
    forall i | 0 <= i < |kept|
      ensures kept[i] < |remap| && remap[kept[i]] != REMOVED && order'[i] == remap[kept[i]] < |order'|
    {
      var x := FilterOrigin(Kept(remap), order, i);
      RemapBelow(remap, kept[i]);
    }
    forall i, j | 0 <= i < j < |order'| ensures order'[i] != order'[j] {
      if kept[i] < kept[j] {
        RemapMonotone(remap, kept[i], kept[j]);
      } else {
        RemapMonotone(remap, kept[j], kept[i]);
      }
    }
  }

  /**
   Position `x` of the filtered segment `b` is the new number of a kept slot of the old segment, at or after its old
   place in it.
   */
  lemma RemovedOrigin(order: seq<nat>, start: seq<nat>, sortedLen: seq<nat>, buckets: seq<nat>, remap: seq<nat>, k: nat,
                      order': seq<nat>, start': seq<nat>, sortedLen': seq<nat>, lo: nat, hi: nat, x: nat)
    returns (y: nat)
    requires Removed(order, start, sortedLen, buckets, remap, k, order', start', sortedLen')
    requires lo <= hi <= |order| && KeptIn(order, remap, 0, lo) <= x < KeptIn(order, remap, 0, hi) && x < |order'|
    ensures lo <= y < hi && Kept(remap)(order[y]) && order'[x] == remap[order[y]]
  {
    FilterSlice(order, remap, lo, hi);
    var part: seq<nat> := Filter(Kept(remap), order[lo..hi]);
    var i := x - KeptIn(order, remap, 0, lo);
    var j := FilterOrigin(Kept(remap), order[lo..hi], i);
    assert Filter<nat>(Kept(remap), order)[x] == part[i];
    y := lo + j;
  }

  /** After a removal the grouping is a grouping of the survivors. */
  lemma RemovedIsCached(order: seq<nat>, start: seq<nat>, sortedLen: seq<nat>, buckets: seq<nat>, remap: seq<nat>,
                        k: nat,
                        order': seq<nat>, start': seq<nat>, sortedLen': seq<nat>)
    requires Removed(order, start, sortedLen, buckets, remap, k, order', start', sortedLen')
    ensures Cached(order', start', sortedLen', NoneMoved(KeptBefore(remap, |remap|)), Compacted<nat>(remap, buckets), k)
  {
    var n, buckets' := KeptBefore(remap, |remap|), Compacted<nat>(remap, buckets);
    RemovedSegments(order, start, sortedLen, buckets, remap, k, order', start', sortedLen');
    RemovedPermutation(order, remap, order');
    CompactedLength(remap, buckets);
    forall b | 0 <= b < k ensures SegmentCached(order', start', sortedLen', NoneMoved(n), buckets', b) {
      RemovedSegmentCached(order, start, sortedLen, buckets, remap, k, order', start', sortedLen', b);
    }
  }

  lemma RemovedSegmentCached(order: seq<nat>, start: seq<nat>, sortedLen: seq<nat>, buckets: seq<nat>,
                             remap: seq<nat>, k: nat,
                             order': seq<nat>, start': seq<nat>, sortedLen': seq<nat>, b: nat)
    requires Removed(order, start, sortedLen, buckets, remap, k, order', start', sortedLen') && b < k
    requires |order'| == KeptBefore(remap, |remap|) && Segments(start', k, |order'|)
    ensures SegmentCached(order', start', sortedLen', NoneMoved(|order'|), Compacted<nat>(remap, buckets), b)
  {
    RemovedStart(order, start, sortedLen, buckets, remap, k, order', start', sortedLen', b);
    RemovedStart(order, start, sortedLen, buckets, remap, k, order', start', sortedLen', b + 1);
    assert SegmentCompacted(order, start, sortedLen, remap, start', sortedLen', b);
    assert SegmentCached(order, start, sortedLen, NoneMoved(|buckets|), buckets, b);
    KeptInSplits(order, remap, 0, start[b], start[b] + sortedLen[b]);
    KeptInSplits(order, remap, 0, start[b] + sortedLen[b], start[b + 1]);
    assert start'[b + 1] <= start'[k];
    forall x | start'[b] <= x < start'[b + 1] ensures InBucket(Compacted<nat>(remap, buckets), b)(order'[x]) {
      var y := RemovedOrigin(order, start, sortedLen, buckets, remap, k, order', start', sortedLen', start[b],
          start[b + 1], x);
      assert Stays(NoneMoved(|buckets|))(order[y]);
      assert InBucket(buckets, b)(order[y]);
      CompactedAt(remap, buckets, order[y]);
    }
  }

  /** The surviving sorted prefixes are sorted: the renumbering is monotone and so keeps the slot order. */
  lemma RemovedAscends(c: Comparator<nat>, d: Comparator<nat>, order: seq<nat>, start: seq<nat>, sortedLen: seq<nat>,
                       buckets: seq<nat>,
                       remap: seq<nat>, k: nat, order': seq<nat>, start': seq<nat>, sortedLen': seq<nat>)
    requires Removed(order, start, sortedLen, buckets, remap, k, order', start', sortedLen')
    requires PrefixesAscend(c, order, start, sortedLen, NoneMoved(|buckets|))
    requires forall s: nat, t: nat :: Kept(remap)(s) && Kept(remap)(t) && c(s, t) <= 0 ==> d(remap[s], remap[t]) <= 0
    ensures PrefixesAscend(d, order', start', sortedLen', NoneMoved(|order'|))
  {
    forall b | 0 <= b < k
      ensures start'[b] + sortedLen'[b] <= |order'|
      ensures SegmentAscends(d, order', start', sortedLen', NoneMoved(|order'|), b)
    {
      RemovedSegmentAscends(c, d, order, start, sortedLen, buckets, remap, k, order', start', sortedLen', b);
    }
  }

  lemma RemovedSegmentAscends(c: Comparator<nat>, d: Comparator<nat>, order: seq<nat>, start: seq<nat>,
                              sortedLen: seq<nat>, buckets: seq<nat>,
                              remap: seq<nat>, k: nat, order': seq<nat>, start': seq<nat>, sortedLen': seq<nat>, b: nat)
    requires Removed(order, start, sortedLen, buckets, remap, k, order', start', sortedLen') && b < k
    requires PrefixesAscend(c, order, start, sortedLen, NoneMoved(|buckets|))
    requires forall s: nat, t: nat :: Kept(remap)(s) && Kept(remap)(t) && c(s, t) <= 0 ==> d(remap[s], remap[t]) <= 0
    ensures start'[b] + sortedLen'[b] <= |order'|
    ensures SegmentAscends(d, order', start', sortedLen', NoneMoved(|order'|), b)
  {
    var lo, hi := start[b], start[b] + sortedLen[b];
    RemovedStart(order, start, sortedLen, buckets, remap, k, order', start', sortedLen', b);
    assert SegmentCompacted(order, start, sortedLen, remap, start', sortedLen', b);
    KeptInSplits(order, remap, 0, lo, hi);
    FilterSlice(order, remap, lo, hi);
    assert SegmentAscends(c, order, start, sortedLen, NoneMoved(|buckets|), b);
    KeptPrefixAscends(c, order, start, sortedLen, buckets, remap, k, b);
    RemovedPart(order, remap, order', lo, hi);
    RenamedAscends(c, d, remap, Filter<nat>(Kept(remap), order[lo..hi]), order', start'[b]);
  }

  lemma RemovedPart(order: seq<nat>, remap: seq<nat>, order': seq<nat>, lo: nat, hi: nat)
    requires order' == Renamed(remap, Filter<nat>(Kept(remap), order)) && lo <= hi <= |order|
    ensures var part: seq<nat>, first := Filter(Kept(remap), order[lo..hi]), KeptIn(order, remap, 0, lo);
      && first + |part| <= |order'|
      && forall i :: 0 <= i < |part| ==> Kept(remap)(part[i]) && order'[first + i] == remap[part[i]]
  {
    FilterSlice(order, remap, lo, hi);
    KeptInSplits(order, remap, 0, lo, hi);
    var part: seq<nat>, all: seq<nat> := Filter(Kept(remap), order[lo..hi]), Filter(Kept(remap), order);
    var first := KeptIn(order, remap, 0, lo);
    forall i | 0 <= i < |part| ensures Kept(remap)(part[i]) && order'[first + i] == remap[part[i]] {
      FilterAt(Kept(remap), order[lo..hi], i);
      assert all[first + i] == part[i];
    }
  }

  lemma RenamedAscends(c: Comparator<nat>, d: Comparator<nat>, remap: seq<nat>, part: seq<nat>, order': seq<nat>,
                       first: nat)
    requires forall s: nat, t: nat :: Kept(remap)(s) && Kept(remap)(t) && c(s, t) <= 0 ==> d(remap[s], remap[t]) <= 0
    requires first + |part| <= |order'|
    requires forall i :: 0 <= i < |part| ==> Kept(remap)(part[i]) && order'[first + i] == remap[part[i]]
    requires forall i, j :: 0 <= i < j < |part| ==> c(part[i], part[j]) <= 0
    ensures forall x, y :: first <= x < y < first + |part| ==> d(order'[x], order'[y]) <= 0
  {
    forall x, y | first <= x < y < first + |part| ensures d(order'[x], order'[y]) <= 0 {
      var i, j := x - first, y - first;
      assert order'[first + i] == remap[part[i]] && order'[first + j] == remap[part[j]];
    }
  }

  lemma KeptPrefixAscends(c: Comparator<nat>, order: seq<nat>, start: seq<nat>, sortedLen: seq<nat>,
                          buckets: seq<nat>, remap: seq<nat>, k: nat, b: nat)
    requires Cached(order, start, sortedLen, NoneMoved(|buckets|), buckets, k) && b < k
    requires start[b] + sortedLen[b] <= |order| && SegmentAscends(c, order, start, sortedLen, NoneMoved(|buckets|), b)
    ensures var part: seq<nat> := Filter(Kept(remap), order[start[b]..start[b] + sortedLen[b]]);
      forall i, j :: 0 <= i < j < |part| ==> c(part[i], part[j]) <= 0
  {
    var p, r := Kept(remap), (x: nat, y: nat) => c(x, y) <= 0;
    var prefix := order[start[b]..start[b] + sortedLen[b]];
    forall i, j | 0 <= i < j < |prefix| && p(prefix[i]) && p(prefix[j]) ensures r(prefix[i], prefix[j]) {
      assert prefix[i] == order[start[b] + i] && prefix[j] == order[start[b] + j];
      assert Stays(NoneMoved(|buckets|))(order[start[b] + i]) && Stays(NoneMoved(|buckets|))(order[start[b] + j]);
    }
    FilterPairwise(p, r, prefix);
    var part: seq<nat> := Filter(p, prefix);
    forall i, j | 0 <= i < j < |part| ensures c(part[i], part[j]) <= 0 {
      assert r(part[i], part[j]);
    }
  }
}
