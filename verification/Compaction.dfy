/** remove_if and compact as values: slot renumbering, and every per-slot sequence filtered in place. */
module Compaction {
  import opened Sequences
  import opened Groupings

  /** The remap entry of a removed slot: the largest 32-bit value, never a live slot. */
  const REMOVED: nat := 0xFFFF_FFFF

  function Kept(remap: seq<nat>): nat -> bool {
    (s: nat) => s < |remap| && remap[s] != REMOVED
  }

  /** How many of the first `s` slots are kept. */
  function KeptBefore(remap: seq<nat>, s: nat): (r: nat)
    requires s <= |remap|
    ensures r <= s
  {
    if s == 0 then 0 else KeptBefore(remap, s - 1) + if remap[s - 1] != REMOVED then 1 else 0
  }

  ghost predicate RemapAt(remap: seq<nat>, s: nat)
    requires s < |remap|
  {
    remap[s] != REMOVED ==> remap[s] == KeptBefore(remap, s)
  }

  /** Kept slots are renumbered consecutively in insertion order. */
  ghost predicate IsRemap(remap: seq<nat>) {
    |remap| <= REMOVED && forall s :: 0 <= s < |remap| ==> RemapAt(remap, s)
  }

  lemma {:induction false} KeptBeforeAscends(remap: seq<nat>, s: nat, t: nat)
    requires s <= t <= |remap|
    ensures KeptBefore(remap, s) <= KeptBefore(remap, t)
    ensures s < t && remap[s] != REMOVED ==> KeptBefore(remap, s) < KeptBefore(remap, t)
  {
    if s < t {
      KeptBeforeAscends(remap, s, t - 1);
    }
  }

  /** The renumbering is strictly monotone on kept slots and stays below their number. */
  lemma RemapMonotone(remap: seq<nat>, s: nat, t: nat)
    requires IsRemap(remap) && s < t < |remap| && remap[s] != REMOVED && remap[t] != REMOVED
    ensures remap[s] < remap[t] < KeptBefore(remap, |remap|)
  {
    assert RemapAt(remap, s) && RemapAt(remap, t);
    KeptBeforeAscends(remap, s, t);
    KeptBeforeAscends(remap, t, |remap|);
  }

  lemma RemapBelow(remap: seq<nat>, s: nat)
    requires IsRemap(remap) && s < |remap| && remap[s] != REMOVED
    ensures remap[s] < KeptBefore(remap, |remap|) <= |remap|
  {
    assert RemapAt(remap, s);
    KeptBeforeAscends(remap, s, |remap|);
  }

  /** The entries of `xs` whose slot is kept. */
  function Compacted<X>(remap: seq<nat>, xs: seq<X>): seq<X>
    requires |xs| <= |remap|
  {
    if xs == [] then []
    else
      var last := |xs| - 1;
      Compacted(remap, xs[..last]) + if remap[last] != REMOVED then [xs[last]] else []
  }

  lemma {:induction false} CompactedLength<X>(remap: seq<nat>, xs: seq<X>)
    requires |xs| <= |remap|
    ensures |Compacted(remap, xs)| == KeptBefore(remap, |xs|)
  {
    if xs != [] {
      CompactedLength(remap, xs[..|xs| - 1]);
    }
  }

  /** Entry `s` moves to position remap[s]. */
  lemma {:induction false} CompactedAt<X>(remap: seq<nat>, xs: seq<X>, s: nat)
    requires IsRemap(remap) && s < |xs| <= |remap| && remap[s] != REMOVED
    ensures remap[s] < |Compacted(remap, xs)| && Compacted(remap, xs)[remap[s]] == xs[s]
  {
    var last := |xs| - 1;
    var t := xs[..last];
    if s < last {
      CompactedAt(remap, t, s);
      assert t[s] == xs[s];
    } else {
      assert RemapAt(remap, s);
      CompactedLength(remap, t);
    }
  }

  /** Compacting commutes with applying a function to every entry. */
  lemma {:induction false} CompactedMap<X, Y>(remap: seq<nat>, xs: seq<X>, ys: seq<Y>, f: X -> Y)
    requires |xs| == |ys| <= |remap|
    requires forall i :: 0 <= i < |xs| ==> ys[i] == f(xs[i])
    ensures |Compacted(remap, xs)| == |Compacted(remap, ys)|
    ensures forall i :: 0 <= i < |Compacted(remap, xs)| ==> Compacted(remap, ys)[i] == f(Compacted(remap, xs)[i])
  {
    if xs != [] {
      CompactedMap(remap, xs[..|xs| - 1], ys[..|ys| - 1], f);
    }
  }

  /** Renumbering driven by a predicate on the elements. */
  method BuildRemap<T>(items: seq<T>, matches: T -> bool) returns (remap: seq<nat>, kept: nat)
    requires |items| <= REMOVED
    ensures |remap| == |items| && IsRemap(remap) && kept == KeptBefore(remap, |items|)
    ensures forall s :: 0 <= s < |items| ==> (remap[s] == REMOVED <==> matches(items[s]))
  {
    remap, kept := [], 0;
    for slot := 0 to |items|
      invariant |remap| == slot && IsRemap(remap) && kept == KeptBefore(remap, |remap|)
      invariant forall s :: 0 <= s < slot ==> (remap[s] == REMOVED <==> matches(items[s]))
    {
      var removed := matches(items[slot]);
      RemapExtends(remap, kept, removed);
      remap := remap + [if removed then REMOVED else kept];
      kept := if removed then kept else kept + 1;
    }
  }

  lemma RemapExtends(remap: seq<nat>, kept: nat, removed: bool)
    requires IsRemap(remap) && |remap| < REMOVED && kept == KeptBefore(remap, |remap|)
    ensures var next := remap + [if removed then REMOVED else kept];
      IsRemap(next) && KeptBefore(next, |next|) == if removed then kept else kept + 1
  {
    var next := remap + [if removed then REMOVED else kept];
    forall s | 0 <= s < |next| ensures RemapAt(next, s) {
      assert s < |remap| ==> RemapAt(remap, s);
      KeptBeforePrefix(remap, next, s);
    }
    KeptBeforePrefix(remap, next, |remap|);
  }

  lemma {:induction false} KeptBeforePrefix(a: seq<nat>, b: seq<nat>, s: nat)
    requires a <= b && s <= |a|
    ensures KeptBefore(a, s) == KeptBefore(b, s)
  {
    if s > 0 {
      KeptBeforePrefix(a, b, s - 1);
    }
  }

  /** What the loops over items, keys and buckets do: write kept entries to the front, then cut. */
  method CompactInPlace<X>(remap: seq<nat>, xs: seq<X>, kept: nat) returns (out: seq<X>)
    requires |xs| == |remap| && kept == KeptBefore(remap, |remap|)
    ensures out == Compacted(remap, xs)
  {
    out := xs;
    var write := 0;
    assert xs[..0] == [];
    for slot := 0 to |xs|
      invariant write == KeptBefore(remap, slot) && |out| == |xs|
      invariant out[..write] == Compacted(remap, xs[..slot])
      invariant forall i :: slot <= i < |xs| ==> out[i] == xs[i]
    {
      assert xs[..slot + 1][..slot] == xs[..slot];
      if remap[slot] != REMOVED {
        ghost var done := out[..write];
        out := out[write := out[slot]];
        assert out[..write + 1] == done + [xs[slot]];
        write := write + 1;
      }
    }
    assert xs[..|xs|] == xs;
    out := out[..kept];
  }

  /** Slots of bucket `b` when the first `slot` have been filtered. */
  function Remaining(remap: seq<nat>, buckets: seq<nat>, slot: nat, b: nat): nat
    requires slot <= |buckets| == |remap|
  {
    multiset(Compacted<nat>(remap, buckets[..slot]))[b] + multiset(buckets[slot..])[b]
  }

  lemma RemainingNext(remap: seq<nat>, buckets: seq<nat>, slot: nat, b: nat)
    requires slot < |buckets| == |remap|
    ensures Remaining(remap, buckets, slot + 1, b)
         == Remaining(remap, buckets, slot, b) - if remap[slot] == REMOVED && buckets[slot] == b then 1 else 0
  {
    assert buckets[..slot + 1][..slot] == buckets[..slot];
    assert buckets[slot..] == [buckets[slot]] + buckets[slot + 1..];
  }

  lemma RemainingLast(remap: seq<nat>, buckets: seq<nat>, b: nat)
    requires |buckets| == |remap|
    ensures Remaining(remap, buckets, |buckets|, b) == multiset(Compacted<nat>(remap, buckets))[b]
  {
    assert buckets[..|buckets|] == buckets && buckets[|buckets|..] == [];
  }

  /** Removed slots leave their bucket's count. */
  method CompactCounts(remap: seq<nat>, buckets: seq<nat>, counts0: seq<nat>) returns (counts: seq<nat>)
    requires |buckets| == |remap| && CountsMatch(counts0, buckets)
    ensures |counts| == |counts0| && CountsMatch(counts, Compacted<nat>(remap, buckets))
  {
    counts := counts0;
    assert buckets[..0] == [] && buckets[0..] == buckets;
    for slot := 0 to |buckets|
      invariant |counts| == |counts0|
      invariant forall b :: 0 <= b < |counts| ==> counts[b] == Remaining(remap, buckets, slot, b)
    {
      forall b | 0 <= b < |counts| ensures Remaining(remap, buckets, slot + 1, b)
         == Remaining(remap, buckets, slot, b) - if remap[slot] == REMOVED && buckets[slot] == b then 1 else 0
      {
        RemainingNext(remap, buckets, slot, b);
      }
      if remap[slot] == REMOVED {
        counts := counts[buckets[slot] := counts[buckets[slot]] - 1];
      }
    }
    CountsRemain(remap, buckets, counts);
  }

  lemma CountsRemain(remap: seq<nat>, buckets: seq<nat>, counts: seq<nat>)
    requires |buckets| == |remap|
    requires forall s :: 0 <= s < |buckets| ==> buckets[s] < |counts|
    requires forall b :: 0 <= b < |counts| ==> counts[b] == Remaining(remap, buckets, |buckets|, b)
    ensures CountsMatch(counts, Compacted<nat>(remap, buckets))
  {
    var kept: seq<nat> := Compacted<nat>(remap, buckets);
    forall b | 0 <= b < |counts| ensures counts[b] == multiset(kept)[b] {
      RemainingLast(remap, buckets, b);
    }
    CompactedMembers(remap, buckets);
    forall i | 0 <= i < |kept| ensures kept[i] < |counts| {
      var j :| 0 <= j < |buckets| && buckets[j] == kept[i];
    }
  }

  lemma {:induction false} CompactedMembers<X>(remap: seq<nat>, xs: seq<X>)
    requires |xs| <= |remap|
    ensures forall i :: 0 <= i < |Compacted(remap, xs)| ==> Compacted(remap, xs)[i] in xs
  {
    if xs != [] {
      CompactedMembers(remap, xs[..|xs| - 1]);
      assert forall x :: x in xs[..|xs| - 1] ==> x in xs;
    }
  }

  // --- the cached grouping ------------------------------------------------------------------

  /** Slots renamed. */
  function Renamed(remap: seq<nat>, s: seq<nat>): (r: seq<nat>)
    ensures |r| == |s| && forall i :: 0 <= i < |s| && s[i] < |remap| ==> r[i] == remap[s[i]]
  {
    seq(|s|, i requires 0 <= i < |s| => if s[i] < |remap| then remap[s[i]] else 0)
  }

  /** How many slots of order[lo..hi] are kept. */
  function KeptIn(order: seq<nat>, remap: seq<nat>, lo: nat, hi: nat): nat
    requires lo <= hi <= |order|
  {
    |Filter(Kept(remap), order[lo..hi])|
  }

  lemma KeptInSplits(order: seq<nat>, remap: seq<nat>, lo: nat, mid: nat, hi: nat)
    requires lo <= mid <= hi <= |order|
    ensures KeptIn(order, remap, lo, hi) == KeptIn(order, remap, lo, mid) + KeptIn(order, remap, mid, hi)
  {
    assert order[lo..hi] == order[lo..mid] + order[mid..hi];
    FilterConcat(Kept(remap), order[lo..mid], order[mid..hi]);
  }

  /** Segment `b` after the removal: where it ends and how long its sorted prefix is. */
  ghost predicate SegmentCompacted(order: seq<nat>, start: seq<nat>, sortedLen: seq<nat>, remap: seq<nat>,
                                   start': seq<nat>, sortedLen': seq<nat>, b: nat)
    requires b < |sortedLen| < |start| && b < |sortedLen'| < |start'|
  {
    && start[b] + sortedLen[b] <= start[b + 1] <= |order|
    && start'[b + 1] == KeptIn(order, remap, 0, start[b + 1])
    && sortedLen'[b] == KeptIn(order, remap, start[b], start[b] + sortedLen[b])
  }

  /** Filters the grouping in place: order'[..out] is done, the rest is unread. */
  method CompactOrder(order: seq<nat>, start: seq<nat>, sortedLen: seq<nat>, remap: seq<nat>, kept: nat)
    returns (order': seq<nat>, start': seq<nat>, sortedLen': seq<nat>)
    requires |start| == |sortedLen| + 1 && Segments(start, |sortedLen|, |order|)
    requires forall i :: 0 <= i < |order| ==> order[i] < |remap|
    requires forall b :: 0 <= b < |sortedLen| ==> start[b] + sortedLen[b] <= start[b + 1]
    requires kept == |Filter(Kept(remap), order)|
    ensures order' == Renamed(remap, Filter(Kept(remap), order))
    ensures |sortedLen'| == |sortedLen| && |start'| == |start| && start'[0] == 0
    ensures forall b :: 0 <= b < |sortedLen| ==> SegmentCompacted(order, start, sortedLen, remap, start', sortedLen', b)
  {
    order', start', sortedLen' := order, [0], [];
    var out := 0;
    assert order[..0] == [];
    for b := 0 to |sortedLen|
      invariant |start'| == b + 1 && |sortedLen'| == b && start'[0] == 0
      invariant Filtering(order', out, order, remap, start[b])
      invariant forall c :: 0 <= c < b ==> SegmentCompacted(order, start, sortedLen, remap, start', sortedLen', c)
    {
      assert start[b + 1] <= start[|sortedLen|];
      var sorted;
      order', out, sorted := CompactSegment(order', out, order, remap, start[b], start[b] + sortedLen[b], start[b + 1]);
      ghost var start0, sorted0 := start', sortedLen';
      sortedLen' := sortedLen' + [sorted];
      start' := start' + [out];
      forall c | 0 <= c < b ensures SegmentCompacted(order, start, sortedLen, remap, start', sortedLen', c) {
        assert SegmentCompacted(order, start, sortedLen, remap, start0, sorted0, c);
      }
      assert order[0..start[b + 1]] == order[..start[b + 1]];
      assert SegmentCompacted(order, start, sortedLen, remap, start', sortedLen', b);
    }
    assert order[..|order|] == order;
    FilteringDone(order', out, order, remap);
    order' := order'[..kept];
  }

  ghost predicate FilteredAt(order': seq<nat>, remap: seq<nat>, done: seq<nat>, i: nat)
    requires i < |done| && i < |order'|
  {
    done[i] < |remap| && order'[i] == remap[done[i]]
  }

  lemma FilteringDone(order': seq<nat>, out: nat, order: seq<nat>, remap: seq<nat>)
    requires Filtering(order', out, order, remap, |order|)
    ensures out == |Filter(Kept(remap), order)| && order'[..out] == Renamed(remap, Filter(Kept(remap), order))
  {
    assert order[..|order|] == order;
    forall x | 0 <= x < out ensures order'[x] == Renamed(remap, Filter(Kept(remap), order))[x] {
      assert FilteredAt(order', remap, Filter(Kept(remap), order[..|order|]), x);
    }
  }

  /** The first `i` slots have been filtered and renamed to the front; nothing unread is overwritten. */
  ghost predicate Filtering(order': seq<nat>, out: nat, order: seq<nat>, remap: seq<nat>, i: nat) {
    && |order'| == |order| && out <= i <= |order|
    && out == |Filter(Kept(remap), order[..i])|
    && (forall x :: 0 <= x < out ==> FilteredAt(order', remap, Filter(Kept(remap), order[..i]), x))
    && forall x :: i <= x < |order| ==> order'[x] == order[x]
  }

  lemma FilteringSkips(order': seq<nat>, out: nat, order: seq<nat>, remap: seq<nat>, i: nat)
    requires Filtering(order', out, order, remap, i) && i < |order| && order[i] < |remap| && remap[order[i]] == REMOVED
    ensures Filtering(order', out, order, remap, i + 1)
  {
    FilterPrefix(Kept(remap), order, i);
  }

  lemma FilteringWrites(order': seq<nat>, out: nat, order: seq<nat>, remap: seq<nat>, i: nat, mapped: nat)
    requires Filtering(order', out, order, remap, i) && i < |order| && order[i] < |remap|
    requires remap[order[i]] == mapped != REMOVED
    ensures Filtering(order'[out := mapped], out + 1, order, remap, i + 1)
  {
    FilterPrefix(Kept(remap), order, i);
    var done, done' := Filter(Kept(remap), order[..i]), Filter(Kept(remap), order[..i + 1]);
    var next := order'[out := mapped];
    forall x | 0 <= x <= out ensures FilteredAt(next, remap, done', x) {
      assert x < out ==> FilteredAt(order', remap, done, x);
    }
  }

  method CompactSegment(order0: seq<nat>, out0: nat, order: seq<nat>, remap: seq<nat>, lo: nat, prefixEnd: nat, hi: nat)
    returns (order': seq<nat>, out: nat, sorted: nat)
    requires lo <= prefixEnd <= hi <= |order| && (forall i :: 0 <= i < |order| ==> order[i] < |remap|)
    requires Filtering(order0, out0, order, remap, lo)
    ensures Filtering(order', out, order, remap, hi)
    ensures sorted == |Filter(Kept(remap), order[lo..prefixEnd])|
  {
    order', out, sorted := order0, out0, 0;
    assert order[lo..lo] == [];
    for i := lo to hi
      invariant Filtering(order', out, order, remap, i)
      invariant sorted == |Filter(Kept(remap), order[lo..Min(i, prefixEnd)])|
    {
      var mapped := remap[order'[i]];
      PrefixCount(Kept(remap), order, lo, i, prefixEnd);
      if mapped == REMOVED {
        FilteringSkips(order', out, order, remap, i);
      } else {
        FilteringWrites(order', out, order, remap, i, mapped);
        order' := order'[out := mapped];
        out := out + 1;
        if i < prefixEnd {
          sorted := sorted + 1;
        }
      }
    }
  }
}
