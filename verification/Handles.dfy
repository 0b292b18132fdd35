/**
 Elements as shared mutable objects. A layout refers to some of them as split points, so where it puts
 a value depends on what those objects hold at the time of the search.
 */
module Handles {
  import opened Sequences
  import opened SortKeys
  import opened BucketLayouts
  import opened Assignments
  import opened SlotTables
  import opened Compaction

  class Element<V> {
    var value: V

    constructor (v: V)
      ensures value == v
    {
      value := v;
    }
  }

  /** `m` knows a value for every element. */
  ghost predicate Knows<V>(m: map<Element<V>, V>, hs: seq<Element<V>>) {
    forall i :: 0 <= i < |hs| ==> hs[i] in m
  }

  ghost function Seen<V>(hs: seq<Element<V>>, m: map<Element<V>, V>): (r: seq<V>)
    requires Knows(m, hs)
    ensures |r| == |hs| && forall i :: 0 <= i < |hs| ==> r[i] == m[hs[i]]
  {
    seq(|hs|, i requires 0 <= i < |hs| => m[hs[i]])
  }

  /** `m` holds the values the elements have now. */
  ghost predicate IsNow<V>(m: map<Element<V>, V>, hs: seq<Element<V>>)
    reads hs
  {
    forall i :: 0 <= i < |hs| ==> hs[i] in m && m[hs[i]] == hs[i].value
  }

  method ReadValues<V>(hs: seq<Element<V>>, ghost m: map<Element<V>, V>) returns (r: seq<V>)
    requires IsNow(m, hs)
    ensures Knows(m, hs) && r == Seen(hs, m)
  {
    r := [];
    for i := 0 to |hs|
      invariant |r| == i && forall j :: 0 <= j < i ==> r[j] == m[hs[j]]
    {
      r := r + [hs[i].value];
    }
  }

  // --- what layouts mean --------------------------------------------------------------------------

  /** The layout with every splitter replaced by the value `m` has for it. */
  ghost function Resolved<V>(layout: BucketLayout<Element<V>>, m: map<Element<V>, V>): BucketLayout<V>
    requires Knows(m, layout.splitters)
  {
    BucketLayout(layout.boundaries, layout.splitElement, Seen(layout.splitters, m),
                 layout.splitterPositions, layout.expected, layout.estimatedFrom)
  }

  ghost predicate KnowsAll<V>(m: map<Element<V>, V>, layouts: seq<BucketLayout<Element<V>>>) {
    forall g :: 0 <= g < |layouts| ==> Knows(m, layouts[g].splitters)
  }

  ghost function ResolvedAll<V>(layouts: seq<BucketLayout<Element<V>>>, m: map<Element<V>,
                                V>): (r: seq<BucketLayout<V>>)
    requires KnowsAll(m, layouts)
    ensures |r| == |layouts| && forall g :: 0 <= g < |layouts| ==> r[g] == Resolved(layouts[g], m)
  {
    seq(|layouts|, g requires 0 <= g < |layouts| => Resolved(layouts[g], m))
  }

  ghost function ResolvedData<V>(d: SlotData<Element<V>>, m: map<Element<V>, V>): SlotData<V>
    requires KnowsAll(m, d.layouts)
  {
    SlotData(d.keys, d.buckets, ResolvedAll(d.layouts, m), d.groupOffset, d.expected, d.counts)
  }

  /** Reads the values of all splitters. */
  method Dereference<V>(d: SlotData<Element<V>>, ghost m: map<Element<V>, V>) returns (r: SlotData<V>)
    requires KnowsAll(m, d.layouts)
    requires forall g :: 0 <= g < |d.layouts| ==> IsNow(m, d.layouts[g].splitters)
    ensures r == ResolvedData(d, m)
  {
    var layouts: seq<BucketLayout<V>> := [];
    for g := 0 to |d.layouts|
      invariant |layouts| == g && forall h :: 0 <= h < g ==> layouts[h] == Resolved(d.layouts[h], m)
    {
      var l := d.layouts[g];
      var splitters := ReadValues(l.splitters, m);
      layouts := layouts
          + [BucketLayout(l.boundaries, l.splitElement, splitters, l.splitterPositions, l.expected, l.estimatedFrom)];
    }
    assert layouts == ResolvedAll(d.layouts, m);
    r := SlotData(d.keys, d.buckets, layouts, d.groupOffset, d.expected, d.counts);
  }

  // --- splitters are live elements ------------------------------------------------------------------

  ghost predicate SplitterLive<V>(layout: BucketLayout<Element<V>>, hs: seq<Element<V>>, slots: seq<nat>, e: nat)
    requires e < |layout.splitters|
  {
    exists i :: 0 <= i < |slots| && slots[i] < |hs| && hs[slots[i]] == layout.splitters[e]
  }

  /** Every splitter is an element of the collection, at one of the splitter slots. */
  ghost predicate SplittersLive<V>(layouts: seq<BucketLayout<Element<V>>>, hs: seq<Element<V>>, slots: seq<nat>) {
    forall g, e :: 0 <= g < |layouts| && 0 <= e < |layouts[g].splitters| ==> SplitterLive(layouts[g], hs, slots, e)
  }

  lemma LiveIsKnown<V>(layouts: seq<BucketLayout<Element<V>>>, hs: seq<Element<V>>, slots: seq<nat>,
                       m: map<Element<V>, V>)
    requires SplittersLive(layouts, hs, slots) && Knows(m, hs)
    ensures KnowsAll(m, layouts)
  {
    forall g | 0 <= g < |layouts| ensures Knows(m, layouts[g].splitters) {
      forall e | 0 <= e < |layouts[g].splitters| ensures layouts[g].splitters[e] in m {
        assert SplitterLive(layouts[g], hs, slots, e);
      }
    }
  }

  lemma LiveIsNow<V>(layouts: seq<BucketLayout<Element<V>>>, hs: seq<Element<V>>, slots: seq<nat>, m: map<Element<V>,
                     V>)
    requires SplittersLive(layouts, hs, slots) && IsNow(m, hs)
    ensures KnowsAll(m, layouts) && forall g :: 0 <= g < |layouts| ==> IsNow(m, layouts[g].splitters)
  {
    LiveIsKnown(layouts, hs, slots, m);
    forall g | 0 <= g < |layouts| ensures IsNow(m, layouts[g].splitters) {
      forall e | 0 <= e < |layouts[g].splitters| ensures m[layouts[g].splitters[e]] == layouts[g].splitters[e].value {
        assert SplitterLive(layouts[g], hs, slots, e);
      }
    }
  }

  /** Two snapshots agree about the elements at the splitter slots. */
  ghost predicate AgreeAt<V>(slots: seq<nat>, hs: seq<Element<V>>, m: map<Element<V>, V>, n: map<Element<V>, V>)
    requires Knows(m, hs) && Knows(n, hs)
  {
    forall i :: 0 <= i < |slots| && slots[i] < |hs| ==> m[hs[slots[i]]] == n[hs[slots[i]]]
  }

  /** Then the layouts mean the same. */
  lemma AgreeingLayouts<V>(layouts: seq<BucketLayout<Element<V>>>, hs: seq<Element<V>>, slots: seq<nat>,
                           m: map<Element<V>, V>, n: map<Element<V>, V>)
    requires SplittersLive(layouts, hs, slots) && Knows(m, hs) && Knows(n, hs) && AgreeAt(slots, hs, m, n)
    ensures KnowsAll(m, layouts) && KnowsAll(n, layouts) && ResolvedAll(layouts, m) == ResolvedAll(layouts, n)
  {
    LiveIsKnown(layouts, hs, slots, m);
    LiveIsKnown(layouts, hs, slots, n);
    forall g | 0 <= g < |layouts| ensures Resolved(layouts[g], m) == Resolved(layouts[g], n) {
      forall e | 0 <= e < |layouts[g].splitters| ensures m[layouts[g].splitters[e]] == n[layouts[g].splitters[e]] {
        assert SplitterLive(layouts[g], hs, slots, e);
      }
    }
  }

  /** Lengths and counts do not depend on what the splitters are worth. */
  lemma TalliedAnyway<V(!new)>(sk: SortKey<V>, d: SlotData<Element<V>>, m: map<Element<V>, V>, n: map<Element<V>, V>,
                               values: seq<V>)
    requires KnowsAll(m, d.layouts) && KnowsAll(n, d.layouts) && Tallied(sk, ResolvedData(d, m), values)
    ensures Tallied(sk, ResolvedData(d, n), values)
  {
    var a, b := ResolvedAll(d.layouts, m), ResolvedAll(d.layouts, n);
    assert Sizes(a) == Sizes(b);
    forall g | 0 <= g < |b| ensures b[g].Shaped(sk) {
      assert a[g].Shaped(sk);
    }
  }

  // --- layouts over elements from layouts over values --------------------------------------------------

  function HandleLayout<V>(layout: BucketLayout<V>, hs: seq<Element<V>>): BucketLayout<Element<V>>
    requires |layout.splitters| == |layout.splitterPositions|
    requires forall e :: 0 <= e < |layout.splitters| ==> layout.splitterPositions[e] < |hs|
  {
    BucketLayout(layout.boundaries, layout.splitElement,
                 seq(|layout.splitters|, e requires 0 <= e < |layout.splitters| => hs[layout.splitterPositions[e]]),
                 layout.splitterPositions, layout.expected, layout.estimatedFrom)
  }

  /** The same layouts with every splitter replaced by the object it was read from. */
  method TakeHandles<V(!new)>(d: SlotData<V>, hs: seq<Element<V>>, slots: seq<nat>, ghost m: map<Element<V>, V>)
    returns (r: SlotData<Element<V>>)
    requires Knows(m, hs) && SplittersFrom(d.layouts, Seen(hs, m), slots)
    requires forall g :: 0 <= g < |d.layouts| ==> |d.layouts[g].splitters| == |d.layouts[g].splitterPositions|
    ensures SplittersLive(r.layouts, hs, slots) && KnowsAll(m, r.layouts) && ResolvedData(r, m) == d
  {
    var layouts: seq<BucketLayout<Element<V>>> := [];
    for g := 0 to |d.layouts|
      invariant |layouts| == g
      invariant forall h, e :: 0 <= h < g && 0 <= e < |layouts[h].splitters| ==> SplitterLive(layouts[h], hs, slots, e)
      invariant forall h :: 0 <= h < g ==> Knows(m, layouts[h].splitters) && Resolved(layouts[h], m) == d.layouts[h]
    {
      HandlesLive(d.layouts[g], hs, slots, m) by {
        assert forall e :: 0 <= e < |d.layouts[g].splitters| ==> SplitterFrom(d.layouts[g], Seen(hs, m), slots, e);
      }
      layouts := layouts + [HandleLayout(d.layouts[g], hs)];
    }
    assert ResolvedAll(layouts, m) == d.layouts;
    r := SlotData(d.keys, d.buckets, layouts, d.groupOffset, d.expected, d.counts);
  }

  lemma HandlesLive<V(!new)>(layout: BucketLayout<V>, hs: seq<Element<V>>, slots: seq<nat>, m: map<Element<V>, V>)
    requires Knows(m, hs) && |layout.splitters| == |layout.splitterPositions|
    requires forall e :: 0 <= e < |layout.splitters| ==> SplitterFrom(layout, Seen(hs, m), slots, e)
    ensures forall e :: 0 <= e < |layout.splitters| ==> layout.splitterPositions[e] < |hs|
    ensures var r := HandleLayout(layout, hs);
      && (forall e :: 0 <= e < |r.splitters| ==> SplitterLive(r, hs, slots, e))
      && Knows(m, r.splitters) && Resolved(r, m) == layout
  {
    forall e | 0 <= e < |layout.splitters| ensures layout.splitterPositions[e] < |hs| {
      assert SplitterFrom(layout, Seen(hs, m), slots, e);
    }
    var r := HandleLayout(layout, hs);
    forall e | 0 <= e < |r.splitters|
      ensures SplitterLive(r, hs, slots, e) && r.splitters[e] in m && m[r.splitters[e]] == layout.splitters[e]
    {
      assert SplitterFrom(layout, Seen(hs, m), slots, e);
      var i :| 0 <= i < |slots| && slots[i] == layout.splitterPositions[e];
      assert hs[slots[i]] == r.splitters[e];
    }
    assert Seen(r.splitters, m) == layout.splitters;
  }

  // --- removal ------------------------------------------------------------------------------------------

  lemma {:induction false} SeenCompacted<V>(remap: seq<nat>, hs: seq<Element<V>>, m: map<Element<V>, V>)
    requires |hs| <= |remap| && Knows(m, hs)
    ensures Knows(m, Compacted(remap, hs)) && Seen(Compacted(remap, hs), m) == Compacted(remap, Seen(hs, m))
  {
    if hs != [] {
      var last := |hs| - 1;
      var front, vs := hs[..last], Seen(hs, m);
      SeenCompacted(remap, front, m);
      assert vs[..last] == Seen(front, m);
      SeenAppend(Compacted(remap, front), if remap[last] != REMOVED then [hs[last]] else [], m);
    }
  }

  lemma SeenAppend<V>(hs: seq<Element<V>>, more: seq<Element<V>>, m: map<Element<V>, V>)
    requires Knows(m, hs) && Knows(m, more)
    ensures Knows(m, hs + more) && Seen(hs + more, m) == Seen(hs, m) + Seen(more, m)
  {
  }

  lemma {:induction false} CompactedNoDup<X>(remap: seq<nat>, xs: seq<X>)
    requires |xs| <= |remap| && NoDup(xs)
    ensures NoDup(Compacted(remap, xs)) && forall x :: x in Compacted(remap, xs) ==> x in xs
  {
    if xs != [] {
      var t, last := xs[..|xs| - 1], xs[|xs| - 1];
      CompactedNoDup(remap, t);
      assert last !in t;
      assert xs == t + [last];
    }
  }

  /** Splitters whose slots survive stay live, at the renumbered slots. */
  lemma LiveCompacted<V>(layouts: seq<BucketLayout<Element<V>>>, hs: seq<Element<V>>, slots: seq<nat>,
                         remap: seq<nat>, slots': seq<nat>)
    requires SplittersLive(layouts, hs, slots) && IsRemap(remap) && |remap| == |hs| && |slots'| == |slots|
    requires forall i :: 0 <= i < |slots| ==>
        slots[i] < |remap| && remap[slots[i]] != REMOVED && slots'[i] == remap[slots[i]]
    ensures SplittersLive(layouts, Compacted(remap, hs), slots')
  {
    forall g, e | 0 <= g < |layouts| && 0 <= e < |layouts[g].splitters|
      ensures SplitterLive(layouts[g], Compacted(remap, hs), slots', e)
    {
      assert SplitterLive(layouts[g], hs, slots, e);
      var i :| 0 <= i < |slots| && slots[i] < |hs| && hs[slots[i]] == layouts[g].splitters[e];
      CompactedAt(remap, hs, slots[i]);
      assert slots'[i] < |Compacted(remap, hs)| && Compacted(remap, hs)[slots'[i]] == layouts[g].splitters[e];
    }
  }
}
