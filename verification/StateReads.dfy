/** Lazy reads of one key state: buckets are sorted as positions in them are asked for. */
module StateReads {
  import opened Sequences
  import opened SortKeys
  import opened Views
  import opened BucketPlans
  import opened Groupings
  import opened Reads
  import opened KeyStates
  import opened StateSteps

  /** A state prepared for reading. */
  ghost predicate Readable<T(!new)>(s: KeyState<T>, items: seq<T>, plan: BucketPlan)
    reads s
  {
    Ok(s, items, plan) && s.hasOrder && !s.orderStale
  }

  lemma ReadableMeans<T(!new)>(s: KeyState<T>, items: seq<T>, plan: BucketPlan)
    requires Readable(s, items, plan)
    ensures Consistent(s.sk) && s.Current(items) && s.Ordered(items) && Ready(s.sk, items, s.data, s.cache)
  {
    OkMeans(s, items, plan);
  }

  /** Sorts one bucket; its segment of the grouping is then the view's. */
  method ReadBucket<T(!new)>(s: KeyState<T>, items: seq<T>, ghost plan: BucketPlan, b: nat)
    requires Readable(s, items, plan) && b < |s.data.counts|
    modifies s`cache
    ensures Readable(s, items, plan) && s.cache.start == old(s.cache.start) && s.Full(b)
    ensures forall c :: old(s.Full(c)) ==> s.Full(c)
  {
    OkMeans(s, items, plan);
    s.SortBucket(items, b);
    IsOk(s, items, plan);
  }

  /** In a fully sorted segment every slot is where the view has it. */
  lemma FullSegmentFinal<T(!new)>(s: KeyState<T>, items: seq<T>, plan: BucketPlan, b: nat, p: nat)
    requires Readable(s, items, plan) && s.Full(b) && s.cache.start[b] <= p < s.cache.start[b + 1]
    ensures p < |s.cache.order| == |items| == |AscendingSlots(s.sk, items)|
    ensures s.cache.order[p] == AscendingSlots(s.sk, items)[p] < |items|
  {
    ReadableMeans(s, items, plan);
    SortedSegmentRank(s.sk, items, s.data, s.cache, b, p);
    AscendingSlotsPermute(s.sk, items);
  }

  /** at: maps the position, sorts its bucket, and takes the slot there. */
  method ReadAt<T(!new)>(s: KeyState<T>, items: seq<T>, ghost plan: BucketPlan, direction: Direction, p: nat)
    returns (x: T)
    requires Readable(s, items, plan) && p < |items|
    modifies s`cache
    ensures Readable(s, items, plan)
    ensures p < |View(s.sk, direction, items)| && x == View(s.sk, direction, items)[p]
  {
    ReadableMeans(s, items, plan);
    var q := s.ToAscending(items, direction, p);
    AscendingPositionInvolution(s.sk, direction, items, p);
    var b := s.BucketAt(items, q);
    ReadBucket(s, items, plan, b);
    FullSegmentFinal(s, items, plan, b, q);
    ViewAt(s.sk, direction, items, p, q);
    x := items[s.cache.order[q]];
  }

  /** Sorts buckets first..end. */
  method ReadBuckets<T(!new)>(s: KeyState<T>, items: seq<T>, ghost plan: BucketPlan, first: nat, end: nat)
    requires Readable(s, items, plan) && first <= end <= |s.data.counts|
    modifies s`cache
    ensures Readable(s, items, plan) && s.cache.start == old(s.cache.start)
    ensures forall c :: first <= c < end ==> s.Full(c)
  {
    for b := first to end
      invariant Readable(s, items, plan) && s.cache.start == old(s.cache.start)
      invariant forall c :: first <= c < b ==> s.Full(c)
    {
      ReadBucket(s, items, plan, b);
    }
  }

  /** The elements at ascending positions lo..hi, after sorting the buckets that cover them. */
  method ReadStretch<T(!new)>(s: KeyState<T>, items: seq<T>, ghost plan: BucketPlan, lo: nat, hi: nat)
    returns (slots: seq<nat>)
    requires Readable(s, items, plan) && lo < hi <= |items|
    modifies s`cache
    ensures Readable(s, items, plan)
    ensures |AscendingSlots(s.sk, items)| == |items| && slots == AscendingSlots(s.sk, items)[lo..hi]
    ensures forall i :: 0 <= i < |slots| ==> slots[i] < |items|
  {
    ReadableMeans(s, items, plan);
    var first := s.BucketAt(items, lo);
    var last := s.BucketAt(items, hi - 1);
    SegmentsInOrder(s.cache.start, |s.data.counts|, |items|, first, lo, last, hi - 1);
    ReadBuckets(s, items, plan, first, last + 1);
    ReadableMeans(s, items, plan);
    slots := s.cache.order[lo..hi];
    StretchIsView(s, items, plan, first, last, lo, hi, slots);
  }

  lemma StretchIsView<T(!new)>(s: KeyState<T>, items: seq<T>, plan: BucketPlan, first: nat, last: nat, lo: nat,
                               hi: nat, slots: seq<nat>)
    requires Readable(s, items, plan) && s.Current(items) && last < |s.data.counts|
    requires lo < hi <= |items| == |s.cache.order|
    requires first < |s.data.counts| && s.cache.start[first] <= lo < s.cache.start[first + 1]
    requires s.cache.start[last] <= hi - 1 < s.cache.start[last + 1]
    requires forall c :: first <= c <= last ==> s.Full(c)
    requires slots == s.cache.order[lo..hi]
    ensures |AscendingSlots(s.sk, items)| == |items| && slots == AscendingSlots(s.sk, items)[lo..hi]
    ensures forall i :: 0 <= i < |slots| ==> slots[i] < |items|
  {
    var asc := AscendingSlots(s.sk, items);
    AscendingSlotsPermute(s.sk, items);
    forall i | 0 <= i < |slots| ensures slots[i] == asc[lo + i] {
      StretchFinal(s, items, plan, first, last, lo, lo + i, hi - 1);
    }
  }

  lemma StretchFinal<T(!new)>(s: KeyState<T>, items: seq<T>, plan: BucketPlan, first: nat, last: nat, lo: nat, p: nat,
                              hi: nat)
    requires Readable(s, items, plan) && s.Current(items) && last < |s.data.counts| && lo <= p <= hi < |items|
    requires first < |s.data.counts| && s.cache.start[first] <= lo < s.cache.start[first + 1]
    requires s.cache.start[last] <= hi < s.cache.start[last + 1]
    requires forall c :: first <= c <= last ==> s.Full(c)
    ensures |s.cache.order| == |items| == |AscendingSlots(s.sk, items)|
    ensures s.cache.order[p] == AscendingSlots(s.sk, items)[p]
  {
    var k, n := |s.data.counts|, |items|;
    var b := SegmentOf(s.cache.start, k, n, p);
    SegmentsInOrder(s.cache.start, k, n, first, lo, b, p);
    SegmentsInOrder(s.cache.start, k, n, b, p, last, hi);
    FullSegmentFinal(s, items, plan, b, p);
  }

  /** range, first path: reversed inside each group, mapped position by position. */
  method ReadMapped<T(!new)>(s: KeyState<T>, items: seq<T>, ghost plan: BucketPlan, direction: Direction, from: nat,
                             to: nat) returns (out: seq<T>)
    requires Readable(s, items, plan) && from <= to <= |items|
    modifies s`cache
    ensures Readable(s, items, plan)
    ensures |View(s.sk, direction, items)| == |items| && out == View(s.sk, direction, items)[from..to]
  {
    out := [];
    var sorted: Option<nat> := None;
    ghost var view := View(s.sk, direction, items);
    ReadableMeans(s, items, plan);
    ViewLength(s.sk, direction, items);
    for p := from to to
      invariant Readable(s, items, plan) && (sorted.Some? ==> s.Full(sorted.value))
      invariant |out| == p - from && forall i :: 0 <= i < |out| ==> out[i] == view[from + i]
    {
      var x;
      x, sorted := ReadNext(s, items, plan, direction, p, sorted);
      out := out + [x];
    }
  }

  /** One position; its bucket is sorted unless it is the one sorted last. */
  method ReadNext<T(!new)>(s: KeyState<T>, items: seq<T>, ghost plan: BucketPlan, direction: Direction, p: nat,
                           sorted0: Option<nat>)
    returns (x: T, sorted: Option<nat>)
    requires Readable(s, items, plan) && p < |items| && (sorted0.Some? ==> s.Full(sorted0.value))
    modifies s`cache
    ensures Readable(s, items, plan) && (sorted.Some? ==> s.Full(sorted.value))
    ensures p < |View(s.sk, direction, items)| && x == View(s.sk, direction, items)[p]
  {
    sorted := sorted0;
    ReadableMeans(s, items, plan);
    var q := s.ToAscending(items, direction, p);
    AscendingPositionInvolution(s.sk, direction, items, p);
    var b := s.BucketAt(items, q);
    if sorted != Some(b) {
      ReadBucket(s, items, plan, b);
      sorted := Some(b);
    }
    FullSegmentFinal(s, items, plan, b, q);
    ViewAt(s.sk, direction, items, p, q);
    x := items[s.cache.order[q]];
  }

  /** Elements of consecutive slots of the ascending order, one by one. */
  method Collect<T(!new)>(items: seq<T>, slots: seq<nat>, backwards: bool) returns (out: seq<T>)
    requires forall i :: 0 <= i < |slots| ==> slots[i] < |items|
    ensures out == if backwards then Reverse(Reordered(items, slots)) else Reordered(items, slots)
  {
    out := [];
    for i := 0 to |slots|
      invariant |out| == i
      invariant forall j :: 0 <= j < i ==> out[j] == items[slots[if backwards then |slots| - 1 - j else j]]
    {
      out := out + [items[slots[if backwards then |slots| - 1 - i else i]]];
    }
  }

  /** range, the contiguous paths: forwards, or backwards when there is a single group. */
  method ReadContiguous<T(!new)>(s: KeyState<T>, items: seq<T>, ghost plan: BucketPlan, direction: Direction,
                                 from: nat, to: nat) returns (out: seq<T>)
    requires Readable(s, items, plan) && from < to <= |items| && (direction == DescendingOrder ==> s.sk.groups == 1)
    modifies s`cache
    ensures Readable(s, items, plan)
    ensures |View(s.sk, direction, items)| == |items| && out == View(s.sk, direction, items)[from..to]
  {
    var n := |items|;
    var lo := if direction == AscendingOrder then from else n - to;
    var hi := if direction == AscendingOrder then to else n - from;
    var slots := ReadStretch(s, items, plan, lo, hi);
    ReadableMeans(s, items, plan);
    out := Orient(s.sk, items, direction, from, to, slots);
  }

  /** A stretch of the ascending order, turned around where the direction asks for it. */
  method Orient<T(!new)>(sk: SortKey<T>, items: seq<T>, direction: Direction, ghost from: nat, ghost to: nat,
                         slots: seq<nat>) returns (out: seq<T>)
    requires WellFormed(sk) && Consistent(sk) && (direction == DescendingOrder ==> sk.groups == 1)
    requires from < to <= |items| == |AscendingSlots(sk, items)|
    requires slots == if direction == AscendingOrder then AscendingSlots(sk, items)[from..to]
                      else AscendingSlots(sk, items)[|items| - to..|items| - from]
    requires forall i :: 0 <= i < |slots| ==> slots[i] < |items|
    ensures |View(sk, direction, items)| == |items| && out == View(sk, direction, items)[from..to]
  {
    ViewLength(sk, direction, items);
    if direction == AscendingOrder {
      out := Collect(items, slots, false);
      ForwardView(sk, items, from, to, AscendingSlots(sk, items), slots, out);
    } else {
      out := Collect(items, slots, true);
      BackwardView(sk, items, from, to, AscendingSlots(sk, items), slots, out);
    }
  }

  lemma ForwardView<T(!new)>(sk: SortKey<T>, items: seq<T>, from: nat, to: nat, asc: seq<nat>, slots: seq<nat>,
                             out: seq<T>)
    requires WellFormed(sk) && Consistent(sk) && from < to <= |items| == |View(sk, AscendingOrder, items)|
    requires asc == AscendingSlots(sk, items) && |asc| == |items| && slots == asc[from..to]
    requires (forall i :: 0 <= i < |slots| ==> slots[i] < |items|) && out == Reordered(items, slots)
    ensures out == View(sk, AscendingOrder, items)[from..to]
  {
    var view := View(sk, AscendingOrder, items);
    forall i | 0 <= i < |out| ensures out[i] == view[from + i] {
      ContiguousAt(sk, AscendingOrder, items, from + i);
      SliceAt(asc, from, to, i);
    }
  }

  lemma BackwardView<T(!new)>(sk: SortKey<T>, items: seq<T>, from: nat, to: nat, asc: seq<nat>, slots: seq<nat>,
                              out: seq<T>)
    requires WellFormed(sk) && Consistent(sk) && sk.groups == 1
    requires from < to <= |items| == |View(sk, DescendingOrder, items)|
    requires asc == AscendingSlots(sk, items) && |asc| == |items| && slots == asc[|items| - to..|items| - from]
    requires (forall i :: 0 <= i < |slots| ==> slots[i] < |items|) && out == Reverse(Reordered(items, slots))
    ensures out == View(sk, DescendingOrder, items)[from..to]
  {
    var view := View(sk, DescendingOrder, items);
    forall i | 0 <= i < |out| ensures out[i] == view[from + i] {
      ContiguousAt(sk, DescendingOrder, items, from + i);
      SliceAt(asc, |items| - to, |items| - from, to - from - 1 - i);
    }
  }

  lemma ContiguousAt<T(!new)>(sk: SortKey<T>, direction: Direction, items: seq<T>, p: nat)
    requires WellFormed(sk) && Consistent(sk) && p < |items| && (direction == DescendingOrder ==> sk.groups == 1)
    ensures var q := if direction == AscendingOrder then p else |items| - 1 - p;
      && p < |View(sk, direction, items)| && |AscendingSlots(sk, items)| == |items|
          && AscendingSlots(sk, items)[q] < |items|
      && View(sk, direction, items)[p] == items[AscendingSlots(sk, items)[q]]
  {
    SingleGroupPosition(sk, direction, items, p);
    ViewAt(sk, direction, items, p, if direction == AscendingOrder then p else |items| - 1 - p);
  }

  lemma SingleGroupPosition<T(!new)>(sk: SortKey<T>, direction: Direction, items: seq<T>, p: nat)
    requires WellFormed(sk) && Consistent(sk) && p < |items| && (direction == DescendingOrder ==> sk.groups == 1)
    ensures AscendingPosition(sk, direction, items, p) == if direction == AscendingOrder then p else |items| - 1 - p
  {
    ViewBounds(sk, items);
    if direction == DescendingOrder {
      GroupAtUnique(Bounds(sk, items), 1, |items|, p, 0);
    }
  }

  /** range on a prepared state: picks the path. */
  method ReadRange<T(!new)>(s: KeyState<T>, items: seq<T>, ghost plan: BucketPlan, direction: Direction, from: nat,
                            to: nat) returns (out: seq<T>)
    requires Readable(s, items, plan) && from < to <= |items|
    modifies s`cache
    ensures Readable(s, items, plan)
    ensures |View(s.sk, direction, items)| == |items| && out == View(s.sk, direction, items)[from..to]
  {
    ReadableMeans(s, items, plan);
    if direction == DescendingOrder && |s.data.layouts| > 1 {
      out := ReadMapped(s, items, plan, direction, from, to);
    } else {
      out := ReadContiguous(s, items, plan, direction, from, to);
    }
  }
}
