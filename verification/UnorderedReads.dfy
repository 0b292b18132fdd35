/**
 Reads of one key state when nothing is known of the comparator, which may even cycle: the order is then
 anybody's guess, but every element is read exactly once.
 */
module UnorderedReads {
  import opened Sequences
  import opened SortKeys
  import opened Groupings
  import opened Assignments
  import opened SlotTables
  import opened Reads
  import opened KeyStates
  import opened StateReads

  lemma WithoutLast(order: seq<nat>, n: nat, p: nat)
    requires IsPermutation(order, n + 1) && p <= n && order[p] == n
    ensures IsPermutation(order[..p] + order[p + 1..], n)
  {
    var rest := order[..p] + order[p + 1..];
    forall i | 0 <= i < n ensures rest[i] < n {
      var j := if i < p then i else i + 1;
      assert rest[i] == order[j] && order[j] < n + 1 && order[j] != order[p];
    }
  }

  lemma TakenOut<X>(s: seq<X>, p: nat)
    requires p < |s|
    ensures multiset(s) == multiset(s[..p] + s[p + 1..]) + multiset{s[p]}
  {
    assert s == s[..p] + [s[p]] + s[p + 1..];
  }

  lemma ReorderedWithout<T(!new)>(items: seq<T>, order: seq<nat>, n: nat, p: nat)
    requires IsPermutation(order, n + 1) && |items| == n + 1 && p <= n && order[p] == n
    requires IsPermutation(order[..p] + order[p + 1..], n)
    ensures var r := Reordered(items, order);
      Reordered(items[..n], order[..p] + order[p + 1..]) == r[..p] + r[p + 1..]
  {
  }

  lemma {:induction false} ReorderedKeepsElements<T(!new)>(items: seq<T>, order: seq<nat>)
    requires IsPermutation(order, |items|)
    ensures multiset(Reordered(items, order)) == multiset(items)
  {
    if items != [] {
      var n := |items| - 1;
      PermutationCovers(order, |items|);
      assert n in order;
      var p: nat :| p <= n && order[p] == n;
      WithoutLast(order, n, p);
      ReorderedKeepsElements(items[..n], order[..p] + order[p + 1..]);
      ReorderedWithout(items, order, n, p);
      TakenOut(Reordered(items, order), p);
      TakenOut(items, n);
      assert items[..n] + items[n + 1..] == items[..n];
    }
  }

  ghost predicate InRange(x: seq<nat>, n: nat) {
    forall i :: 0 <= i < |x| ==> x[i] < n
  }

  /** Which elements are picked depends on which positions are, not on their order. */
  lemma {:induction false} PickedAlike<T>(items: seq<T>, x: seq<nat>, y: seq<nat>)
    requires multiset(x) == multiset(y) && InRange(x, |items|)
    ensures InRange(y, |items|) && multiset(Reordered(items, x)) == multiset(Reordered(items, y))
    decreases |x|
  {
    RangeAlike(x, y, |items|);
    if x == [] {
      assert |multiset(y)| == 0;
    } else {
      var n := |x| - 1;
      var p := SamePlace(x, y, n);
      var x', y' := x[..n], y[..p] + y[p + 1..];
      TakenOut<nat>(y, p);
      LastTakenOut<nat>(x);
      Cancel<nat>(multiset(x'), multiset(y'), x[n]);
      PickedAlike(items, x', y');
      PickedWithout(items, y, p, y');
      LastPicked(items, x, x');
    }
  }

  lemma RangeAlike(x: seq<nat>, y: seq<nat>, n: nat)
    requires multiset(x) == multiset(y) && InRange(x, n)
    ensures InRange(y, n)
  {
    forall i | 0 <= i < |y| ensures y[i] < n {
      assert y[i] in multiset(y);
      assert y[i] in x;
    }
  }

  lemma SamePlace(x: seq<nat>, y: seq<nat>, n: nat) returns (p: nat)
    requires multiset(x) == multiset(y) && n < |x|
    ensures p < |y| && y[p] == x[n]
  {
    assert x[n] in multiset(x);
    assert x[n] in y;
    p :| 0 <= p < |y| && y[p] == x[n];
  }

  lemma LastPicked<T>(items: seq<T>, x: seq<nat>, x': seq<nat>)
    requires x != [] && InRange(x, |items|) && x' == x[..|x| - 1] && InRange(x', |items|)
    ensures multiset(Reordered(items, x)) == multiset(Reordered(items, x')) + multiset{items[x[|x| - 1]]}
  {
    LastTakenOut(Reordered(items, x));
    assert Reordered(items, x)[..|x| - 1] == Reordered(items, x');
  }

  lemma Cancel<X>(a: multiset<X>, b: multiset<X>, x: X)
    requires a + multiset{x} == b + multiset{x}
    ensures a == b
  {
    assert a == a + multiset{x} - multiset{x};
    assert b == b + multiset{x} - multiset{x};
  }

  lemma LastTakenOut<X>(s: seq<X>)
    requires s != []
    ensures multiset(s) == multiset(s[..|s| - 1]) + multiset{s[|s| - 1]}
  {
    assert s == s[..|s| - 1] + [s[|s| - 1]];
  }

  lemma PickedWithout<T>(items: seq<T>, x: seq<nat>, p: nat, rest: seq<nat>)
    requires p < |x| && InRange(x, |items|) && rest == x[..p] + x[p + 1..] && InRange(rest, |items|)
    ensures multiset(Reordered(items, x)) == multiset(Reordered(items, rest)) + multiset{items[x[p]]}
  {
    var r := Reordered(items, x);
    TakenOut(r, p);
    assert forall i :: 0 <= i < |rest| ==> rest[i] == x[if i < p then i else i + 1];
    assert Reordered(items, rest) == r[..p] + r[p + 1..];
  }

  // --- by position ---------------------------------------------------------------------------------

  /** Position `x` lies in a segment that will not change any more. */
  ghost predicate Settled(c: Grouping, x: nat) {
    |c.start| == |c.sortedLen| + 1
    && exists b :: 0 <= b < |c.sortedLen| && c.start[b] + c.sortedLen[b] == c.start[b + 1]
        && c.start[b] <= x < c.start[b + 1]
  }

  /** What was settled stays settled, and stays where it is. Opened only on request. */
  ghost predicate Keeps(c: Grouping, c': Grouping) {
    forall u {:trigger Opened(u)} :: Opened(u) ==>
      && |c'.order| == |c.order|
      && forall y :: 0 <= y < |c.order| && Settled(c, y) ==> Settled(c', y) && c'.order[y] == c.order[y]
  }

  /** `x` is the element at the settled position `q`. */
  ghost predicate ReadAt<T>(c: Grouping, items: seq<T>, q: nat, x: T) {
    q < |c.order| && Settled(c, q) && c.order[q] < |items| && x == items[c.order[q]]
  }

  lemma OneSegment(start: seq<nat>, k: nat, n: nat, b: nat, c: nat, y: nat)
    requires Segments(start, k, n) && b < k && c < k
    requires start[b] <= y < start[b + 1] && start[c] <= y < start[c + 1]
    ensures b == c
  {
    SegmentsInOrder(start, k, n, b, y, c, y);
    SegmentsInOrder(start, k, n, c, y, b, y);
  }

  lemma SortingKeeps(c: Grouping, c': Grouping, k: nat, b: nat)
    requires Segments(c.start, k, |c.order|) && |c.sortedLen| == k && b < k && c'.start == c.start
    requires SegmentRearranged(c.order, c'.order, c.start[b], c.start[b + 1])
    requires c'.sortedLen == c.sortedLen[b := c.start[b + 1] - c.start[b]]
    requires c.start[b] + c.sortedLen[b] == c.start[b + 1] ==> c' == c
    ensures Keeps(c, c')
  {
    forall y | 0 <= y < |c.order| && Settled(c, y) ensures Settled(c', y) && c'.order[y] == c.order[y] {
      var d :| 0 <= d < k && c.start[d] + c.sortedLen[d] == c.start[d + 1] && c.start[d] <= y < c.start[d + 1];
      if c.start[b] <= y < c.start[b + 1] {
        OneSegment(c.start, k, |c.order|, b, d, y);
      }
      assert c'.start[d] + c'.sortedLen[d] == c'.start[d + 1];
    }
  }

  /** at, for one position. What was read before stays where it was. */
  method ReadPosition<T(!new)>(s: KeyState<T>, items: seq<T>, direction: Direction, p: nat) returns (x: T, ghost q: nat)
    requires s.Current(items) && p < |items|
    modifies s`cache
    ensures s.Current(items) && Keeps(old(s.cache), s.cache)
    ensures q == AscendingPosition(s.sk, direction, items, p) && ReadAt(s.cache, items, q, x)
  {
    AscendingPositionInvolution(s.sk, direction, items, p);
    var at := s.ToAscending(items, direction, p);
    SettlePosition(s, items, at);
    x, q := items[s.cache.order[at]], at;
  }

  /** Sorts the bucket a position of the grouping lies in. */
  method SettlePosition<T(!new)>(s: KeyState<T>, items: seq<T>, at: nat)
    requires s.Current(items) && at < |items|
    modifies s`cache
    ensures s.Current(items) && Keeps(old(s.cache), s.cache) && Settled(s.cache, at)
    ensures at < |s.cache.order| && s.cache.order[at] < |items|
  {
    var b := s.BucketAt(items, at);
    SettleBucket(s, items, b);
    SettledIn(s.cache, b, at);
  }

  method SettleBucket<T(!new)>(s: KeyState<T>, items: seq<T>, b: nat)
    requires s.Current(items) && b < |s.data.counts|
    modifies s`cache
    ensures s.Current(items) && Keeps(old(s.cache), s.cache) && s.Full(b) && s.cache.start == old(s.cache.start)
  {
    ghost var c := s.cache;
    s.SortBucket(items, b);
    SortingKeeps(c, s.cache, |s.data.counts|, b);
  }

  lemma SettledIn(c: Grouping, b: nat, x: nat)
    requires b < |c.sortedLen| && |c.start| == |c.sortedLen| + 1
    requires c.start[b] + c.sortedLen[b] == c.start[b + 1] && c.start[b] <= x < c.start[b + 1]
    ensures Settled(c, x)
  {
  }

  /** `out` was read at the positions `at`, as a reader of positions 0, 1, ... does. Opened only on request. */
  ghost predicate HasRead<T(!new)>(sk: SortKey<T>, direction: Direction, c: Grouping, items: seq<T>, at: seq<nat>,
                                   out: seq<T>)
  {
    forall u {:trigger Opened(u)} :: Opened(u) ==>
      && |at| == |out|
      && forall i :: 0 <= i < |at| ==>
           at[i] == AscendingPosition(sk, direction, items, i) && ReadAt(c, items, at[i], out[i])
  }

  lemma ReadsOn<T(!new)>(sk: SortKey<T>, direction: Direction, c: Grouping, c': Grouping, items: seq<T>, at: seq<nat>,
                         out: seq<T>, q: nat, x: T)
    requires HasRead(sk, direction, c, items, at, out) && Keeps(c, c') && ReadAt(c', items, q, x)
    requires q == AscendingPosition(sk, direction, items, |out|)
    ensures HasRead(sk, direction, c', items, at + [q], out + [x])
  {
    assert Opened(0);
    var at', out' := at + [q], out + [x];
    forall i | 0 <= i < |at'|
      ensures at'[i] == AscendingPosition(sk, direction, items, i) && ReadAt(c', items, at'[i], out'[i])
    {
      if i < |at| {
        assert ReadAt(c, items, at[i], out[i]);
      }
    }
  }

  /** Reading position after position, in either direction, yields every element exactly once. */
  method ReadEveryPosition<T(!new)>(s: KeyState<T>, items: seq<T>, direction: Direction) returns (out: seq<T>)
    requires s.Current(items)
    modifies s`cache
    ensures s.Current(items) && multiset(out) == multiset(items)
  {
    out := [];
    ghost var at: seq<nat> := [];
    for p := 0 to |items|
      invariant s.Current(items) && |out| == p && HasRead(s.sk, direction, s.cache, items, at, out)
    {
      ghost var q, c := 0, s.cache;
      var x;
      x, q := ReadPosition(s, items, direction, p);
      ReadsOn(s.sk, direction, c, s.cache, items, at, out, q, x);
      out, at := out + [x], at + [q];
    }
    EveryPositionRead(s.sk, items, direction, s.cache, at, out);
  }

  lemma EveryPositionRead<T(!new)>(sk: SortKey<T>, items: seq<T>, direction: Direction, c: Grouping, at: seq<nat>,
                                   out: seq<T>)
    requires WellFormed(sk) && IsPermutation(c.order, |items|) && |out| == |items|
    requires HasRead(sk, direction, c, items, at, out)
    ensures multiset(out) == multiset(items)
  {
    assert Opened(0);
    forall i | 0 <= i < |at| ensures at[i] < |items| && out[i] == items[c.order[at[i]]] {
      assert ReadAt(c, items, at[i], out[i]);
    }
    forall i, j | 0 <= i < j < |at| ensures at[i] != at[j] {
      AscendingPositionInvolution(sk, direction, items, i);
      AscendingPositionInvolution(sk, direction, items, j);
    }
    var slots := Reordered(c.order, at);
    assert IsPermutation(slots, |items|);
    assert out == Reordered(items, slots);
    ReorderedKeepsElements(items, slots);
  }

  // --- bucket by bucket -------------------------------------------------------------------------------

  /** Every segment holds the slots it held in `order0`, in whatever order. */
  ghost predicate SameSegments(order0: seq<nat>, order: seq<nat>, start: seq<nat>, k: nat) {
    && |order0| == |order| && Segments(start, k, |order|)
    && forall b :: 0 <= b < k ==> multiset(order[start[b]..start[b + 1]]) == multiset(order0[start[b]..start[b + 1]])
  }

  lemma SortingKeepsSegments(order0: seq<nat>, order: seq<nat>, order': seq<nat>, start: seq<nat>, k: nat, b: nat)
    requires SameSegments(order0, order, start, k) && b < k && SegmentRearranged(order, order', start[b], start[b + 1])
    ensures SameSegments(order0, order', start, k)
  {
    forall c | 0 <= c < k
      ensures multiset(order'[start[c]..start[c + 1]]) == multiset(order0[start[c]..start[c + 1]])
    {
      if c != b {
        assert c < b ==> start[c + 1] <= start[b];
        assert b < c ==> start[b + 1] <= start[c];
        assert order'[start[c]..start[c + 1]] == order[start[c]..start[c + 1]];
      }
    }
  }

  /** The elements at lo..hi of a grouping, as a multiset. */
  ghost function Read<T>(items: seq<T>, order: seq<nat>, lo: nat, hi: nat): multiset<T>
    requires lo <= hi <= |order| && forall i :: 0 <= i < |order| ==> order[i] < |items|
  {
    multiset(Reordered(items, order[lo..hi]))
  }

  lemma ReadJoins<T>(items: seq<T>, order: seq<nat>, lo: nat, mid: nat, hi: nat)
    requires lo <= mid <= hi <= |order| && forall i :: 0 <= i < |order| ==> order[i] < |items|
    ensures Read(items, order, lo, mid) + Read(items, order, mid, hi) == Read(items, order, lo, hi)
  {
    assert Reordered(items, order[lo..hi]) == Reordered(items, order[lo..mid]) + Reordered(items, order[mid..hi]);
  }

  /** for_each, one bucket, forwards or backwards. */
  method VisitSegment<T(!new)>(s: KeyState<T>, items: seq<T>, b: nat, backwards: bool, ghost order0: seq<nat>)
    returns (out: seq<T>)
    requires s.Current(items) && b < |s.data.counts| && IsPermutation(order0, |items|)
    requires SameSegments(order0, s.cache.order, s.cache.start, |s.data.counts|)
    modifies s`cache
    ensures s.Current(items) && s.cache.start == old(s.cache.start)
    ensures SameSegments(order0, s.cache.order, s.cache.start, |s.data.counts|)
    ensures s.cache.start[b] <= s.cache.start[b + 1] <= |items|
    ensures multiset(out) == Read(items, order0, s.cache.start[b], s.cache.start[b + 1])
  {
    ghost var k, order := |s.data.counts|, s.cache.order;
    s.SortBucket(items, b);
    SortingKeepsSegments(order0, order, s.cache.order, s.cache.start, k, b);
    assert s.cache.start[b + 1] <= s.cache.start[k];
    var slots := s.cache.order[s.cache.start[b]..s.cache.start[b + 1]];
    out := Collect(items, slots, backwards);
    PickedAlike(items, slots, order0[s.cache.start[b]..s.cache.start[b + 1]]);
    ReverseKeeps(Reordered(items, slots));
  }

  lemma {:induction false} ReverseKeeps<X>(s: seq<X>)
    ensures multiset(Reverse(s)) == multiset(s)
  {
    if s != [] {
      ReverseKeeps(s[1..]);
      assert Reverse(s) == Reverse(s[1..]) + [s[0]];
      assert s == [s[0]] + s[1..];
    }
  }

  /** for_each, ascending. */
  method VisitForwards<T(!new)>(s: KeyState<T>, items: seq<T>) returns (out: seq<T>)
    requires s.Current(items)
    modifies s`cache
    ensures s.Current(items) && multiset(out) == multiset(items)
  {
    ghost var order0, k := s.cache.order, |s.data.counts|;
    out := [];
    for b := 0 to |s.data.counts|
      invariant s.Current(items) && s.cache.start == old(s.cache.start)
      invariant SameSegments(order0, s.cache.order, s.cache.start, k)
      invariant multiset(out) == Read(items, order0, 0, s.cache.start[b])
    {
      var more := VisitSegment(s, items, b, false, order0);
      ReadJoins(items, order0, 0, s.cache.start[b], s.cache.start[b + 1]);
      out := out + more;
    }
    assert order0[0..|items|] == order0;
    ReorderedKeepsElements(items, order0);
  }

  /** for_each, descending, one group. */
  method VisitGroup<T(!new)>(s: KeyState<T>, items: seq<T>, first: nat, end: nat, ghost order0: seq<nat>)
                             returns (out: seq<T>)
    requires s.Current(items) && first <= end <= |s.data.counts| && IsPermutation(order0, |items|)
    requires SameSegments(order0, s.cache.order, s.cache.start, |s.data.counts|)
    modifies s`cache
    ensures s.Current(items) && s.cache.start == old(s.cache.start)
    ensures SameSegments(order0, s.cache.order, s.cache.start, |s.data.counts|)
    ensures s.cache.start[first] <= s.cache.start[end] <= |items|
    ensures multiset(out) == Read(items, order0, s.cache.start[first], s.cache.start[end])
  {
    out := [];
    var b := end;
    assert s.cache.start[end] <= s.cache.start[|s.data.counts|];
    while b > first
      invariant first <= b <= end && s.Current(items) && s.cache.start == old(s.cache.start)
      invariant SameSegments(order0, s.cache.order, s.cache.start, |s.data.counts|)
      invariant s.cache.start[b] <= s.cache.start[end] <= |items|
      invariant multiset(out) == Read(items, order0, s.cache.start[b], s.cache.start[end])
    {
      b := b - 1;
      var more := VisitSegment(s, items, b, true, order0);
      ReadJoins(items, order0, s.cache.start[b], s.cache.start[b + 1], s.cache.start[end]);
      out := out + more;
    }
  }

  /** for_each, descending. */
  method VisitBackwards<T(!new)>(s: KeyState<T>, items: seq<T>) returns (out: seq<T>)
    requires s.Current(items)
    modifies s`cache
    ensures s.Current(items) && multiset(out) == multiset(items)
  {
    ghost var order0, k := s.cache.order, |s.data.counts|;
    out := [];
    for g := 0 to |s.data.layouts|
      invariant s.Current(items) && s.cache.start == old(s.cache.start) && s.data.groupOffset[g] <= k
      invariant SameSegments(order0, s.cache.order, s.cache.start, k)
      invariant s.cache.start[s.data.groupOffset[g]] <= |items|
      invariant multiset(out) == Read(items, order0, 0, s.cache.start[s.data.groupOffset[g]])
    {
      StartsAscend(s.data.groupOffset, Sizes(s.data.layouts), g, g + 1);
      StartsAscend(s.data.groupOffset, Sizes(s.data.layouts), g + 1, |s.data.layouts|);
      var more := VisitGroup(s, items, s.data.groupOffset[g], s.data.groupOffset[g + 1], order0);
      ReadJoins(items, order0, 0, s.cache.start[s.data.groupOffset[g]], s.cache.start[s.data.groupOffset[g + 1]]);
      out := out + more;
    }
    assert order0[0..|items|] == order0;
    ReorderedKeepsElements(items, order0);
  }

  /** for_each in either direction visits every element exactly once. */
  method VisitEverything<T(!new)>(s: KeyState<T>, items: seq<T>, direction: Direction) returns (out: seq<T>)
    requires s.Current(items)
    modifies s`cache
    ensures s.Current(items) && multiset(out) == multiset(items)
  {
    if direction == AscendingOrder {
      out := VisitForwards(s, items);
    } else {
      out := VisitBackwards(s, items);
    }
  }
}
