/** bucket_layout.hpp, the estimate: sampling, split positions, and the layout they yield. */
module LayoutEstimation {
  import opened Sequences
  import opened Orders
  import opened Arithmetic
  import opened Searching
  import opened SortKeys
  import opened BucketPlans
  import opened SplitChoices
  import opened BucketLayouts

  // --- sampling ---------------------------------------------------------------

  /** One index out of each stride, so the sample is spread evenly; the whole range if it is small enough. */
  method SampleIndices(n: nat, sampleSize: nat, draw: nat -> nat) returns (out: seq<nat>)
    requires 0 < sampleSize
    ensures |out| == Min(n, sampleSize)
    ensures forall i :: 0 <= i < |out| ==> out[i] < n
    ensures forall i, j :: 0 <= i < j < |out| ==> out[i] < out[j]
    ensures forall i :: 0 <= i < |out| ==> InStride(out[i], i, n, |out|)
    ensures n <= sampleSize ==> out == Iota(0, n)
  {
    var s := Min(n, sampleSize);
    if s == n {
      forall i | 0 <= i < n ensures InStride(i, i, n, n) {
        StrideOfOne(i, n);
      }
      return Iota(0, n);
    }
    out := [];
    ghost var edge := 0;
    for j := 0 to s
      invariant |out| == j && IsEdge(edge, j, n, s) && Strides(out, n, s)
      invariant forall i :: 0 <= i < j ==> out[i] < edge
      invariant forall i, k :: 0 <= i < k < j ==> out[i] < out[k]
    {
      var x;
      x, edge := DrawFrom(j, n, s, draw(j), edge);
      NextStride(out, n, s, x);
      out := out + [x];
    }
    StridesMean(out, n, s, edge);
  }

  /** One index out of the j-th stride. */
  method DrawFrom(j: nat, n: nat, s: nat, random: nat, ghost edge: nat) returns (x: nat, ghost edge': nat)
    requires j < s < n && IsEdge(edge, j, n, s)
    ensures edge <= x < edge' && IsEdge(edge', j + 1, n, s) && InStride(x, j, n, s)
  {
    StrideNonEmpty(j, n, s);
    var lo, hi := j * n / s, (j + 1) * n / s;
    x, edge' := lo + random % (hi - lo), hi;
  }

  /** `edge` is where the j-th stride begins. */
  ghost predicate IsEdge(edge: nat, j: nat, n: nat, s: nat)
    requires 0 < s
  {
    edge == j * n / s
  }

  /** Every index is from its own stride. Opened only on request. */
  ghost predicate Strides(out: seq<nat>, n: nat, s: nat)
    requires 0 < s
  {
    forall u {:trigger Opened(u)} :: Opened(u) ==> forall i :: 0 <= i < |out| ==> InStride(out[i], i, n, s)
  }

  lemma NextStride(out: seq<nat>, n: nat, s: nat, x: nat)
    requires 0 < s && Strides(out, n, s) && InStride(x, |out|, n, s)
    ensures Strides(out + [x], n, s)
  {
    assert Opened(0);
  }

  lemma StridesMean(out: seq<nat>, n: nat, s: nat, edge: nat)
    requires 0 < s == |out| && Strides(out, n, s) && IsEdge(edge, s, n, s)
    ensures edge == n && forall i :: 0 <= i < |out| ==> InStride(out[i], i, n, s)
  {
    assert Opened(0);
    QuotientIs(s * n, s, n);
  }

  /** `x` comes from the i-th of `s` strides over n indices. */
  ghost predicate InStride(x: nat, i: nat, n: nat, s: nat)
    requires 0 < s
  {
    i * n / s <= x < (i + 1) * n / s
  }

  lemma StrideOfOne(i: nat, n: nat)
    requires i < n
    ensures InStride(i, i, n, n)
  {
    QuotientIs(i * n, n, i);
    QuotientIs((i + 1) * n, n, i + 1);
  }

  // --- the order of the sample ------------------------------------------------------

  /** The stored keys are those of the elements; without a key function there are none. */
  ghost predicate KeysInSync<T>(sk: SortKey<T>, items: seq<T>, keys: seq<Key64>) {
    if sk.key.None? then keys == []
    else |keys| == |items| && forall i :: 0 <= i < |items| ==> keys[i] == sk.Key(items[i])
  }

  /** Stored key, then tie-breaker; the full comparison for comparator-only keys. */
  function SlotOrder<T>(sk: SortKey<T>, items: seq<T>, keys: seq<Key64>): Comparator<nat> {
    (a: nat, b: nat) =>
      if a >= |items| || b >= |items| then a - b
      else if sk.key.None? then sk.Compare(items[a], items[b])
      else if a < |keys| && b < |keys| && keys[a] != keys[b] then if keys[a] < keys[b] then -1 else 1
      else sk.TieBreak(items[a], items[b])
  }

  lemma SlotOrderIsPreorder<T(!new)>(sk: SortKey<T>, items: seq<T>, keys: seq<Key64>)
    requires Consistent(sk) && KeysInSync(sk, items, keys)
    ensures TotalPreorder(SlotOrder(sk, items, keys))
    ensures forall a: nat, b: nat :: a < |items| && b < |items| ==>
        SlotOrder(sk, items, keys)(a, b) == sk.Within(items[a], items[b])
  {
    WithinIsPreorder(sk);
    var c, w := SlotOrder(sk, items, keys), sk.WithinOrder();
    forall a: nat, b: nat | a < |items| && b < |items| ensures c(a, b) == w(items[a], items[b]) {
    }
    forall a: nat, b: nat ensures c(a, b) < 0 <==> c(b, a) > 0 {
      if a < |items| && b < |items| {
        assert w(items[a], items[b]) < 0 <==> w(items[b], items[a]) > 0;
      }
    }
    forall x: nat, y: nat, z: nat ensures Chains(c, x, y, z) {
      if x < |items| && y < |items| && z < |items| {
        assert Chains(w, items[x], items[y], items[z]);
      }
    }
  }

  function AtLeast(c: Comparator<nat>, sorted: seq<nat>, x: nat): nat -> bool {
    (i: nat) => i < |sorted| ==> c(sorted[i], x) >= 0
  }

  function Above(c: Comparator<nat>, sorted: seq<nat>, x: nat): nat -> bool {
    (i: nat) => i < |sorted| ==> c(x, sorted[i]) < 0
  }

  /** std::lower_bound of the element at `q`. */
  function RunStart(c: Comparator<nat>, sorted: seq<nat>): nat -> nat {
    (q: nat) => if q < |sorted| then PartitionPoint(AtLeast(c, sorted, sorted[q]), 0, |sorted|) else q
  }

  /** std::upper_bound of the element at `q`. */
  function RunEnd(c: Comparator<nat>, sorted: seq<nat>): nat -> nat {
    (q: nat) => if q < |sorted| then PartitionPoint(Above(c, sorted, sorted[q]), 0, |sorted|) else q
  }

  /** Position `p` separates strictly smaller elements from larger ones: it cuts no run of equals. */
  ghost predicate Separates(c: Comparator<nat>, sorted: seq<nat>, p: nat) {
    0 < p < |sorted| ==> c(sorted[p - 1], sorted[p]) < 0
  }

  lemma AtLeastUpward(c: Comparator<nat>, sorted: seq<nat>, v: nat)
    requires TotalPreorder(c) && Ascending(c, sorted)
    ensures UpwardClosed(AtLeast(c, sorted, v), 0, |sorted|)
  {
    var p := AtLeast(c, sorted, v);
    forall i, j | 0 <= i <= j < |sorted| && p(i) ensures p(j) {
      Mirrors(c, v, sorted[i]);
      Mirrors(c, v, sorted[j]);
      assert Chains(c, v, sorted[i], sorted[j]);
    }
  }

  lemma AboveUpward(c: Comparator<nat>, sorted: seq<nat>, v: nat)
    requires TotalPreorder(c) && Ascending(c, sorted)
    ensures UpwardClosed(Above(c, sorted, v), 0, |sorted|)
  {
    var p := Above(c, sorted, v);
    forall i, j | 0 <= i <= j < |sorted| && p(i) ensures p(j) {
      if i < j {
        StrictChain(c, v, sorted[i], sorted[j]);
      }
    }
  }

  lemma RunStartBounds(c: Comparator<nat>, sorted: seq<nat>, q: nat)
    requires TotalPreorder(c) && Ascending(c, sorted) && q < |sorted|
    ensures RunStart(c, sorted)(q) <= q && Separates(c, sorted, RunStart(c, sorted)(q))
    ensures forall i :: 0 <= i <= q ==> (RunStart(c, sorted)(q) <= i <==> c(sorted[i], sorted[q]) == 0)
  {
    var v, p := sorted[q], AtLeast(c, sorted, sorted[q]);
    AtLeastUpward(c, sorted, v);
    PartitionPointCorrect(p, 0, |sorted|);
    Mirrors(c, v, v);
    assert p(q);
    var lo := PartitionPoint(p, 0, |sorted|);
    forall i | 0 <= i <= q ensures lo <= i <==> c(sorted[i], v) == 0 {
      assert i < q ==> c(sorted[i], v) <= 0;
      assert lo <= i <==> p(i);
    }
    if 0 < lo < |sorted| {
      assert !p(lo - 1) && p(lo);
      Mirrors(c, v, sorted[lo]);
      StrictChain(c, sorted[lo - 1], v, sorted[lo]);
    }
  }

  lemma RunEndBounds(c: Comparator<nat>, sorted: seq<nat>, q: nat)
    requires TotalPreorder(c) && Ascending(c, sorted) && q < |sorted|
    ensures q < RunEnd(c, sorted)(q) <= |sorted| && Separates(c, sorted, RunEnd(c, sorted)(q))
    ensures forall i :: q <= i < |sorted| ==> (i < RunEnd(c, sorted)(q) <==> c(sorted[i], sorted[q]) == 0)
  {
    var v, p := sorted[q], Above(c, sorted, sorted[q]);
    AboveUpward(c, sorted, v);
    PartitionPointCorrect(p, 0, |sorted|);
    Mirrors(c, v, v);
    assert !p(q);
    var hi := PartitionPoint(p, 0, |sorted|);
    forall i | q <= i < |sorted| ensures i < hi <==> c(sorted[i], v) == 0 {
      assert q < i ==> c(v, sorted[i]) <= 0;
      Mirrors(c, v, sorted[i]);
      assert i < hi <==> !p(i);
    }
    if 0 < hi < |sorted| {
      assert !p(hi - 1) && p(hi);
      Mirrors(c, v, sorted[hi - 1]);
      StrictChain(c, sorted[hi - 1], v, sorted[hi]);
    }
  }

  // --- the layout cut at the split positions -----------------------------------------

  /** The first `k` split points of `layout` are those of the sorted sample `es` at `positions`. */
  ghost predicate CutAt<T>(layout: BucketLayout<T>, sk: SortKey<T>, es: seq<T>, positions: seq<nat>, k: nat) {
    && k <= |positions| && layout.Splits(sk) == k
    && (forall i :: 0 <= i < k ==> 0 < positions[i] < |es|)
    && |layout.splitElement| == |layout.boundaries| && |layout.splitterPositions| == |layout.splitters|
    && if sk.key.None? then
         && layout.boundaries == []
         && forall i :: 0 <= i < k ==> layout.splitters[i] == es[positions[i]]
       else forall i :: 0 <= i < k ==> KeyedSplit(layout, sk, es, positions[i], i)
  }

  /** Split point `i` has the key of the element at `p`, and names it when the key is also the previous one's. */
  ghost predicate KeyedSplit<T>(layout: BucketLayout<T>, sk: SortKey<T>, es: seq<T>, p: nat, i: nat)
    requires i < |layout.boundaries| == |layout.splitElement| && 0 < p < |es|
  {
    && layout.boundaries[i] == sk.Key(es[p])
    && if sk.Key(es[p - 1]) == sk.Key(es[p]) then
         layout.splitElement[i].Some? && layout.splitElement[i].value < |layout.splitters|
         && layout.splitters[layout.splitElement[i].value] == es[p]
       else layout.splitElement[i].None?
  }

  /** Adds the split point at position `p` of the sorted sample. */
  function AddSplit<T>(layout: BucketLayout<T>, sk: SortKey<T>, key: Key64, previousKey: Key64, x: T,
                       slot: nat): BucketLayout<T> {
    var needsElement := sk.key.None? || previousKey == key;
    var keyed :=
      if sk.key.None? then layout
      else layout.(boundaries := layout.boundaries + [key],
                   splitElement := layout.splitElement + [if needsElement then Some(|layout.splitters|) else None]);
    if needsElement then
      keyed.(splitters := layout.splitters + [x], splitterPositions := layout.splitterPositions + [slot])
    else keyed
  }

  lemma AddSplitCuts<T>(layout: BucketLayout<T>, sk: SortKey<T>, es: seq<T>, positions: seq<nat>, k: nat, slot: nat)
    requires CutAt(layout, sk, es, positions, k) && k < |positions| && 0 < positions[k] < |es|
    ensures CutAt(AddSplit(layout, sk, sk.Key(es[positions[k]]), sk.Key(es[positions[k] - 1]), es[positions[k]], slot),
                  sk, es, positions, k + 1)
  {
    var next := AddSplit(layout, sk, sk.Key(es[positions[k]]), sk.Key(es[positions[k] - 1]), es[positions[k]], slot);
    if sk.key.Some? {
      forall i | 0 <= i < k ensures KeyedSplit(next, sk, es, positions[i], i) {
        assert KeyedSplit(layout, sk, es, positions[i], i);
      }
      assert KeyedSplit(next, sk, es, positions[k], k);
    }
  }

  lemma CutIsShaped<T>(layout: BucketLayout<T>, sk: SortKey<T>, es: seq<T>, positions: seq<nat>)
    requires CutAt(layout, sk, es, positions, |positions|) && |layout.expected| == |positions| + 1
    ensures layout.Shaped(sk)
  {
    if sk.key.Some? {
      forall i | 0 <= i < |layout.boundaries| && layout.splitElement[i].Some?
        ensures layout.splitElement[i].value < |layout.splitters|
      {
        assert KeyedSplit(layout, sk, es, positions[i], i);
      }
    }
  }

  /** The sample is ascending and the positions cut it without cutting a run of equals. */
  ghost predicate CleanCuts<T>(sk: SortKey<T>, es: seq<T>, positions: seq<nat>) {
    && Ascending(sk.WithinOrder(), es) && SplitPositions(positions, |es|)
    && forall i :: 0 <= i < |positions| ==> sk.Within(es[positions[i] - 1], es[positions[i]]) < 0
  }

  lemma CutsAreStrict<T(!new)>(sk: SortKey<T>, es: seq<T>, positions: seq<nat>, x: nat, i: nat)
    requires Consistent(sk) && CleanCuts(sk, es, positions) && i < |positions| && x < |es|
    ensures x < positions[i] ==> sk.Within(es[x], es[positions[i]]) < 0
    ensures positions[i] <= x ==> sk.Within(es[positions[i]], es[x]) <= 0
  {
    WithinIsPreorder(sk);
    var w, p := sk.WithinOrder(), positions[i];
    if x < p - 1 {
      assert w(es[x], es[p - 1]) <= 0;
      StrictChain(w, es[x], es[p - 1], es[p]);
    } else if p < x {
      assert w(es[p], es[x]) <= 0;
    } else if p == x {
      Mirrors(w, es[p], es[p]);
    }
  }

  /** A sampled element is below a split point exactly when it lies left of it in the sorted sample. */
  lemma SampleBelow<T(!new)>(layout: BucketLayout<T>, sk: SortKey<T>, es: seq<T>, positions: seq<nat>, x: nat, i: nat)
    requires Consistent(sk) && CleanCuts(sk, es, positions)
    requires CutAt(layout, sk, es, positions, |positions|) && |layout.expected| == |positions| + 1
    requires i < |positions| && x < |es|
    ensures layout.Below(sk, es[x], sk.Key(es[x]), i) <==> x < positions[i]
  {
    var p := positions[i];
    CutsAreStrict(sk, es, positions, x, i);
    WithinIsPreorder(sk);
    Mirrors(sk.WithinOrder(), es[p], es[x]);
    if sk.key.Some? {
      assert KeyedSplit(layout, sk, es, p, i);
      if x < p && sk.Key(es[x]) == sk.Key(es[p]) {
        assert x == p - 1 || sk.WithinOrder()(es[x], es[p - 1]) <= 0;
      }
    }
  }

  lemma CutIsIncreasing<T(!new)>(layout: BucketLayout<T>, sk: SortKey<T>, es: seq<T>, positions: seq<nat>)
    requires Consistent(sk) && CleanCuts(sk, es, positions)
    requires CutAt(layout, sk, es, positions, |positions|) && |layout.expected| == |positions| + 1
    ensures layout.Shaped(sk) && Increasing(layout, sk)
  {
    CutIsShaped(layout, sk, es, positions);
    forall i, j | 0 <= i < j < |positions| ensures sk.Within(es[positions[i]], es[positions[j]]) < 0 {
      CutsAreStrict(sk, es, positions, positions[i], j);
    }
    if sk.key.Some? {
      forall i, j | 0 <= i < j < |positions|
        ensures layout.boundaries[i] <= layout.boundaries[j]
        ensures layout.boundaries[i] == layout.boundaries[j] ==>
          && layout.splitElement[j].Some?
          && (layout.splitElement[i].Some? ==>
            sk.TieBreak(layout.splitters[layout.splitElement[i].value],
                layout.splitters[layout.splitElement[j].value]) < 0)
      {
        assert KeyedSplit(layout, sk, es, positions[i], i) && KeyedSplit(layout, sk, es, positions[j], j);
        SampleBelow(layout, sk, es, positions, positions[i], j);
      }
    }
  }

  /** Bucket `b` of the layout holds exactly the sampled elements between two neighbouring cuts. */
  lemma SampleBucket<T(!new)>(layout: BucketLayout<T>, sk: SortKey<T>, es: seq<T>, positions: seq<nat>, x: nat, b: nat)
    requires Consistent(sk) && CleanCuts(sk, es, positions)
    requires CutAt(layout, sk, es, positions, |positions|) && |layout.expected| == |positions| + 1
    requires b <= |positions| && Edge(positions, |es|, b) <= x < Edge(positions, |es|, b + 1) && x < |es|
    ensures layout.BucketOf(sk, es[x]) == b
  {
    var p := layout.BelowSplit(sk, es[x], sk.Key(es[x]));
    forall i | 0 <= i < |positions| ensures p(i) <==> b <= i {
      SampleBelow(layout, sk, es, positions, x, i);
    }
    PartitionPointUnique(p, 0, |positions|, b);
  }

  // --- expected sizes ------------------------------------------------------------------

  /** After `k` buckets covering `edge` of `s` sampled positions, the scaled sizes add up to `sum`. */
  ghost predicate Rounded(s: nat, sum: nat, edge: nat, n: nat, k: nat) {
    0 <= 2 * (s * sum - edge * n) + k * s <= 2 * (k * s)
  }

  function Product(a: nat, b: nat): nat {
    a * b
  }

  /** `x` over `s`, rounded to the nearest integer. */
  function Nearest(x: nat, s: nat): nat
    requires 0 < s
  {
    (x + s / 2) / s
  }

  /** Rounding to the nearest integer is off by at most one half, so `k` roundings by at most k halves. */
  lemma RoundedNext(s: nat, sum: nat, edge: nat, p: nat, n: nat, k: nat, e: nat)
    requires 0 < s && edge <= p && Rounded(s, sum, edge, n, k)
    requires e == Nearest(Product(p - edge, n), s)
    ensures Rounded(s, sum + e, p, n, k + 1)
  {
    var d := (p - edge) * n;
    QuotientBounds(d + s / 2, s);
    assert e * s == s * e;
    assert s * (sum + e) == s * sum + s * e;
    assert d == p * n - edge * n;
    assert (k + 1) * s == k * s + s;
  }

  lemma RoundedTotal(s: nat, sum: nat, n: nat, k: nat)
    requires 0 < s && Rounded(s, sum, s, n, k)
    ensures 0 <= 2 * (sum - n) + k <= 2 * k
  {
    var x := 2 * (sum - n) + k;
    assert x * s == 2 * (s * sum - s * n) + k * s;
    assert (x + 1) * s == x * s + s && (2 * k + 1) * s == 2 * (k * s) + s;
    if x < 0 {
      MulMonotone(x + 1, 0, s);
    }
    if 2 * k < x {
      MulMonotone(2 * k + 1, x, s);
    }
  }

  lemma ExactQuotient(d: nat, n: nat)
    requires 0 < n
    ensures (d * n + n / 2) / n == d
  {
    QuotientIs(d * n + n / 2, n, d);
  }

  /** Bucket `b` is predicted to hold what lies between its cuts, scaled to `n` elements and rounded. */
  ghost predicate ScaledEdge(e: nat, positions: seq<nat>, s: nat, n: nat, b: nat) {
    var d := Edge(positions, s, b + 1) - Edge(positions, s, b);
    0 < s && 0 <= d && e == Nearest(Product(d, n), s)
  }

  ghost predicate ScaledEdges(expected: seq<nat>, positions: seq<nat>, s: nat, n: nat) {
    |expected| == |positions| + 1 && forall b :: 0 <= b < |expected| ==> ScaledEdge(expected[b], positions, s, n, b)
  }

  /** Sizes of `s` sampled positions scaled to `n` elements; the total is off by at most half per bucket. */
  method ExpectedSizes(positions: seq<nat>, s: nat, n: nat) returns (expected: seq<nat>)
    requires SplitPositions(positions, s) && 0 < s
    ensures |expected| == |positions| + 1
    ensures 0 <= 2 * (Sum(expected) - n) + |expected| <= 2 * |expected|
    ensures ScaledEdges(expected, positions, s, n)
    ensures s == n ==> forall b :: 0 <= b < |expected| ==>
        expected[b] == Edge(positions, s, b + 1) - Edge(positions, s, b)
  {
    expected := [];
    var previous := 0;
    ghost var sum := 0;
    assert Rounded(s, 0, 0, n, 0);
    for k := 0 to |positions| + 1
      invariant |expected| == k && previous == Edge(positions, s, k) && sum == Sum(expected)
      invariant Rounded(s, sum, previous, n, k)
      invariant forall b :: 0 <= b < k ==> ScaledEdge(expected[b], positions, s, n, b)
    {
      var p := if k < |positions| then positions[k] else s;
      var e := Nearest(Product(p - previous, n), s);
      RoundedNext(s, sum, previous, p, n, k, e);
      SumAppend(expected, e);
      expected := expected + [e];
      previous, sum := p, sum + e;
    }
    RoundedTotal(s, sum, n, |expected|);
    if s == n {
      UnscaledEdges(expected, positions, n);
    }
  }

  /** With everything sampled nothing is scaled, so nothing is rounded. */
  lemma UnscaledEdges(expected: seq<nat>, positions: seq<nat>, n: nat)
    requires ScaledEdges(expected, positions, n, n)
    ensures forall b :: 0 <= b < |expected| ==>
        expected[b] == Edge(positions, n, b + 1) - Edge(positions, n, b)
  {
    forall b | 0 <= b < |expected| ensures expected[b] == Edge(positions, n, b + 1) - Edge(positions, n, b) {
      assert ScaledEdge(expected[b], positions, n, n, b);
      ExactQuotient(Edge(positions, n, b + 1) - Edge(positions, n, b), n);
    }
  }

  // --- the estimate ---------------------------------------------------------------------

  /** Slots whose element the layout puts in bucket `b`. */
  function InLayoutBucket<T>(layout: BucketLayout<T>, sk: SortKey<T>, items: seq<T>, b: nat): nat -> bool {
    (slot: nat) => slot < |items| && layout.BucketOf(sk, items[slot]) == b
  }

  /** Everything a layout promises about the `members` it was estimated from. */
  ghost predicate Estimated<T(!new)>(
    layout: BucketLayout<T>, sk: SortKey<T>, items: seq<T>, members: seq<nat>, plan: BucketPlan)
  {
    && layout.Shaped(sk) && Increasing(layout, sk)
    && layout.BucketCount() <= plan.maxBuckets && layout.estimatedFrom == |members|
    && (forall e :: 0 <= e < |layout.splitters| ==>
          && layout.splitterPositions[e] in members && layout.splitterPositions[e] < |items|
          && layout.splitters[e] == items[layout.splitterPositions[e]])
    && 0 <= 2 * (Sum(layout.expected) - |members|) + |layout.expected| <= 2 * |layout.expected|
    && (|members| <= plan.sampleSize ==>
          forall b :: 0 <= b < layout.BucketCount() ==>
            layout.expected[b] == |Filter(InLayoutBucket(layout, sk, items, b), members)|)
    && (plan.WellFormed() && |members| <= plan.sampleSize && AllDiffer(sk, items, members) ==>
          AsPlanned(plan, |members|, layout.expected))
  }

  /** No two members tie. */
  ghost predicate AllDiffer<T>(sk: SortKey<T>, items: seq<T>, members: seq<nat>) {
    forall a, b :: a in members && b in members && a != b ==>
      a < |items| && b < |items| && sk.Within(items[a], items[b]) != 0
  }

  /** How an estimate came about; taken[k] cuts came from the first k targets. */
  datatype Cut = Cut(targets: seq<nat>, indices: seq<nat>, sorted: seq<nat>, positions: seq<nat>, taken: seq<nat>)

  /** The sorted sample is made of one member out of each stride, as many as the plan allows. */
  ghost predicate Sampled<T>(sk: SortKey<T>, items: seq<T>, keys: seq<Key64>, members: seq<nat>, plan: BucketPlan,
                             indices: seq<nat>, sorted: seq<nat>)
  {
    && |indices| == |sorted| == Min(|members|, plan.sampleSize)
    && (forall j :: 0 <= j < |indices| ==> indices[j] < |members| && InStride(indices[j], j, |members|, |indices|))
    && multiset(sorted) == multiset(Reordered(members, indices))
    && (forall i :: 0 <= i < |sorted| ==> sorted[i] in members && sorted[i] < |items|)
    && Ascending(SlotOrder(sk, items, keys), sorted)
    && (|members| <= plan.sampleSize ==> multiset(sorted) == multiset(members))
  }

  /** The run of elements equal to the one at `q` is [lo, hi). */
  ghost predicate IsRun(c: Comparator<nat>, sorted: seq<nat>, q: nat, lo: nat, hi: nat)
    requires q < |sorted|
  {
    && lo <= q < hi <= |sorted|
    && forall i :: 0 <= i < |sorted| ==> (lo <= i < hi <==> c(sorted[i], sorted[q]) == 0)
  }

  /** The cuts are those which the cumulative target sizes contribute, moved to ends of runs of equals. */
  ghost predicate CutsContributed<T>(sk: SortKey<T>, items: seq<T>, keys: seq<Key64>, sorted: seq<nat>,
                                     desired: seq<nat>, positions: seq<nat>, taken: seq<nat>)
  {
    var c := SlotOrder(sk, items, keys);
    && |taken| == |desired| + 1
    && (forall q :: q in desired ==> q < |sorted| && IsRun(c, sorted, q, RunStart(c, sorted)(q), RunEnd(c, sorted)(q)))
    && Contributed(positions, taken, desired, |sorted|, RunStart(c, sorted), RunEnd(c, sorted))
  }

  /** The layout cuts the sorted sample where the target sizes ask for it, and predicts what lies between. */
  ghost predicate CutFrom<T>(layout: BucketLayout<T>, sk: SortKey<T>, items: seq<T>, keys: seq<Key64>,
                             members: seq<nat>, plan: BucketPlan, cut: Cut, desired: seq<nat>)
  {
    && cut.sorted != [] && members != [] && Sampled(sk, items, keys, members, plan, cut.indices, cut.sorted)
    && Desired(cut.targets, |cut.sorted|, |members|, desired)
    && CutsContributed(sk, items, keys, cut.sorted, desired, cut.positions, cut.taken)
    && CutAt(layout, sk, Reordered(items, cut.sorted), cut.positions, |cut.positions|)
    && ScaledEdges(layout.expected, cut.positions, |cut.sorted|, |members|)
  }

  /** The layout is what the plan's target sizes for so many members lead to. */
  ghost predicate CutByPlan<T>(layout: BucketLayout<T>, sk: SortKey<T>, items: seq<T>, keys: seq<Key64>,
                               members: seq<nat>, plan: BucketPlan, cut: Cut)
    requires plan.WellFormed()
  {
    && AsPlanned(plan, |members|, cut.targets)
    && if |cut.targets| <= 1 then layout.expected == [|members|]
       else exists desired :: CutFrom(layout, sk, items, keys, members, plan, cut, desired)
  }

  /** One bucket for everything. */
  lemma SingleIsEstimated<T(!new)>(sk: SortKey<T>, items: seq<T>, members: seq<nat>, plan: BucketPlan,
                                   targets: seq<nat>)
    requires plan.WellFormed() && forall m :: m in members ==> m < |items|
    requires AsPlanned(plan, |members|, targets) && |targets| <= 1
    ensures Estimated(BucketLayout([], [], [], [], [|members|], |members|), sk, items, members, plan)
  {
    var layout: BucketLayout<T> := BucketLayout([], [], [], [], [|members|], |members|);
    FilterAll(InLayoutBucket(layout, sk, items, 0), members);
    SumOfOne(|members|);
    if |members| > 0 {
      SumOfOne(targets[0]);
      assert targets == [targets[0]];
    }
  }

  /** With everything sampled, bucket `b` holds what lies between its two edges. */
  lemma SegmentCounts<T(!new)>(
    layout: BucketLayout<T>, sk: SortKey<T>, items: seq<T>, members: seq<nat>, sorted: seq<nat>, positions: seq<nat>,
        b: nat)
    requires Consistent(sk) && NoDup(members) && multiset(sorted) == multiset(members)
    requires forall i :: 0 <= i < |sorted| ==> sorted[i] < |items|
    requires CleanCuts(sk, Reordered(items, sorted), positions)
    requires CutAt(layout, sk, Reordered(items, sorted), positions, |positions|) && |layout.expected| == |positions| + 1
    requires b <= |positions|
    ensures |Filter(InLayoutBucket(layout, sk, items, b), members)|
        == Edge(positions, |sorted|, b + 1) - Edge(positions, |sorted|, b)
  {
    var p, es := InLayoutBucket(layout, sk, items, b), Reordered(items, sorted);
    var lo, hi := Edge(positions, |sorted|, b), Edge(positions, |sorted|, b + 1);
    EdgesBounded(positions, |sorted|, b);
    forall i | 0 <= i < |sorted| ensures p(sorted[i]) <==> lo <= i < hi {
      var c := BucketAt(positions, |sorted|, i);
      SampleBucket(layout, sk, es, positions, i, c);
      EdgesAscend(positions, |sorted|, b, c, i);
    }
    FilterSegment(p, members, sorted, lo, hi);
  }

  /** If `p` holds on exactly one segment of a rearrangement of `s`, filtering `s` keeps that many. */
  lemma FilterSegment<X>(p: X -> bool, s: seq<X>, t: seq<X>, lo: nat, hi: nat)
    requires NoDup(s) && multiset(t) == multiset(s) && lo <= hi <= |t|
    requires forall i :: 0 <= i < |t| ==> (p(t[i]) <==> lo <= i < hi)
    ensures |Filter(p, s)| == hi - lo
  {
    NoDupTransfers(s, t);
    FilterNoDup(p, s);
    forall x ensures x in Filter(p, s) <==> x in t[lo..hi] {
      FilterMember(p, s, x);
      assert x in s <==> x in multiset(s);
      assert x in t <==> x in multiset(t);
      if x in s && p(x) {
        var i :| 0 <= i < |t| && t[i] == x;
        assert t[lo..hi][i - lo] == x;
      }
      if x in t[lo..hi] {
        var i :| 0 <= i < hi - lo && t[lo..hi][i] == x;
        assert t[lo + i] == x;
      }
    }
    SameElementsSameLength(Filter(p, s), t[lo..hi]);
  }

  /** The bucket whose edges enclose position `i`. */
  lemma BucketAt(positions: seq<nat>, s: nat, i: nat) returns (b: nat)
    requires SplitPositions(positions, s) && i < s
    ensures b <= |positions| && Edge(positions, s, b) <= i < Edge(positions, s, b + 1)
  {
    b := 0;
    while b < |positions| && positions[b] <= i
      invariant b <= |positions| && Edge(positions, s, b) <= i
    {
      b := b + 1;
    }
  }

  lemma EdgesBounded(positions: seq<nat>, s: nat, b: nat)
    requires SplitPositions(positions, s) && b <= |positions|
    ensures Edge(positions, s, b) <= Edge(positions, s, b + 1) <= s
  {
  }

  lemma EdgesAscend(positions: seq<nat>, s: nat, b: nat, c: nat, i: nat)
    requires SplitPositions(positions, s) && b <= |positions| && c <= |positions|
    requires Edge(positions, s, c) <= i < Edge(positions, s, c + 1)
    ensures b == c <==> Edge(positions, s, b) <= i < Edge(positions, s, b + 1)
  {
  }

  /** The sampled slots in ascending order: distinct members, all of them when they fit. */
  method SortedSample<T(!new)>(sk: SortKey<T>, items: seq<T>, keys: seq<Key64>, plan: BucketPlan, members: seq<nat>)
    returns (sorted: seq<nat>, ghost indices: seq<nat>)
    requires Consistent(sk) && KeysInSync(sk, items, keys) && plan.WellFormed()
    requires NoDup(members) && forall m :: m in members ==> m < |items|
    ensures Sampled(sk, items, keys, members, plan, indices, sorted)
  {
    var chosen := SampleIndices(|members|, plan.sampleSize, plan.draw);
    indices := chosen;
    var sample := Reordered(members, chosen);
    sorted := StableSort(SlotOrder(sk, items, keys), sample);
    SortsSample(sk, items, keys, sample, sorted);
    SampledMembers(members, sample, sorted);
    assert |members| <= plan.sampleSize ==> sample == members;
  }

  lemma SampledMembers(members: seq<nat>, sample: seq<nat>, sorted: seq<nat>)
    requires (forall j :: 0 <= j < |sample| ==> sample[j] in members) && multiset(sorted) == multiset(sample)
    ensures forall i :: 0 <= i < |sorted| ==> sorted[i] in members
  {
    forall i | 0 <= i < |sorted| ensures sorted[i] in members {
      assert sorted[i] in multiset(sorted);
      assert sorted[i] in sample;
    }
  }

  lemma SortsSample<T(!new)>(sk: SortKey<T>, items: seq<T>, keys: seq<Key64>, sample: seq<nat>, sorted: seq<nat>)
    requires Consistent(sk) && KeysInSync(sk, items, keys)
    requires sorted == StableSort(SlotOrder(sk, items, keys), sample)
    ensures |sorted| == |sample| && multiset(sorted) == multiset(sample)
    ensures Ascending(SlotOrder(sk, items, keys), sorted)
    ensures forall i :: 0 <= i < |sorted| ==> sorted[i] in sample
  {
    var c := SlotOrder(sk, items, keys);
    SlotOrderIsPreorder(sk, items, keys);
    StableSortStable(c, sample);
    StableSortPermutes(c, sample);
    forall i | 0 <= i < |sorted| ensures sorted[i] in sample {
      assert sorted[i] in multiset(sorted);
    }
  }

  /** Where the sorted sample is cut: at ends of runs of equals, nearest to the desired positions. */
  method CutPositions<T(!new)>(sk: SortKey<T>, items: seq<T>, keys: seq<Key64>, sorted: seq<nat>, desired: seq<nat>)
    returns (positions: seq<nat>, ghost taken: seq<nat>)
    requires Consistent(sk) && KeysInSync(sk, items, keys)
    requires forall i :: 0 <= i < |sorted| ==> sorted[i] < |items|
    requires Ascending(SlotOrder(sk, items, keys), sorted)
    requires forall q :: q in desired ==> q < |sorted|
    ensures |positions| <= |desired|
    ensures CutsContributed(sk, items, keys, sorted, desired, positions, taken)
    ensures CleanCuts(sk, Reordered(items, sorted), positions)
  {
    var c := SlotOrder(sk, items, keys);
    SlotOrderIsPreorder(sk, items, keys);
    var first, last := RunStart(c, sorted), RunEnd(c, sorted);
    forall q | q in desired ensures IsRun(c, sorted, q, first(q), last(q)) {
      RunStartBounds(c, sorted, q);
      RunEndBounds(c, sorted, q);
    }
    positions, taken := ChooseSplitPositions(desired, |sorted|, first, last);
    forall i | 0 <= i < |positions| ensures Separates(c, sorted, positions[i]) {
      RunEndSeparates(c, sorted, desired, positions[i]);
    }
    SlotCutsAreClean(sk, items, keys, sorted, positions);
  }

  lemma RunEndSeparates(c: Comparator<nat>, sorted: seq<nat>, desired: seq<nat>, p: nat)
    requires TotalPreorder(c) && Ascending(c, sorted)
    requires forall q :: q in desired ==> q < |sorted|
    requires IsRunEnd(p, desired, RunStart(c, sorted), RunEnd(c, sorted))
    ensures Separates(c, sorted, p)
  {
    var q :| q in desired && (p == RunStart(c, sorted)(q) || p == RunEnd(c, sorted)(q));
    RunStartBounds(c, sorted, q);
    RunEndBounds(c, sorted, q);
  }

  lemma SlotCutsAreClean<T(!new)>(sk: SortKey<T>, items: seq<T>, keys: seq<Key64>, sorted: seq<nat>,
                                  positions: seq<nat>)
    requires Consistent(sk) && KeysInSync(sk, items, keys) && SplitPositions(positions, |sorted|)
    requires forall i :: 0 <= i < |sorted| ==> sorted[i] < |items|
    requires Ascending(SlotOrder(sk, items, keys), sorted)
    requires forall i :: 0 <= i < |positions| ==> Separates(SlotOrder(sk, items, keys), sorted, positions[i])
    ensures CleanCuts(sk, Reordered(items, sorted), positions)
  {
    var c, es := SlotOrder(sk, items, keys), Reordered(items, sorted);
    forall i, j | 0 <= i < j < |es| ensures sk.WithinOrder()(es[i], es[j]) <= 0 {
      assert c(sorted[i], sorted[j]) <= 0;
    }
  }

  /** What is recorded about each splitter is true: it is the element at its position, and was sampled. */
  ghost predicate SplittersSampled<T>(layout: BucketLayout<T>, items: seq<T>, sorted: seq<nat>) {
    && |layout.splitterPositions| == |layout.splitters|
    && forall e :: 0 <= e < |layout.splitters| ==>
         && layout.splitterPositions[e] in sorted && layout.splitterPositions[e] < |items|
         && layout.splitters[e] == items[layout.splitterPositions[e]]
  }

  method BuildSplits<T(!new)>(sk: SortKey<T>, items: seq<T>, keys: seq<Key64>, sorted: seq<nat>, positions: seq<nat>,
                              n: nat)
    returns (layout: BucketLayout<T>)
    requires KeysInSync(sk, items, keys) && SplitPositions(positions, |sorted|)
    requires forall i :: 0 <= i < |sorted| ==> sorted[i] < |items|
    ensures CutAt(layout, sk, Reordered(items, sorted), positions, |positions|)
    ensures SplittersSampled(layout, items, sorted) && layout.estimatedFrom == n
  {
    layout := BucketLayout([], [], [], [], [], n);
    ghost var es := Reordered(items, sorted);
    for k := 0 to |positions|
      invariant CutAt(layout, sk, es, positions, k)
      invariant SplittersSampled(layout, items, sorted) && layout.estimatedFrom == n
    {
      var item, before := sorted[positions[k]], sorted[positions[k] - 1];
      var key, previousKey := if sk.key.Some? then keys[item] else 0, if sk.key.Some? then keys[before] else 0;
      AddSplitCuts(layout, sk, es, positions, k, item);
      layout := AddSplit(layout, sk, key, previousKey, items[item], item);
    }
  }

  /** From the elements at `members` to a layout that keeps every promise of `Estimated`. */
  method Estimate<T(!new)>(sk: SortKey<T>, items: seq<T>, keys: seq<Key64>, plan: BucketPlan, members: seq<nat>)
    returns (layout: BucketLayout<T>, ghost cut: Cut)
    requires Consistent(sk) && KeysInSync(sk, items, keys) && plan.WellFormed()
    requires NoDup(members) && forall m :: m in members ==> m < |items|
    ensures Estimated(layout, sk, items, members, plan)
    ensures CutByPlan(layout, sk, items, keys, members, plan, cut)
  {
    var n := |members|;
    var targets := TargetSizes(plan, n);
    if |targets| <= 1 {
      SingleIsEstimated(sk, items, members, plan, targets);
      return BucketLayout([], [], [], [], [n], n), Cut(targets, [], [], [], []);
    }
    layout, cut := CutSample(sk, items, keys, plan, members, targets);
  }

  /** Samples, sorts, and cuts where the target sizes ask for it. */
  method CutSample<T(!new)>(sk: SortKey<T>, items: seq<T>, keys: seq<Key64>, plan: BucketPlan, members: seq<nat>,
                            targets: seq<nat>)
    returns (layout: BucketLayout<T>, ghost cut: Cut)
    requires Consistent(sk) && KeysInSync(sk, items, keys) && plan.WellFormed()
    requires NoDup(members) && forall m :: m in members ==> m < |items|
    requires AsPlanned(plan, |members|, targets) && |targets| > 1
    ensures Estimated(layout, sk, items, members, plan)
    ensures CutByPlan(layout, sk, items, keys, members, plan, cut)
  {
    var n := |members|;
    var sorted; ghost var indices;
    sorted, indices := SortedSample(sk, items, keys, plan, members);
    var s := |sorted|;
    var desired := DesiredPositions(targets, s, n);
    var positions; ghost var taken;
    positions, taken := CutPositions(sk, items, keys, sorted, desired);
    var splits := BuildSplits(sk, items, keys, sorted, positions, n);
    var expected := ExpectedSizes(positions, s, n);
    ExpectedKeepsCut(splits, sk, Reordered(items, sorted), positions, expected);
    layout := splits.(expected := expected);
    cut := Cut(targets, indices, sorted, positions, taken);
    CutIsPlanned(layout, sk, items, keys, members, plan, cut, desired);
    CutIsEstimated(layout, sk, items, keys, members, plan, cut, desired);
  }

  lemma CutIsPlanned<T>(layout: BucketLayout<T>, sk: SortKey<T>, items: seq<T>, keys: seq<Key64>, members: seq<nat>,
                        plan: BucketPlan, cut: Cut, desired: seq<nat>)
    requires plan.WellFormed() && AsPlanned(plan, |members|, cut.targets) && |cut.targets| > 1
    requires CutFrom(layout, sk, items, keys, members, plan, cut, desired)
    ensures CutByPlan(layout, sk, items, keys, members, plan, cut)
  {
  }

  lemma CutIsEstimated<T(!new)>(layout: BucketLayout<T>, sk: SortKey<T>, items: seq<T>, keys: seq<Key64>,
                                members: seq<nat>, plan: BucketPlan, cut: Cut, desired: seq<nat>)
    requires Consistent(sk) && KeysInSync(sk, items, keys) && plan.WellFormed()
    requires NoDup(members) && AsPlanned(plan, |members|, cut.targets)
    requires CutFrom(layout, sk, items, keys, members, plan, cut, desired)
    requires CleanCuts(sk, Reordered(items, cut.sorted), cut.positions) && |cut.positions| <= |desired|
    requires SplittersSampled(layout, items, cut.sorted) && layout.estimatedFrom == |members|
    requires 0 <= 2 * (Sum(layout.expected) - |members|) + |layout.expected| <= 2 * |layout.expected|
    ensures Estimated(layout, sk, items, members, plan)
  {
    CutIsIncreasing(layout, sk, Reordered(items, cut.sorted), cut.positions);
    if |members| <= plan.sampleSize {
      CutIsExact(layout, sk, items, keys, members, plan, cut, desired);
      if AllDiffer(sk, items, members) {
        CutsAreTargets(sk, items, keys, plan, members, cut, desired, layout.expected);
      }
    }
  }

  lemma CutIsExact<T(!new)>(layout: BucketLayout<T>, sk: SortKey<T>, items: seq<T>, keys: seq<Key64>,
                            members: seq<nat>, plan: BucketPlan, cut: Cut, desired: seq<nat>)
    requires Consistent(sk) && KeysInSync(sk, items, keys) && NoDup(members) && |members| <= plan.sampleSize
    requires CutFrom(layout, sk, items, keys, members, plan, cut, desired)
    requires CleanCuts(sk, Reordered(items, cut.sorted), cut.positions)
    ensures forall b :: 0 <= b < |layout.expected| ==>
        && layout.expected[b] == Edge(cut.positions, |members|, b + 1) - Edge(cut.positions, |members|, b)
        && layout.expected[b] == |Filter(InLayoutBucket(layout, sk, items, b), members)|
  {
    UnscaledEdges(layout.expected, cut.positions, |members|);
    forall b | 0 <= b < |layout.expected|
      ensures layout.expected[b] == |Filter(InLayoutBucket(layout, sk, items, b), members)|
    {
      SegmentCounts(layout, sk, items, members, cut.sorted, cut.positions, b);
    }
  }

  /** Without ties, and with everything sampled, the predicted sizes are the plan's. */
  lemma CutsAreTargets<T(!new)>(sk: SortKey<T>, items: seq<T>, keys: seq<Key64>, plan: BucketPlan, members: seq<nat>,
                                cut: Cut, desired: seq<nat>, expected: seq<nat>)
    requires Consistent(sk) && KeysInSync(sk, items, keys) && NoDup(members) && AllDiffer(sk, items, members)
    requires 0 < |members| <= plan.sampleSize && Sampled(sk, items, keys, members, plan, cut.indices, cut.sorted)
    requires Sum(cut.targets) == |members| && AllPositive(cut.targets)
    requires Desired(cut.targets, |members|, |members|, desired)
    requires CutsContributed(sk, items, keys, cut.sorted, desired, cut.positions, cut.taken)
    requires |expected| == |cut.positions| + 1
    requires forall b :: 0 <= b < |expected| ==>
        expected[b] == Edge(cut.positions, |members|, b + 1) - Edge(cut.positions, |members|, b)
    ensures expected == cut.targets
  {
    var c, n := SlotOrder(sk, items, keys), |members|;
    forall q | q in desired ensures RunStart(c, cut.sorted)(q) == q && RunEnd(c, cut.sorted)(q) == q + 1 {
      LoneRun(sk, items, keys, members, cut.sorted, q, RunStart(c, cut.sorted)(q), RunEnd(c, cut.sorted)(q));
    }
    DesiredAscend(cut.targets, n, desired);
    TakenAsDesired(cut.positions, cut.taken, desired, n, RunStart(c, cut.sorted), RunEnd(c, cut.sorted), |desired|);
    assert cut.positions == desired;
    forall b | 0 <= b < |expected| ensures expected[b] == cut.targets[b] {
      EdgesAreTargets(cut.targets, n, desired, b);
    }
  }

  lemma LoneRun<T(!new)>(sk: SortKey<T>, items: seq<T>, keys: seq<Key64>, members: seq<nat>, sorted: seq<nat>, q: nat,
                         lo: nat, hi: nat)
    requires Consistent(sk) && KeysInSync(sk, items, keys) && NoDup(members) && AllDiffer(sk, items, members)
    requires multiset(sorted) == multiset(members) && (forall i :: 0 <= i < |sorted| ==> sorted[i] in members)
    requires forall i :: 0 <= i < |sorted| ==> sorted[i] < |items|
    requires q < |sorted| && IsRun(SlotOrder(sk, items, keys), sorted, q, lo, hi)
    ensures lo == q && hi == q + 1
  {
    SlotOrderIsPreorder(sk, items, keys);
    NoDupTransfers(members, sorted);
    forall i | 0 <= i < |sorted| && i != q ensures SlotOrder(sk, items, keys)(sorted[i], sorted[q]) != 0 {
      assert sorted[i] in members && sorted[q] in members && sorted[i] != sorted[q];
    }
    var before, after := Max(q, 1) - 1, Min(q + 1, |sorted| - 1);
    assert before != q ==> SlotOrder(sk, items, keys)(sorted[before], sorted[q]) != 0;
    assert after != q ==> SlotOrder(sk, items, keys)(sorted[after], sorted[q]) != 0;
  }

  lemma ExpectedKeepsCut<T>(splits: BucketLayout<T>, sk: SortKey<T>, es: seq<T>, positions: seq<nat>,
                            expected: seq<nat>)
    requires CutAt(splits, sk, es, positions, |positions|)
    ensures CutAt(splits.(expected := expected), sk, es, positions, |positions|)
  {
    if sk.key.Some? {
      forall i | 0 <= i < |positions| ensures KeyedSplit(splits.(expected := expected), sk, es, positions[i], i) {
        assert KeyedSplit(splits, sk, es, positions[i], i);
      }
    }
  }
}
