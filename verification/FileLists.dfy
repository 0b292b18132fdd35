/** godot_sort.h, FileList: the list object, its sort with the sorted-prefix shortcut, and reverse. */
module FileLists {
  import opened Sequences
  import opened Orders
  import opened RotationMerges
  import opened LinkedNodes
  import opened ListSorts
  import opened GodotLists

  /** How far the list ascends from its head. */
  method IsSorted<V>(less: (V, V) -> bool, head: Node<V>, tail: Node<V>, ghost c: Comparator<Node<V>>,
                     ghost ns: seq<Node<V>>)
    returns (sorted: bool, until: Node<V>, ghost u: nat)
    requires ns != [] && Strung(ns) && head == ns[0] && tail == ns[|ns| - 1] && Judges(c, less, ns)
    ensures u == RunEnd(c, ns, 0) && until == ns[u] && (sorted <==> u == |ns| - 1)
    ensures u < |ns| - 1 ==> until.next == ns[u + 1]
  {
    StrungMeans(ns);
    assert Decides(c, less, ns) by {
      assert Opened(0);
    }
    until, u := head, 0;
    while until != tail
      invariant u < |ns| && until == ns[u] && RunEnd(c, ns, 0) == RunEnd(c, ns, u)
      decreases |ns| - u
    {
      assert LinkAt(ns, u + 1);
      if less(until.next.value, until.value) {
        return false, until, u;
      }
      until, u := until.next, u + 1;
    }
    sorted := true;
  }

  /** `goal` is what the whole sort makes of `ns`. Opened only on request. */
  ghost predicate SortsAll<V>(c: Comparator<Node<V>>, ns: seq<Node<V>>, goal: seq<Node<V>>) {
    forall v {:trigger Opened(v)} :: Opened(v) ==> goal == PrefixSorted(c, ns)
  }

  lemma AlreadySorted<V>(c: Comparator<Node<V>>, ns: seq<Node<V>>, goal: seq<Node<V>>)
    requires SortsAll(c, ns, goal) && ns != [] && RunEnd(c, ns, 0) == |ns| - 1
    ensures goal == ns
  {
    assert Opened(0);
  }

  /** The sorted prefix and the rest, and everything about them that does not depend on links. */
  lemma PrefixPlan<V>(c: Comparator<Node<V>>, ns: seq<Node<V>>, goal: seq<Node<V>>, u: nat, l: seq<Node<V>>,
                      r: seq<Node<V>>) returns (r': seq<Node<V>>)
    requires NoDup(ns) && ns != [] && u == RunEnd(c, ns, 0) < |ns| - 1 && l == ns[..u + 1] && r == ns[u + 1..]
    requires SortsAll(c, ns, goal)
    ensures Sorts(c, r, r') && Remains(c, goal, [], l, 0, r', 0)
    ensures l != [] && r != [] && NoDup(r) && Apart(l, r) && Apart(l, r') && Among(l, ns) && Among(r, ns)
    ensures Among(r', ns)
    ensures InPool(l, ns) && InPool(r, ns) && InPool(r', ns)
  {
    assert Opened(0);
    r' := ListSorted(c, r);
    assert ns == l + r;
    PrefixSortedUnfolds(c, ns, l, r);
    SortedSameNodes(c, r);
    AllRemains(c, l, r');
    HalvesApart(ns, l, r);
    RestApart(l, r, r');
    AmongParts(l, r, l, r');
  }

  lemma RestApart<V>(l: seq<Node<V>>, r: seq<Node<V>>, r': seq<Node<V>>)
    requires Apart(l, r) && SameNodes(r', r)
    ensures Apart(l, r')
  {
    forall i, j | 0 <= i < |l| && 0 <= j < |r'| ensures l[i] != r'[j] {
      assert r'[j] in r;
    }
  }

  method SplitAt<V>(until: Node<V>, head2: Node<V>, ghost c: Comparator<Node<V>>, ghost less: (V, V) -> bool,
                    ghost ns: seq<Node<V>>, ghost u: nat,
                    ghost l: seq<Node<V>>, ghost r: seq<Node<V>>)
    requires u < |ns| - 1 && Strung(ns) && Judges(c, less, ns) && until == ns[u] && head2 == ns[u + 1]
    requires l == ns[..u + 1] && r == ns[u + 1..]
    modifies ns`next, ns`prev
    ensures Strung(l) && Strung(r) && Judges(c, less, ns)
  {
    Split(until, head2, ns, u + 1);
  }

  method SortRest<V>(less: (V, V) -> bool, head1: Node<V>, tail1: Node<V>, head2: Node<V>, tail2: Node<V>,
                     ghost c: Comparator<Node<V>>,
                     ghost pool: seq<Node<V>>, ghost l: seq<Node<V>>, ghost r: seq<Node<V>>, ghost r': seq<Node<V>>,
                     ghost goal: seq<Node<V>>)
    returns (head: Node<V>, tail: Node<V>)
    requires l != [] && r != [] && Strung(l) && Strung(r) && NoDup(r) && Apart(l, r) && Apart(l, r')
    requires Among(r', pool) && Among(r, pool) && Among(l, pool)
    requires head1 == l[0] && tail1 == l[|l| - 1] && head2 == r[0] && tail2 == r[|r| - 1]
    requires Judges(c, less, pool) && InPool(l, pool) && InPool(r, pool) && InPool(r', pool) && Sorts(c, r, r')
    requires Remains(c, goal, [], l, 0, r', 0)
    modifies pool`next, pool`prev
    ensures Strung(goal) && goal != [] && head == goal[0] && tail == goal[|goal| - 1]
  {
    var h2, t2 := MergeSortChain(less, head2, tail2, c, pool, r, r');
    head, tail := MergeChains(less, head1, tail1, h2, t2, c, pool, l, r', goal);
  }

  /** Sorts a whole list: keeps the ascending prefix, sorts the rest, merges. */
  method SortChain<V>(less: (V, V) -> bool, head0: Node<V>, tail0: Node<V>, ghost c: Comparator<Node<V>>,
                      ghost ns: seq<Node<V>>, ghost goal: seq<Node<V>>)
    returns (head: Node<V>, tail: Node<V>)
    requires ns != [] && NoDup(ns) && Strung(ns) && head0 == ns[0] && tail0 == ns[|ns| - 1] && Judges(c, less, ns)
    requires SortsAll(c, ns, goal)
    modifies ns`next, ns`prev
    ensures Strung(goal) && goal != [] && head == goal[0] && tail == goal[|goal| - 1]
  {
    head, tail := head0, tail0;
    var sorted, until; ghost var u;
    sorted, until, u := IsSorted(less, head, tail, c, ns);
    if sorted {
      AlreadySorted(c, ns, goal);
      return;
    }
    ghost var l, r := ns[..u + 1], ns[u + 1..];
    ghost var r' := PrefixPlan(c, ns, goal, u, l, r);
    var head2 := until.next;
    SplitAt(until, head2, c, less, ns, u, l, r);
    head, tail := SortRest(less, head, until, head2, tail, c, ns, l, r, r', goal);
  }

  // --- the order of the nodes ---------------------------------------------------------------------

  /** Positions of the list, compared by the values there. Past the end the last value counts. */
  function ByValue<V>(less: (V, V) -> bool, vs: seq<V>): Comparator<nat>
    requires vs != []
  {
    (a: nat, b: nat) => Sign(less)(vs[Min(a, |vs| - 1)], vs[Min(b, |vs| - 1)])
  }

  /** The old positions in their new order. */
  function NewOrder<V>(less: (V, V) -> bool, vs: seq<V>): seq<nat> {
    if vs == [] then [] else PrefixSorted(ByValue(less, vs), Iota(0, |vs|))
  }

  lemma ByValueIsPreorder<V(!new)>(less: (V, V) -> bool, vs: seq<V>)
    requires StrictWeakOrder(less) && vs != []
    ensures TotalPreorder(ByValue(less, vs))
  {
    SignIsPreorder(less);
    var c, d := ByValue(less, vs), Sign(less);
    forall x: nat, y: nat ensures c(x, y) < 0 <==> c(y, x) > 0 {
      Mirrors(d, vs[Min(x, |vs| - 1)], vs[Min(y, |vs| - 1)]);
    }
    forall x: nat, y: nat, z: nat ensures Chains(c, x, y, z) {
      assert Chains(d, vs[Min(x, |vs| - 1)], vs[Min(y, |vs| - 1)], vs[Min(z, |vs| - 1)]);
    }
  }

  lemma NewOrderPermutes<V>(less: (V, V) -> bool, vs: seq<V>)
    ensures IsPermutation(NewOrder(less, vs), |vs|)
  {
    if vs != [] {
      PrefixSortedPermutes(ByValue(less, vs), Iota(0, |vs|));
      IotaElements(|vs|);
      PermutationTransfers(Iota(0, |vs|), NewOrder(less, vs), |vs|);
    }
  }

  function At<X>(s: seq<X>): nat -> X
    requires s != []
  {
    (i: nat) => s[Min(i, |s| - 1)]
  }

  /** Sorting positions by the values there sorts the values. */
  lemma PositionsSortValues<V>(less: (V, V) -> bool, vs: seq<V>, c: Comparator<nat>, n: nat)
    requires n == |vs| > 0 && c == ByValue(less, vs) && IsPermutation(PrefixSorted(c, Iota(0, n)), n)
    ensures Reordered(vs, PrefixSorted(c, Iota(0, n))) == PrefixSorted(Sign(less), vs)
  {
    var f := At(vs);
    assert Carries(f, c, Sign(less), Iota(0, n));
    PrefixSortedMaps(f, c, Sign(less), Iota(0, n));
    assert Mapped(f, Iota(0, n)) == vs;
    MappedIsReordered(vs, PrefixSorted(c, Iota(0, n)));
  }

  lemma MappedIsReordered<X>(s: seq<X>, order: seq<nat>)
    requires s != [] && forall i :: 0 <= i < |order| ==> order[i] < |s|
    ensures Mapped(At(s), order) == Reordered(s, order)
  {
  }

  /** For a strict weak order the values end up stably sorted, and nodes with equal values keep their order. */
  lemma NewOrderIsStable<V(!new)>(less: (V, V) -> bool, vs: seq<V>)
    requires StrictWeakOrder(less)
    ensures IsPermutation(NewOrder(less, vs), |vs|)
    ensures Reordered(vs, NewOrder(less, vs)) == StableSort(Sign(less), vs)
    ensures vs != [] ==> StablySorted(ByValue(less, vs), Iota(0, |vs|), NewOrder(less, vs))
  {
    NewOrderPermutes(less, vs);
    if vs != [] {
      var c, n := ByValue(less, vs), |vs|;
      ByValueIsPreorder(less, vs);
      PrefixSortedStable(c, Iota(0, n));
      PositionsSortValues(less, vs, c, n);
      SignIsPreorder(less);
      PrefixSortedIsStableSort(Sign(less), vs);
    }
  }

  /** Sorting nodes by their values is sorting positions by the values there. */
  lemma NodesFollowPositions<V>(less: (V, V) -> bool, ns: seq<Node<V>>, vs: seq<V>, c: Comparator<Node<V>>)
    requires |ns| == |vs| > 0
    requires forall i, j :: 0 <= i < |ns| && 0 <= j < |ns| ==> c(ns[i], ns[j]) == Sign(less)(vs[i], vs[j])
    ensures IsPermutation(NewOrder(less, vs), |ns|) && PrefixSorted(c, ns) == Reordered(ns, NewOrder(less, vs))
  {
    var d, n, f := ByValue(less, vs), |ns|, At(ns);
    NewOrderPermutes(less, vs);
    assert Carries(f, d, c, Iota(0, n));
    PrefixSortedMaps(f, d, c, Iota(0, n));
    assert Mapped(f, Iota(0, n)) == ns;
    MappedIsReordered(ns, NewOrder(less, vs));
  }

  // --- the list --------------------------------------------------------------------------------------

  ghost function ValueMap<V>(ns: seq<Node<V>>): (m: map<Node<V>, V>)
    reads ns`value
    ensures forall i :: 0 <= i < |ns| ==> ns[i] in m && m[ns[i]] == ns[i].value
  {
    map x | x in ns :: x.value
  }

  ghost function NodeOrder<V>(less: (V, V) -> bool, m: map<Node<V>, V>): Comparator<Node<V>> {
    (a: Node<V>, b: Node<V>) => if a in m && b in m then Sign(less)(m[a], m[b]) else 0
  }

  /** The sort of a list of two or more nodes. */
  method SortNodes<V>(less: (V, V) -> bool, head0: Node<V>, tail0: Node<V>, ghost ns: seq<Node<V>>, ghost vs: seq<V>)
    returns (head: Node<V>, tail: Node<V>, ghost goal: seq<Node<V>>)
    requires Chain(ns) && head0 == ns[0] && tail0 == ns[|ns| - 1]
    requires Holds(ns, vs)
    modifies ns`next, ns`prev
    ensures Strung(goal) && goal != [] && head == goal[0] && tail == goal[|goal| - 1]
    ensures IsPermutation(NewOrder(less, vs), |ns|) && goal == Reordered(ns, NewOrder(less, vs))
  {
    ghost var c := NodeOrder(less, ValueMap(ns));
    goal := PrefixSorted(c, ns);
    NodesFollowPositions(less, ns, vs, c);
    NodeOrderJudges(less, c, ns);
    head, tail := SortChain(less, head0, tail0, c, ns, goal);
  }

  lemma NodeOrderJudges<V>(less: (V, V) -> bool, c: Comparator<Node<V>>, ns: seq<Node<V>>)
    requires c == NodeOrder(less, ValueMap(ns))
    ensures Judges(c, less, ns)
  {
    var m := ValueMap(ns);
    forall i, j | 0 <= i < |ns| && 0 <= j < |ns| ensures c(ns[i], ns[j]) <= 0 <==> !less(ns[j].value, ns[i].value) {
      assert m[ns[i]] == ns[i].value && m[ns[j]] == ns[j].value;
      assert c(ns[i], ns[j]) == Sign(less)(m[ns[i]], m[ns[j]]);
    }
    assert Decides(c, less, ns);
  }

  class FileList<V(!new)> {
    var first: Node?<V>
    var last: Node?<V>
    var size: nat
    ghost var nodes: seq<Node<V>>

    /** Next and prev are mutually inverse, first and last are the ends, and the size is right. */
    ghost predicate Valid()
      reads this, nodes
    {
      && size == |nodes|
      && if size == 0 then first == last == null else Chain(nodes) && first == nodes[0] && last == nodes[size - 1]
    }

    ghost function Values(): (vs: seq<V>)
      reads this, nodes
      ensures |vs| == |nodes| && forall i :: 0 <= i < |vs| ==> vs[i] == nodes[i].value
    {
      seq(|nodes|, i requires 0 <= i < |nodes| reads this, nodes => nodes[i].value)
    }

    constructor ()
      ensures Valid() && nodes == []
    {
      first, last, size, nodes := null, null, 0, [];
    }

    method PushBack(v: V)
      requires Valid()
      modifies this, nodes`next
      ensures Valid() && nodes != [] && fresh(nodes[|nodes| - 1]) && nodes[..|nodes| - 1] == old(nodes)
      ensures Values() == old(Values()) + [v]
    {
      var e := new Node(v);
      e.prev := last;
      if last != null {
        last.next := e;
      } else {
        first := e;
      }
      last := e;
      size := size + 1;
      ghost var ns := nodes;
      nodes := nodes + [e];
      forall k | 0 < k < |nodes| ensures LinkAt(nodes, k) {
        assert k < |ns| ==> old(LinkAt(ns, k));
      }
    }

    /** Relinks the nodes in their new order. */
    method Relink(less: (V, V) -> bool, ghost vs: seq<V>)
      requires Valid() && size >= 2 && Holds(nodes, vs)
      modifies this, nodes`next, nodes`prev
      ensures Valid() && IsPermutation(NewOrder(less, vs), |old(nodes)|)
      ensures nodes == Reordered(old(nodes), NewOrder(less, vs))
    {
      var head, tail;
      ghost var goal;
      head, tail, goal := SortNodes(less, first, last, nodes, vs);
      SetEnds(head, tail, goal);
    }

    /** The nodes are linked in their new order; the ends follow. */
    method SetEnds(head: Node<V>, tail: Node<V>, ghost goal: seq<Node<V>>)
      requires Strung(goal) && size == |goal| > 0 && head == goal[0] && tail == goal[size - 1]
      modifies this`first, this`last, this`nodes
      ensures Valid() && nodes == goal
    {
      StrungMeans(goal);
      first, last, nodes := head, tail, goal;
      assert forall k :: 0 < k < |goal| ==> old(LinkAt(goal, k));
    }

    /** sort_custom: the same nodes, relinked; values stay in their nodes. */
    method SortCustom(less: (V, V) -> bool)
      requires Valid()
      modifies this, nodes`next, nodes`prev
      ensures Valid() && IsPermutation(NewOrder(less, old(Values())), |old(nodes)|)
      ensures nodes == Reordered(old(nodes), NewOrder(less, old(Values())))
      ensures StrictWeakOrder(less) ==> Values() == StableSort(Sign(less), old(Values()))
    {
      ghost var ns, vs := nodes, Values();
      NewOrderPermutes(less, vs);
      if size < 2 {
        OneNode(less, ns, vs);
      } else {
        Relink(less, vs);
      }
      SortedValues(less, ns, vs, nodes, Values());
    }

    /** reverse: the values change places, the nodes keep theirs. */
    method ReverseValues()
      requires Valid()
      modifies nodes`value
      ensures Valid() && Values() == Reverse(old(Values()))
    {
      if size > 0 {
        SwapValues(first, last, size, nodes, Values());
      }
    }
  }

  /** The loop of reverse: swaps the values at both ends, moving inwards. */
  method SwapValues<V>(first: Node<V>, last: Node<V>, size: nat, ghost ns: seq<Node<V>>, ghost vs: seq<V>)
    requires size == |ns| && Chain(ns) && first == ns[0] && last == ns[size - 1] && Holds(ns, vs)
    modifies ns`value
    ensures Chain(ns) && Holds(ns, Reverse(vs))
  {
    var s := size / 2;
    var f: Node?<V>, b: Node?<V> := first, last;
    SwapStarts(ns, vs);
    for i := 0 to s
      invariant Strung(ns) && Swapping(ns, vs, i) && f == ns[i] && b == ns[size - 1 - i]
    {
      SwapEnds(f, b, ns, vs, i);
      f, b := f.next, b.prev;
    }
    StrungMeans(ns);
    SwapEndsReversed(ns, vs);
  }

  method SwapEnds<V>(f: Node<V>, b: Node<V>, ghost ns: seq<Node<V>>, ghost vs: seq<V>, ghost i: nat)
    requires Strung(ns) && i < |ns| / 2 && f == ns[i] && b == ns[|ns| - 1 - i] && Swapping(ns, vs, i)
    modifies f`value, b`value
    ensures Strung(ns) && Swapping(ns, vs, i + 1) && f.next == ns[i + 1] && b.prev == ns[|ns| - 2 - i]
  {
    StrungMeans(ns);
    ghost var j, now := |ns| - 1 - i, HalfSwapped(vs, i);
    assert Holds(ns, now) by {
      assert Opened(0);
    }
    SwapStep(vs, i);
    f.value, b.value := b.value, f.value;
    assert old(LinkAt(ns, i + 1)) && old(LinkAt(ns, j));
    SwappedHolds(ns, now, now[i := now[j]][j := now[i]], i, j);
    assert Linked(ns) by {
      forall k | 0 < k < |ns| ensures LinkAt(ns, k) {
        assert old(LinkAt(ns, k));
      }
    }
  }

  /** Two nodes hold each other's values, all others their own. */
  lemma SwappedHolds<V>(ns: seq<Node<V>>, vs: seq<V>, vs': seq<V>, i: nat, j: nat)
    requires i < j < |ns| == |vs| && vs' == vs[i := vs[j]][j := vs[i]]
    requires forall k :: 0 <= k < |ns| ==> ns[k].value == if k == i then vs[j] else if k == j then vs[i] else vs[k]
    ensures Holds(ns, vs')
  {
  }

  /** Reverse is under way. Opened only on request. */
  ghost predicate Swapping<V>(ns: seq<Node<V>>, vs: seq<V>, i: nat)
    reads ns
  {
    forall u {:trigger Opened(u)} :: Opened(u) ==> |ns| == |vs| && Holds(ns, HalfSwapped(vs, i))
  }

  lemma SwapStarts<V>(ns: seq<Node<V>>, vs: seq<V>)
    requires Chain(ns) && Holds(ns, vs)
    ensures Strung(ns) && Swapping(ns, vs, 0)
  {
    assert HalfSwapped(vs, 0) == vs;
  }

  lemma SwapEndsReversed<V>(ns: seq<Node<V>>, vs: seq<V>)
    requires Swapping(ns, vs, |ns| / 2)
    ensures Holds(ns, Reverse(vs))
  {
    assert Opened(0);
    SwappedIsReverse(vs);
  }

  /** Node by node, the values are `vs`. */
  ghost predicate Holds<V>(ns: seq<Node<V>>, vs: seq<V>)
    reads ns
  {
    |vs| == |ns| && forall i :: 0 <= i < |ns| ==> ns[i].value == vs[i]
  }

  /** The outer `i` values at both ends have changed places. */
  ghost function HalfSwapped<V>(vs: seq<V>, i: nat): (r: seq<V>)
    ensures |r| == |vs|
  {
    seq(|vs|, k requires 0 <= k < |vs| => if k < i || k >= |vs| - i then vs[|vs| - 1 - k] else vs[k])
  }

  lemma SwapStep<V>(vs: seq<V>, i: nat)
    requires i < |vs| / 2
    ensures var now, j := HalfSwapped(vs, i), |vs| - 1 - i;
      HalfSwapped(vs, i + 1) == now[i := now[j]][j := now[i]]
  {
  }

  lemma SwappedIsReverse<V>(vs: seq<V>)
    ensures HalfSwapped(vs, |vs| / 2) == Reverse(vs)
  {
  }

  /** Values travel with their nodes. */
  lemma SortedValues<V(!new)>(less: (V, V) -> bool, ns: seq<Node<V>>, vs: seq<V>, ns': seq<Node<V>>, vs': seq<V>)
    requires Holds(ns, vs) && IsPermutation(NewOrder(less, vs), |ns|) && ns' == Reordered(ns, NewOrder(less, vs))
    requires Holds(ns', vs')
    ensures StrictWeakOrder(less) ==> vs' == StableSort(Sign(less), vs)
  {
    assert vs' == Reordered(vs, NewOrder(less, vs));
    if StrictWeakOrder(less) {
      NewOrderIsStable(less, vs);
    }
  }

  lemma OneNode<V>(less: (V, V) -> bool, ns: seq<Node<V>>, vs: seq<V>)
    requires |ns| == |vs| < 2 && IsPermutation(NewOrder(less, vs), |vs|)
    ensures Reordered(ns, NewOrder(less, vs)) == ns
  {
  }
}
