/** godot_sort.h: merge sort that relinks the nodes of a doubly linked list, and reverse. */
module GodotLists {
  import opened Sequences
  import opened Orders
  import opened LinkedNodes
  import opened ListSorts

  // --- merge ------------------------------------------------------------------------------------

  /** From node `i` on, the list is as it was; nothing is said about prev of node `i` itself. */
  ghost predicate Untouched<V>(ns: seq<Node<V>>, i: nat)
    reads ns
  {
    && i <= |ns| && NoDup(ns)
    && (forall k :: i < k < |ns| ==> LinkAt(ns, k))
    && (i < |ns| ==> ns[|ns| - 1].next == null)
  }

  ghost predicate ApartFrom<V>(m: seq<Node<V>>, ns: seq<Node<V>>, i: nat) {
    forall a, k :: 0 <= a < |m| && i <= k < |ns| ==> m[a] != ns[k]
  }

  /** `m` is merged, the rest of both lists is waiting. Opened only on request. */
  ghost predicate Merging<V>(m: seq<Node<V>>, n1: seq<Node<V>>, i: nat, n2: seq<Node<V>>, j: nat)
    reads m, n1, n2
  {
    forall u {:trigger Opened(u)} :: Opened(u) ==> Waiting(m, n1, i, n2, j)
  }

  ghost predicate Waiting<V>(m: seq<Node<V>>, n1: seq<Node<V>>, i: nat, n2: seq<Node<V>>, j: nat)
    reads m, n1, n2
  {
    && m != [] && NoDup(m) && Linked(m) && m[0].prev == null
    && Untouched(n1, i) && Untouched(n2, j)
    && ApartFrom(m, n1, i) && ApartFrom(m, n2, j) && Apart(n1, n2) && Apart(n2, n1)
  }

  /** Connects the next node of one list to the merged part. */
  method Take<V>(curr: Node<V>, h: Node<V>, ghost m: seq<Node<V>>, ghost n1: seq<Node<V>>, ghost i: nat,
                 ghost n2: seq<Node<V>>, ghost j: nat)
    requires m != [] && (Merging(m, n1, i, n2, j) || Merging(m, n2, j, n1, i)) && i < |n1| && h == n1[i]
    requires curr == m[|m| - 1]
    modifies curr`next, h`prev
    ensures Merging(m + [h], n1, i + 1, n2, j) && Merging(m + [h], n2, j, n1, i + 1) && curr.next == h
    ensures h.next == if i + 1 < |n1| then n1[i + 1] else null
  {
    assert Opened(0);
    curr.next := h;
    h.prev := curr;
    ghost var m' := m + [h];
    assert i + 1 < |n1| ==> old(LinkAt(n1, i + 1));
    assert Linked(m') by {
      forall k | 0 < k < |m'| ensures LinkAt(m', k) {
        if k < |m| {
          assert m[k - 1] != curr && m[k] != h && old(LinkAt(m, k));
        }
      }
    }
    assert Untouched(n1, i + 1) by {
      forall k | i + 1 < k < |n1| ensures LinkAt(n1, k) {
        assert n1[k - 1] != curr && n1[k] != h && old(LinkAt(n1, k));
      }
    }
    assert Untouched(n2, j) by {
      forall k | j < k < |n2| ensures LinkAt(n2, k) {
        assert n2[k - 1] != curr && n2[k] != h && old(LinkAt(n2, k));
      }
    }
  }

  /** Connects all that is left of one list. */
  method Finish<V>(curr: Node<V>, h: Node<V>, ghost m: seq<Node<V>>, ghost n1: seq<Node<V>>, ghost i: nat,
                   ghost n2: seq<Node<V>>)
    requires m != [] && (Merging(m, n1, i, n2, |n2|) || Merging(m, n2, |n2|, n1, i)) && i < |n1| && h == n1[i]
    requires curr == m[|m| - 1]
    modifies curr`next, h`prev
    ensures Strung(m + n1[i..])
  {
    assert Opened(0);
    curr.next := h;
    h.prev := curr;
    ghost var r := m + n1[i..];
    assert forall k :: 0 <= k < |m| ==> r[k] == m[k];
    assert forall k :: |m| <= k < |r| ==> r[k] == n1[k - |m| + i];
    forall k | 0 < k < |r| ensures LinkAt(r, k) {
      if k < |m| {
        assert m[k - 1] != curr && m[k] != h && old(LinkAt(m, k));
      } else if k > |m| {
        var x := k - |m| + i;
        assert n1[x - 1] != curr && n1[x] != h && old(LinkAt(n1, x));
      }
    }
  }

  /** Merging the rest takes the left head unless the right one is less. */
  lemma MergeHeads<V>(c: Comparator<Node<V>>, n1: seq<Node<V>>, i: nat, n2: seq<Node<V>>, j: nat)
    requires i <= |n1| && j <= |n2|
    ensures i == |n1| ==> Merge(c, n1[i..], n2[j..]) == n2[j..]
    ensures j == |n2| ==> Merge(c, n1[i..], n2[j..]) == n1[i..]
    ensures i < |n1| && j < |n2| ==>
      Merge(c, n1[i..], n2[j..]) == if c(n1[i], n2[j]) <= 0 then [n1[i]] + Merge(c, n1[i + 1..], n2[j..])
          else [n2[j]] + Merge(c, n1[i..], n2[j + 1..])
  {
    if i < |n1| && j < |n2| {
      assert n1[i..][1..] == n1[i + 1..] && n2[j..][1..] == n2[j + 1..];
    }
  }

  /** What is merged and the merge of what is left make up `goal`. Opened only on request. */
  ghost predicate Remains<V>(c: Comparator<Node<V>>, goal: seq<Node<V>>, m: seq<Node<V>>, n1: seq<Node<V>>, i: nat,
                             n2: seq<Node<V>>, j: nat)
    requires i <= |n1| && j <= |n2|
  {
    forall u {:trigger Opened(u)} :: Opened(u) ==> goal == m + Merge(c, n1[i..], n2[j..])
  }

  /** One list used up: the other one completes the merge. */
  lemma OneListLeft<V>(c: Comparator<Node<V>>, goal: seq<Node<V>>, m: seq<Node<V>>, n1: seq<Node<V>>, i: nat,
                       n2: seq<Node<V>>, j: nat)
    requires i <= |n1| && j <= |n2| && Remains(c, goal, m, n1, i, n2, j)
    ensures i == |n1| ==> goal == m + n2[j..]
    ensures j == |n2| ==> goal == m + n1[i..]
  {
    assert Opened(0);
    MergeHeads(c, n1, i, n2, j);
  }

  /** At the start everything remains. */
  lemma AllRemains<V>(c: Comparator<Node<V>>, n1: seq<Node<V>>, n2: seq<Node<V>>)
    ensures Remains(c, Merge(c, n1, n2), [], n1, 0, n2, 0)
  {
    assert n1[0..] == n1 && n2[0..] == n2;
  }

  lemma Regroup<X>(m: seq<X>, x: X, r: seq<X>)
    ensures m + ([x] + r) == (m + [x]) + r
  {
  }

  /** What is merged grows by the head that is taken. */
  lemma TakesLeft<V>(c: Comparator<Node<V>>, goal: seq<Node<V>>, m: seq<Node<V>>, n1: seq<Node<V>>, i: nat,
                     n2: seq<Node<V>>, j: nat)
    requires i < |n1| && j < |n2| && Remains(c, goal, m, n1, i, n2, j) && c(n1[i], n2[j]) <= 0
    ensures Remains(c, goal, m + [n1[i]], n1, i + 1, n2, j)
  {
    assert Opened(0);
    MergeHeads(c, n1, i, n2, j);
    Regroup(m, n1[i], Merge(c, n1[i + 1..], n2[j..]));
  }

  lemma TakesRight<V>(c: Comparator<Node<V>>, goal: seq<Node<V>>, m: seq<Node<V>>, n1: seq<Node<V>>, i: nat,
                      n2: seq<Node<V>>, j: nat)
    requires i < |n1| && j < |n2| && Remains(c, goal, m, n1, i, n2, j) && c(n1[i], n2[j]) > 0
    ensures Remains(c, goal, m + [n2[j]], n1, i, n2, j + 1)
  {
    assert Opened(0);
    MergeHeads(c, n1, i, n2, j);
    Regroup(m, n2[j], Merge(c, n1[i..], n2[j + 1..]));
  }

  ghost predicate Among<V>(a: seq<Node<V>>, ns: seq<Node<V>>) {
    forall i :: 0 <= i < |a| ==> a[i] in ns
  }

  /** The same, opened only on request. */
  ghost predicate InPool<V>(a: seq<Node<V>>, pool: seq<Node<V>>) {
    forall u {:trigger Opened(u)} :: Opened(u) ==> Among(a, pool)
  }

  ghost function NodeAt<V>(ns: seq<Node<V>>, i: nat): Node?<V> {
    if i < |ns| then ns[i] else null
  }

  lemma MergingStarts<V>(n1: seq<Node<V>>, n2: seq<Node<V>>)
    requires Chain(n1) && Chain(n2) && Apart(n1, n2)
    ensures Merging([n1[0]], n1, 1, n2, 0) && Merging([n2[0]], n1, 0, n2, 1)
    ensures n1[0].next == NodeAt(n1, 1) && n2[0].next == NodeAt(n2, 1)
  {
    assert forall a, b :: 0 <= a < |n2| && 0 <= b < |n1| ==> n2[a] != n1[b];
    assert (|n1| > 1 ==> LinkAt(n1, 1)) && (|n2| > 1 ==> LinkAt(n2, 1));
  }

  lemma JudgesPair<V>(c: Comparator<Node<V>>, less: (V, V) -> bool, pool: seq<Node<V>>, n1: seq<Node<V>>,
                      n2: seq<Node<V>>, a: Node<V>, b: Node<V>)
    requires Judges(c, less, pool) && InPool(n1, pool) && InPool(n2, pool) && a in n1 && b in n2
    ensures c(a, b) <= 0 <==> !less(b.value, a.value)
  {
    assert Opened(0);
  }

  /** Connects the smaller head, the left one on ties, and moves on. */
  method TakeSmaller<V>(less: (V, V) -> bool, curr: Node<V>, h1: Node<V>, h2: Node<V>, ghost c: Comparator<Node<V>>,
                        ghost pool: seq<Node<V>>, ghost goal: seq<Node<V>>,
                        ghost m: seq<Node<V>>, ghost n1: seq<Node<V>>, ghost i: nat, ghost n2: seq<Node<V>>,
                        ghost j: nat)
    returns (curr': Node<V>, h1': Node?<V>, h2': Node?<V>, ghost m': seq<Node<V>>, ghost i': nat, ghost j': nat)
    requires i < |n1| && j < |n2| && h1 == n1[i] && h2 == n2[j] && Judges(c, less, pool) && InPool(n1, pool)
    requires InPool(n2, pool)
    requires m != [] && Merging(m, n1, i, n2, j) && curr == m[|m| - 1] && Remains(c, goal, m, n1, i, n2, j)
    modifies curr`next, h1`prev, h2`prev
    ensures m' != [] && Merging(m', n1, i', n2, j') && curr' == m'[|m'| - 1] && m'[0] == m[0]
    ensures curr' in n1 || curr' in n2
    ensures i <= i' <= |n1| && j <= j' <= |n2| && i' + j' == i + j + 1 && (i' < |n1| || j' < |n2|)
    ensures h1' == NodeAt(n1, i') && h2' == NodeAt(n2, j') && Remains(c, goal, m', n1, i', n2, j')
    ensures Judges(c, less, pool)
  {
    JudgesPair(c, less, pool, n1, n2, h1, h2);
    if less(h2.value, h1.value) {
      TakesRight(c, goal, m, n1, i, n2, j);
      Take(curr, h2, m, n2, j, n1, i);
      m', i', j', h1', h2' := m + [h2], i, j + 1, h1, h2.next;
    } else {
      TakesLeft(c, goal, m, n1, i, n2, j);
      Take(curr, h1, m, n1, i, n2, j);
      m', i', j', h1', h2' := m + [h1], i + 1, j, h1.next, h2;
    }
    curr' := curr.next;
  }

  /** The loop: takes heads until one list is used up. */
  method MergeHeadsInTurn<V>(less: (V, V) -> bool, head: Node<V>, head1: Node?<V>, head2: Node?<V>,
                             ghost c: Comparator<Node<V>>, ghost pool: seq<Node<V>>, ghost goal: seq<Node<V>>,
                             ghost n1: seq<Node<V>>, ghost i0: nat, ghost n2: seq<Node<V>>, ghost j0: nat)
    returns (h1: Node?<V>, h2: Node?<V>, curr: Node<V>, ghost m: seq<Node<V>>, ghost i: nat, ghost j: nat)
    requires i0 <= |n1| && j0 <= |n2| && (i0 < |n1| || j0 < |n2|) && head1 == NodeAt(n1, i0) && head2 == NodeAt(n2, j0)
    requires Merging([head], n1, i0, n2, j0) && (head in n1 || head in n2) && Judges(c, less, pool)
    requires InPool(n1, pool) && InPool(n2, pool)
    requires Remains(c, goal, [head], n1, i0, n2, j0)
    modifies n1`next, n1`prev, n2`next, n2`prev
    ensures i <= |n1| && j <= |n2| && h1 == NodeAt(n1, i) && h2 == NodeAt(n2, j)
    ensures (i < |n1| && j == |n2|) || (i == |n1| && j < |n2|)
    ensures m != [] && Merging(m, n1, i, n2, j) && curr == m[|m| - 1] && m[0] == head && (curr in n1 || curr in n2)
    ensures Remains(c, goal, m, n1, i, n2, j) && Judges(c, less, pool)
  {
    h1, h2, i, j := head1, head2, i0, j0;
    m, curr := [head], head;
    while h1 != null && h2 != null
      invariant i <= |n1| && j <= |n2| && (i < |n1| || j < |n2|) && h1 == NodeAt(n1, i) && h2 == NodeAt(n2, j)
      invariant m != [] && Merging(m, n1, i, n2, j) && curr == m[|m| - 1] && m[0] == head && (curr in n1 || curr in n2)
      invariant Remains(c, goal, m, n1, i, n2, j) && Judges(c, less, pool)
      decreases |n1| - i + |n2| - j
    {
      curr, h1, h2, m, i, j := TakeSmaller(less, curr, h1, h2, c, pool, goal, m, n1, i, n2, j);
    }
  }

  /** The head of the merge, and what is left of both lists. */
  method FirstHead<V>(less: (V, V) -> bool, head1: Node<V>, head2: Node<V>, ghost c: Comparator<Node<V>>,
                      ghost pool: seq<Node<V>>, ghost goal: seq<Node<V>>,
                      ghost n1: seq<Node<V>>, ghost n2: seq<Node<V>>)
    returns (head: Node<V>, h1: Node?<V>, h2: Node?<V>, ghost i: nat, ghost j: nat)
    requires n1 != [] && n2 != [] && Strung(n1) && Strung(n2) && Apart(n1, n2)
    requires Judges(c, less, pool) && InPool(n1, pool) && InPool(n2, pool)
    requires Remains(c, goal, [], n1, 0, n2, 0) && head1 == n1[0] && head2 == n2[0]
    ensures i <= |n1| && j <= |n2| && (i < |n1| || j < |n2|) && h1 == NodeAt(n1, i) && h2 == NodeAt(n2, j)
    ensures Merging([head], n1, i, n2, j) && (head in n1 || head in n2) && Remains(c, goal, [head], n1, i, n2, j)
  {
    StrungMeans(n1);
    StrungMeans(n2);
    MergingStarts(n1, n2);
    JudgesPair(c, less, pool, n1, n2, head1, head2);
    if less(head2.value, head1.value) {
      TakesRight(c, goal, [], n1, 0, n2, 0);
      head, h1, h2, i, j := head2, head1, head2.next, 0, 1;
    } else {
      TakesLeft(c, goal, [], n1, 0, n2, 0);
      head, h1, h2, i, j := head1, head1.next, head2, 1, 0;
    }
    assert [] + [head] == [head];
  }

  /** Relinks two lists into their merge, `goal`. */
  method MergeChains<V>(less: (V, V) -> bool, head1: Node<V>, tail1: Node<V>, head2: Node<V>, tail2: Node<V>,
                        ghost c: Comparator<Node<V>>, ghost pool: seq<Node<V>>, ghost n1: seq<Node<V>>,
                        ghost n2: seq<Node<V>>, ghost goal: seq<Node<V>>)
    returns (head: Node<V>, tail: Node<V>)
    requires n1 != [] && n2 != [] && Strung(n1) && Strung(n2) && Apart(n1, n2)
    requires Judges(c, less, pool) && InPool(n1, pool) && InPool(n2, pool)
    requires Remains(c, goal, [], n1, 0, n2, 0)
    requires head1 == n1[0] && tail1 == n1[|n1| - 1] && head2 == n2[0] && tail2 == n2[|n2| - 1]
    modifies n1`next, n1`prev, n2`next, n2`prev
    ensures Strung(goal) && goal != [] && head == goal[0] && tail == goal[|goal| - 1] && Judges(c, less, pool)
  {
    ghost var i, j, m;
    var h1, h2, curr;
    head, h1, h2, i, j := FirstHead(less, head1, head2, c, pool, goal, n1, n2);
    h1, h2, curr, m, i, j := MergeHeadsInTurn(less, head, h1, h2, c, pool, goal, n1, i, n2, j);
    OneListLeft(c, goal, m, n1, i, n2, j);
    tail := ConnectRest(less, curr, h1, tail1, h2, tail2, c, pool, m, n1, i, n2, j);
  }

  /** What is left of one list completes the merge; the tail is that list's. */
  method ConnectRest<V>(ghost less: (V, V) -> bool, curr: Node<V>, h1: Node?<V>, tail1: Node<V>, h2: Node?<V>,
                        tail2: Node<V>,
                        ghost c: Comparator<Node<V>>, ghost pool: seq<Node<V>>,
                        ghost m: seq<Node<V>>, ghost n1: seq<Node<V>>, ghost i: nat, ghost n2: seq<Node<V>>,
                        ghost j: nat) returns (tail: Node<V>)
    requires i <= |n1| && j <= |n2| && h1 == NodeAt(n1, i) && h2 == NodeAt(n2, j)
    requires (i < |n1| && j == |n2|) || (i == |n1| && j < |n2|)
    requires m != [] && Merging(m, n1, i, n2, j) && curr == m[|m| - 1] && (curr in n1 || curr in n2)
    requires Judges(c, less, pool)
    requires n1 != [] && n2 != [] && tail1 == n1[|n1| - 1] && tail2 == n2[|n2| - 1]
    modifies n1`next, n1`prev, n2`next, n2`prev
    ensures Judges(c, less, pool)
    ensures if i < |n1| then Strung(m + n1[i..]) && tail == tail1 else Strung(m + n2[j..]) && tail == tail2
  {
    if h1 != null {
      Finish(curr, h1, m, n1, i, n2);
      tail := tail1;
    } else {
      Finish(curr, h2, m, n2, j, n1);
      tail := tail2;
    }
  }

  // --- merge sort ---------------------------------------------------------------------------------

  /** The middle node: of an even number, the last of the first half. */
  method GetMid<V>(head: Node<V>, ghost ns: seq<Node<V>>) returns (mid: Node<V>)
    requires Chain(ns) && head == ns[0]
    ensures mid == ns[(|ns| - 1) / 2]
  {
    var end := head;
    mid := head;
    ghost var k := 0;
    assert |ns| > 1 ==> LinkAt(ns, 1);
    assert |ns| > 2 ==> LinkAt(ns, 2);
    while end.next != null && end.next.next != null
      invariant 2 * k < |ns| && end == ns[2 * k] && mid == ns[k]
      invariant 2 * k + 1 < |ns| ==> LinkAt(ns, 2 * k + 1)
      invariant 2 * k + 2 < |ns| ==> LinkAt(ns, 2 * k + 2)
      decreases |ns| - k
    {
      assert LinkAt(ns, k + 1);
      end := end.next.next;
      mid := mid.next;
      k := k + 1;
      assert 2 * k + 1 < |ns| ==> LinkAt(ns, 2 * k + 1);
      assert 2 * k + 2 < |ns| ==> LinkAt(ns, 2 * k + 2);
    }
  }

  /** `goal` is the sorted list of nodes. Opened only on request. */
  ghost predicate Sorts<V>(c: Comparator<Node<V>>, ns: seq<Node<V>>, goal: seq<Node<V>>) {
    forall u {:trigger Opened(u)} :: Opened(u) ==> goal == ListSorted(c, ns)
  }

  lemma SortsItself<V>(c: Comparator<Node<V>>, ns: seq<Node<V>>, goal: seq<Node<V>>)
    requires Sorts(c, ns, goal) && |ns| == 1
    ensures goal == ns
  {
    assert Opened(0);
  }

  /** Two lists of nodes with the same members. */
  ghost predicate SameNodes<V>(a: seq<Node<V>>, b: seq<Node<V>>) {
    |a| == |b| && (forall i :: 0 <= i < |a| ==> a[i] in b)
  }

  lemma SameNodesApart<V>(a: seq<Node<V>>, b: seq<Node<V>>, a': seq<Node<V>>, b': seq<Node<V>>)
    requires Apart(a, b) && SameNodes(a', a) && SameNodes(b', b)
    ensures Apart(a', b') && Apart(a', b)
  {
    forall i, j | 0 <= i < |a'| && 0 <= j < |b'| ensures a'[i] != b'[j] {
      assert a'[i] in a && b'[j] in b;
    }
    forall i, j | 0 <= i < |a'| && 0 <= j < |b| ensures a'[i] != b[j] {
      assert a'[i] in a;
    }
  }

  lemma SortsSplits<V>(c: Comparator<Node<V>>, ns: seq<Node<V>>, goal: seq<Node<V>>, l: seq<Node<V>>, r: seq<Node<V>>)
    returns (l': seq<Node<V>>, r': seq<Node<V>>)
    requires Sorts(c, ns, goal) && |ns| >= 2 && ns == l + r && |l| == (|ns| + 1) / 2
    ensures Sorts(c, l, l') && Sorts(c, r, r') && SameNodes(l', l) && SameNodes(r', r)
    ensures Remains(c, goal, [], l', 0, r', 0)
  {
    assert Opened(0);
    l', r' := ListSorted(c, l), ListSorted(c, r);
    ListSortedUnfolds(c, ns, l, r);
    SortedSameNodes(c, l);
    SortedSameNodes(c, r);
    AllRemains(c, l', r');
  }

  lemma SortedSameNodes<V>(c: Comparator<Node<V>>, ns: seq<Node<V>>)
    ensures SameNodes(ListSorted(c, ns), ns)
  {
    ListSortedPermutes(c, ns);
    var t := ListSorted(c, ns);
    forall i | 0 <= i < |t| ensures t[i] in ns {
      assert t[i] in multiset(t);
    }
  }

  /** `l` and `r` are the halves of `ns`. Opened only on request. */
  ghost predicate Halves<V>(ns: seq<Node<V>>, l: seq<Node<V>>, r: seq<Node<V>>) {
    forall u {:trigger Opened(u)} :: Opened(u) ==> |ns| >= 2 && l == ns[..(|ns| + 1) / 2] && r == ns[(|ns| + 1) / 2..]
  }

  method HalveChain<V>(head: Node<V>, ghost c: Comparator<Node<V>>, ghost less: (V, V) -> bool,
                       ghost pool: seq<Node<V>>, ghost ns: seq<Node<V>>, ghost l: seq<Node<V>>, ghost r: seq<Node<V>>)
    returns (tail1: Node<V>, head2: Node<V>)
    requires |ns| >= 2 && Strung(ns) && head == ns[0] && Halves(ns, l, r) && l != [] && r != [] && Judges(c, less, pool)
    modifies ns`next, ns`prev
    ensures Strung(l) && Strung(r) && l[0] == ns[0] && r[|r| - 1] == ns[|ns| - 1] && tail1 == l[|l| - 1]
    ensures head2 == r[0]
    ensures Judges(c, less, pool)
  {
    StrungMeans(ns);
    assert Opened(0);
    tail1 := GetMid(head, ns);
    assert LinkAt(ns, (|ns| + 1) / 2);
    head2 := tail1.next;
    Split(tail1, head2, ns, (|ns| + 1) / 2);
  }

  method MergeSortChain<V>(less: (V, V) -> bool, head0: Node<V>, tail0: Node<V>, ghost c: Comparator<Node<V>>,
                           ghost pool: seq<Node<V>>,
                           ghost ns: seq<Node<V>>, ghost goal: seq<Node<V>>)
    returns (head: Node<V>, tail: Node<V>)
    requires ns != [] && NoDup(ns) && Strung(ns) && head0 == ns[0] && tail0 == ns[|ns| - 1]
    requires Judges(c, less, pool) && InPool(ns, pool) && Sorts(c, ns, goal)
    modifies ns`next, ns`prev
    ensures Strung(goal) && goal != [] && head == goal[0] && tail == goal[|goal| - 1] && Judges(c, less, pool)
    decreases |ns|, 1
  {
    head, tail := head0, tail0;
    if head == tail {
      SortsItself(c, ns, goal);
      return;
    }
    ghost var l, r, l', r' := SplitPlan(c, pool, ns, goal);
    var tail1, head2 := HalveChain(head, c, less, pool, ns, l, r);
    head, tail1, head2, tail := SortHalves(less, head, tail1, head2, tail, c, pool, l, r, l', r');
    head, tail := MergeChains(less, head, tail1, head2, tail, c, pool, l', r', goal);
  }

  method SortHalves<V>(less: (V, V) -> bool, h1: Node<V>, t1: Node<V>, h2: Node<V>, t2: Node<V>,
                       ghost c: Comparator<Node<V>>, ghost pool: seq<Node<V>>,
                       ghost l: seq<Node<V>>, ghost r: seq<Node<V>>, ghost l': seq<Node<V>>, ghost r': seq<Node<V>>)
    returns (head1: Node<V>, tail1: Node<V>, head2: Node<V>, tail2: Node<V>)
    requires l != [] && r != [] && NoDup(l) && NoDup(r) && Strung(l) && Strung(r) && Apart(l, r) && Apart(l', r)
    requires h1 == l[0] && t1 == l[|l| - 1] && h2 == r[0] && t2 == r[|r| - 1]
    requires Judges(c, less, pool) && InPool(l, pool) && InPool(r, pool) && Sorts(c, l, l') && Sorts(c, r, r')
    modifies l`next, l`prev, r`next, r`prev
    ensures Strung(l') && Strung(r') && l' != [] && r' != [] && Judges(c, less, pool)
    ensures head1 == l'[0] && tail1 == l'[|l'| - 1] && head2 == r'[0] && tail2 == r'[|r'| - 1]
    decreases |l| + |r|, 0
  {
    head1, tail1 := MergeSortChain(less, h1, t1, c, pool, l, l');
    head2, tail2 := MergeSortChain(less, h2, t2, c, pool, r, r');
  }

  /** Everything about the halves of a list that does not depend on its links. */
  lemma SplitPlan<V>(c: Comparator<Node<V>>, pool: seq<Node<V>>, ns: seq<Node<V>>, goal: seq<Node<V>>)
    returns (l: seq<Node<V>>, r: seq<Node<V>>, l': seq<Node<V>>, r': seq<Node<V>>)
    requires NoDup(ns) && |ns| >= 2 && InPool(ns, pool) && Sorts(c, ns, goal)
    ensures Halves(ns, l, r) && l != [] && r != [] && |l| + |r| == |ns| && NoDup(l) && NoDup(r)
    ensures Sorts(c, l, l') && Sorts(c, r, r') && Remains(c, goal, [], l', 0, r', 0)
    ensures Apart(l', r') && Apart(l', r) && Apart(l, r) && Among(l, ns) && Among(r, ns) && Among(l', ns)
    ensures Among(r', ns)
    ensures InPool(l, pool) && InPool(r, pool) && InPool(l', pool) && InPool(r', pool)
  {
    assert Opened(0);
    l, r := ns[..(|ns| + 1) / 2], ns[(|ns| + 1) / 2..];
    assert ns == l + r;
    l', r' := SortsSplits(c, ns, goal, l, r);
    HalvesApart(ns, l, r);
    SameNodesApart(l, r, l', r');
    AmongParts(l, r, l', r');
  }

  lemma HalvesApart<V>(ns: seq<Node<V>>, l: seq<Node<V>>, r: seq<Node<V>>)
    requires NoDup(ns) && ns == l + r
    ensures NoDup(l) && NoDup(r) && Apart(l, r)
  {
    assert forall i :: 0 <= i < |l| ==> ns[i] == l[i];
    assert forall i :: 0 <= i < |r| ==> ns[|l| + i] == r[i];
  }

  lemma AmongParts<V>(l: seq<Node<V>>, r: seq<Node<V>>, l': seq<Node<V>>, r': seq<Node<V>>)
    requires SameNodes(l', l) && SameNodes(r', r)
    ensures Among(l, l + r) && Among(r, l + r) && Among(l', l + r) && Among(r', l + r)
  {
  }
}
