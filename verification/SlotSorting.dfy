/**
 SlotSorter.java: merge sort on a range of an array of slots, with one scratch array half as long.
 Permutes the range for any comparator; yields the stable sort for a consistent one.
 */
module SlotSorting {
  import opened Sequences
  import opened Orders

  const INSERTION_THRESHOLD := 24

  method InsertionSort(a: array<nat>, from: int, to: int, c: Comparator<nat>)
    requires 0 <= from <= to <= a.Length
    modifies a
    ensures forall x :: 0 <= x < from || to <= x < a.Length ==> a[x] == old(a[x])
    ensures a[from..to] == StableSort(c, old(a[from..to]))
  {
    if from == to {
      return;
    }
    ghost var was := a[from..to];
    var i := from + 1;
    SortedStarts(c, was, a[from..i]);
    while i < to
      invariant from < i <= to
      invariant forall x :: 0 <= x < from || i <= x < a.Length ==> a[x] == old(a[x])
      invariant SortedPart(c, was, i - from, a[from..i])
    {
      assert a[i] == was[i - from];
      ghost var part := a[from..i];
      InsertOne(a, from, i, c);
      SortedGrows(c, was, i - from, part, a[from..i + 1]);
      i := i + 1;
    }
    SortedEnds(c, was, a[from..to]);
  }

  /** `s` is the sorted beginning of `was`. Opened only on request. */
  ghost predicate SortedPart<X>(c: Comparator<X>, was: seq<X>, k: nat, s: seq<X>) {
    forall u {:trigger Opened(u)} :: Opened(u) ==> k <= |was| && s == StableSort(c, was[..k])
  }

  lemma SortedStarts<X>(c: Comparator<X>, was: seq<X>, s: seq<X>)
    requires was != [] && s == [was[0]]
    ensures SortedPart(c, was, 1, s)
  {
    assert was[..1] == [was[0]] && was[..1][..0] == [];
  }

  lemma SortedEnds<X>(c: Comparator<X>, was: seq<X>, s: seq<X>)
    requires SortedPart(c, was, |was|, s)
    ensures s == StableSort(c, was)
  {
    assert Opened(0);
    assert was[..|was|] == was;
  }

  lemma SortedGrows<X>(c: Comparator<X>, was: seq<X>, k: nat, s: seq<X>, t: seq<X>)
    requires k < |was| && SortedPart(c, was, k, s) && t == Insert(c, s, was[k])
    ensures SortedPart(c, was, k + 1, t)
  {
    assert Opened(0);
    assert was[..k + 1][..k] == was[..k];
  }

  /** The inner loop: slides a[i] left over everything greater. */
  method InsertOne(a: array<nat>, from: int, i: int, c: Comparator<nat>)
    requires 0 <= from <= i < a.Length
    modifies a
    ensures forall x :: 0 <= x < from || i < x < a.Length ==> a[x] == old(a[x])
    ensures a[from..i + 1] == Insert(c, old(a[from..i]), old(a[i]))
  {
    ghost var done := a[from..i];
    var value := a[i];
    var j := i - 1;
    while j >= from && c(a[j], value) > 0
      invariant from - 1 <= j < i
      invariant forall x :: 0 <= x < from || i < x < a.Length ==> a[x] == old(a[x])
      invariant forall x :: from <= x <= j ==> a[x] == done[x - from]
      invariant forall x :: j + 1 < x <= i ==> a[x] == done[x - 1 - from] && c(a[x], value) > 0
    {
      assert a[j] == done[j - from];
      a[j + 1] := a[j];
      j := j - 1;
    }
    a[j + 1] := value;
    assert j >= from ==> a[j] == done[j - from];
    SlidRange(a[..], from, i, j + 1, done, value, c);
  }

  lemma SlidRange<X>(a: seq<X>, from: nat, i: nat, at: nat, done: seq<X>, value: X, c: Comparator<X>)
    requires from <= at <= i < |a| && |done| == i - from && a[at] == value
    requires forall x :: from <= x < at ==> a[x] == done[x - from]
    requires forall x :: at < x <= i ==> a[x] == done[x - 1 - from] && c(a[x], value) > 0
    requires from < at ==> c(done[at - 1 - from], value) <= 0
    ensures a[from..i + 1] == Insert(c, done, value)
  {
    var s := a[from..i + 1];
    assert forall x :: 0 <= x < |s| ==> s[x] == a[from + x];
    InsertedAt(c, done, value, at - from, s);
  }

  /** Insertion lands right after the last element that is not greater. */
  lemma {:induction false} InsertedAt<X>(c: Comparator<X>, done: seq<X>, value: X, d: nat, s: seq<X>)
    requires d <= |done| && |s| == |done| + 1 && s[d] == value
    requires forall x :: 0 <= x < d ==> s[x] == done[x]
    requires forall x :: d < x < |s| ==> s[x] == done[x - 1] && c(s[x], value) > 0
    requires 0 < d ==> c(done[d - 1], value) <= 0
    ensures s == Insert(c, done, value)
  {
    if d == |done| {
      assert s == done + [value];
    } else {
      var t, front := done[..|done| - 1], s[..|s| - 1];
      InsertedAt(c, t, value, d, front);
      assert s == front + [s[|s| - 1]] && s[|s| - 1] == done[|done| - 1];
    }
  }

  /** Merges two adjacent runs; only the left one is copied out. */
  method MergeRuns(a: array<nat>, tmp: array<nat>, from: int, mid: int, to: int, c: Comparator<nat>)
    requires 0 <= from <= mid <= to <= a.Length
    requires mid - from <= tmp.Length && a != tmp
    modifies a, tmp
    ensures forall x :: 0 <= x < from || to <= x < a.Length ==> a[x] == old(a[x])
    ensures forall x :: mid - from <= x < tmp.Length ==> tmp[x] == old(tmp[x])
    ensures multiset(a[from..to]) == multiset(old(a[from..to]))
    ensures TotalPreorder(c) && Ascending(c, old(a[from..mid])) && Ascending(c, old(a[mid..to]))
            ==> a[from..to] == Merge(c, old(a[from..mid]), old(a[mid..to]))
  {
    ghost var left, right := a[from..mid], a[mid..to];
    assert a[from..to] == left + right;
    if from == mid || mid == to || c(a[mid - 1], a[mid]) <= 0 {
      if TotalPreorder(c) && Ascending(c, left) && Ascending(c, right) {
        AlreadyInOrder(c, left, right);
      }
      return;
    }
    CopyOut(a, tmp, from, mid);
    MergePermutes(c, left, right);
    ghost var goal := a[..from] + Merge(c, left, right) + a[to..];
    assert goal[from..to] == Merge(c, left, right);
    MergeBack(a, tmp, mid - from, from, to, c, goal);
    assert a[from..to] == goal[from..to];
  }

  /** The guard of the merge: last of the left run not above first of the right run. */
  lemma AlreadyInOrder<X(!new)>(c: Comparator<X>, left: seq<X>, right: seq<X>)
    requires TotalPreorder(c) && Ascending(c, left) && Ascending(c, right)
    requires left != [] && right != [] ==> c(left[|left| - 1], right[0]) <= 0
    ensures Merge(c, left, right) == left + right
  {
    forall i, j | 0 <= i < |left| && 0 <= j < |right| ensures c(left[i], right[j]) <= 0 {
      assert Chains(c, left[i], left[|left| - 1], right[0]) && Chains(c, left[i], right[0], right[j]);
    }
    MergeInOrder(c, left, right);
  }

  method CopyOut(a: array<nat>, tmp: array<nat>, from: int, mid: int)
    requires 0 <= from <= mid <= a.Length && mid - from <= tmp.Length && a != tmp
    modifies tmp
    ensures tmp[..mid - from] == a[from..mid]
    ensures forall x :: mid - from <= x < tmp.Length ==> tmp[x] == old(tmp[x])
  {
    var i := 0;
    while i < mid - from
      invariant 0 <= i <= mid - from
      invariant tmp[..i] == a[from..from + i]
      invariant forall x :: mid - from <= x < tmp.Length ==> tmp[x] == old(tmp[x])
    {
      tmp[i] := a[from + i];
      i := i + 1;
    }
  }

  /** What is still to be written: goal[k..end] is the merge of the unread parts of the two runs. */
  ghost predicate Rest(c: Comparator<nat>, p: seq<nat>, q: seq<nat>, goal: seq<nat>, k: int, end: int) {
    0 <= k <= end <= |goal| && end - k == |p| + |q| && goal[k..end] == Merge(c, p, q)
  }

  lemma RestTakesLeft(c: Comparator<nat>, p: seq<nat>, q: seq<nat>, goal: seq<nat>, k: int, end: int)
    requires Rest(c, p, q, goal, k, end) && p != []
    requires q == [] || c(p[0], q[0]) <= 0
    ensures k < end && goal[k] == p[0] && Rest(c, p[1..], q, goal, k + 1, end)
  {
    assert Merge(c, p, q) == [p[0]] + Merge(c, p[1..], q);
    assert goal[k] == goal[k..end][0] && goal[k + 1..end] == goal[k..end][1..];
  }

  lemma RestTakesRight(c: Comparator<nat>, p: seq<nat>, q: seq<nat>, goal: seq<nat>, k: int, end: int)
    requires Rest(c, p, q, goal, k, end) && p != [] && q != [] && c(p[0], q[0]) > 0
    ensures k < end && goal[k] == q[0] && Rest(c, p, q[1..], goal, k + 1, end)
  {
    assert goal[k] == goal[k..end][0] && goal[k + 1..end] == goal[k..end][1..];
  }

  /**
   `tmp` holds the left run; the right run is still in place. The write cursor k stays left of j
   while unread left elements remain, so no unread right element is overwritten.
   */
  method MergeBack(a: array<nat>, tmp: array<nat>, left: int, from: int, to: int, c: Comparator<nat>,
                   ghost goal: seq<nat>)
    requires 0 <= from <= from + left <= to <= a.Length && 0 <= left <= tmp.Length && a != tmp
    requires |goal| == a.Length && Rest(c, tmp[..left], a[from + left..to], goal, from, to)
    requires forall x :: 0 <= x < from || to <= x < a.Length ==> goal[x] == a[x]
    modifies a
    ensures a[..] == goal
  {
    var i, j, k := 0, from + left, from;
    ghost var p, q := tmp[..left], a[from + left..to];
    while i < left && j < to
      invariant 0 <= i <= left && from + left <= j <= to && left - i == j - k
      invariant forall x :: 0 <= x < k || to <= x < a.Length ==> a[x] == goal[x]
      invariant p == tmp[i..left] && q == a[j..to]
      invariant Rest(c, p, q, goal, k, to)
    {
      if c(tmp[i], a[j]) <= 0 {
        RestTakesLeft(c, p, q, goal, k, to);
        a[k], p := tmp[i], p[1..];
        i := i + 1;
      } else {
        RestTakesRight(c, p, q, goal, k, to);
        a[k], q := a[j], q[1..];
        j := j + 1;
      }
      k := k + 1;
    }
    MergeDrain(a, tmp, left, i, j, k, to, c, goal);
  }

  /** The second loop: copies what is left of the left run; the rest of the right run is in place. */
  method MergeDrain(a: array<nat>, tmp: array<nat>, left: int, first: int, j: int, at: int, to: int,
                    c: Comparator<nat>, ghost goal: seq<nat>)
    requires 0 <= first <= left <= tmp.Length && 0 <= at <= j <= to <= a.Length && left - first == j - at && a != tmp
    requires first == left || j == to
    requires |goal| == a.Length && Rest(c, tmp[first..left], a[j..to], goal, at, to)
    requires forall x :: 0 <= x < at || to <= x < a.Length ==> goal[x] == a[x]
    modifies a
    ensures a[..] == goal
  {
    var i, k := first, at;
    ghost var p, q := tmp[first..left], a[j..to];
    while i < left
      invariant first <= i <= left && left - i == j - k
      invariant forall x :: 0 <= x < k || to <= x < a.Length ==> a[x] == goal[x]
      invariant p == tmp[i..left] && q == a[j..to]
      invariant Rest(c, p, q, goal, k, to)
    {
      RestTakesLeft(c, p, q, goal, k, to);
      a[k], p := tmp[i], p[1..];
      i := i + 1;
      k := k + 1;
    }
    assert forall x :: j <= x < to ==> a[x] == q[x - j] == goal[j..to][x - j];
  }

  method Sort(a: array<nat>, tmp: array<nat>, from: int, to: int, c: Comparator<nat>)
    requires 0 <= from <= to <= a.Length
    requires (to - from + 1) / 2 <= tmp.Length && a != tmp
    modifies a, tmp
    ensures forall x :: 0 <= x < from || to <= x < a.Length ==> a[x] == old(a[x])
    ensures forall x :: (to - from + 1) / 2 <= x < tmp.Length ==> tmp[x] == old(tmp[x])
    ensures multiset(a[from..to]) == multiset(old(a[from..to]))
    ensures TotalPreorder(c) ==> a[from..to] == StableSort(c, old(a[from..to]))
    decreases -from + to
  {
    if to - from <= INSERTION_THRESHOLD {
      StableSortPermutes(c, a[from..to]);
      InsertionSort(a, from, to, c);
    } else {
      var mid := (from + to) / 2;
      ghost var left, right := a[from..mid], a[mid..to];
      assert a[from..to] == left + right;
      Sort(a, tmp, from, mid, c);
      assert a[mid..to] == right;
      ghost var left' := a[from..mid];
      Sort(a, tmp, mid, to, c);
      ghost var right' := a[mid..to];
      assert a[from..mid] == left';
      assert a[from..to] == left' + right';
      MergeRuns(a, tmp, from, mid, to, c);
      if TotalPreorder(c) {
        StableSortStable(c, left);
        StableSortStable(c, right);
        MergeOfSorted(c, left, right);
      }
    }
  }
}
