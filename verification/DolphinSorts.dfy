/** dolphin_sort.h: the in-place merge sort and its fork-join form. */
module DolphinSorts {
  import opened Sequences
  import opened Searching
  import opened RotationMerges

  /** `s` with positions lo..hi replaced by `x`. */
  function Spliced<X>(s: seq<X>, lo: nat, hi: nat, x: seq<X>): (r: seq<X>)
    requires lo <= hi <= |s| && |x| == hi - lo
    ensures |r| == |s| && forall i :: 0 <= i < |s| ==> r[i] == if lo <= i < hi then x[i - lo] else s[i]
  {
    seq(|s|, i requires 0 <= i < |s| => if lo <= i < hi then x[i - lo] else s[i])
  }

  /** std::rotate: the blocks f..p and p..e change places. */
  function Rotated<X>(s: seq<X>, f: nat, p: nat, e: nat): (r: seq<X>)
    requires f <= p <= e <= |s|
    ensures |r| == |s|
  {
    Spliced(s, f, e, s[p..e] + s[f..p])
  }

  /** Merging the runs lo..mid and mid..hi. */
  ghost function Merged<X>(less: Less<X>, s: seq<X>, lo: nat, mid: nat, hi: nat): (r: seq<X>)
    requires lo <= mid <= hi <= |s|
    ensures |r| == hi - lo
  {
    RotationMergePermutes(less, s[lo..mid], s[mid..hi]);
    RotationMerge(less, s[lo..mid], s[mid..hi])
  }

  ghost function MergedAt<X>(less: Less<X>, s: seq<X>, lo: nat, mid: nat, hi: nat): (r: seq<X>)
    requires lo <= mid <= hi <= |s|
    ensures |r| == |s|
  {
    Spliced(s, lo, hi, Merged(less, s, lo, mid, hi))
  }

  ghost function SortedAt<X>(less: Less<X>, s: seq<X>, lo: nat, hi: nat): (r: seq<X>)
    requires lo <= hi <= |s|
    ensures |r| == |s|
  {
    MergeSortedPermutes(less, s[lo..hi]);
    Spliced(s, lo, hi, MergeSorted(less, s[lo..hi]))
  }

  // --- one step ------------------------------------------------------------------------------

  /** A splice changes nothing outside. */
  lemma SplicedElsewhere<X>(s: seq<X>, lo: nat, hi: nat, x: seq<X>, i: nat, j: nat)
    requires lo <= hi <= |s| && |x| == hi - lo && i <= j <= |s| && (j <= lo || hi <= i)
    ensures Spliced(s, lo, hi, x)[i..j] == s[i..j]
  {
  }

  lemma SplicedInside<X>(s: seq<X>, lo: nat, hi: nat, x: seq<X>)
    requires lo <= hi <= |s| && |x| == hi - lo
    ensures Spliced(s, lo, hi, x)[lo..hi] == x
  {
  }

  lemma SplicedTwice<X>(s: seq<X>, f: nat, e: nat, w: seq<X>, lo: nat, mid: nat, hi: nat, x: seq<X>, y: seq<X>)
    requires lo <= f <= e <= hi <= |s| && |w| == e - f && lo <= mid <= hi && |x| == mid - lo && |y| == hi - mid
    ensures Spliced(Spliced(Spliced(s, f, e, w), lo, mid, x), mid, hi, y) == Spliced(s, lo, hi, x + y)
  {
  }

  /** The four blocks after the rotation. */
  lemma RotatedBlocks<X>(s: seq<X>, lo: nat, f: nat, mid: nat, e: nat, hi: nat, p: nat)
    requires lo <= f <= mid <= e <= hi <= |s| && p == f + (e - mid)
    ensures var r := Rotated(s, f, mid, e);
      r[lo..f] == s[lo..f] && r[f..p] == s[mid..e] && r[p..e] == s[f..mid] && r[e..hi] == s[e..hi]
  {
    var x, y := s[mid..e], s[f..mid];
    SplicedElsewhere(s, f, e, x + y, lo, f);
    SplicedElsewhere(s, f, e, x + y, e, hi);
    SplicedPair(s, f, p, e, x, y);
  }

  lemma SplicedPair<X>(s: seq<X>, f: nat, p: nat, e: nat, x: seq<X>, y: seq<X>)
    requires f <= p <= e <= |s| && |x| == p - f && |y| == e - p
    ensures Spliced(s, f, e, x + y)[f..p] == x && Spliced(s, f, e, x + y)[p..e] == y
  {
  }

  lemma MergeUnfolds<X>(less: Less<X>, s: seq<X>, lo: nat, f: nat, mid: nat, e: nat, hi: nat)
    requires lo < mid < hi <= |s| && hi - lo > 2
    requires lo <= f <= mid <= e <= hi && (f - lo, e - mid) == Cuts(less, s[lo..mid], s[mid..hi])
    ensures Merged(less, s, lo, mid, hi)
        == RotationMerge(less, s[lo..f], s[mid..e]) + RotationMerge(less, s[f..mid], s[e..hi])
  {
    RotationMergeUnfolds(less, s[lo..mid], s[mid..hi], s[lo..f], s[f..mid], s[mid..e], s[e..hi]);
  }

  /** Rotating and merging both sides of the new pivot is merging the whole. */
  lemma MergeStep<X>(less: Less<X>, s: seq<X>, lo: nat, f: nat, mid: nat, e: nat, hi: nat, p: nat)
    requires lo < mid < hi <= |s| && hi - lo > 2 && p == f + (e - mid)
    requires lo <= f <= mid <= e <= hi && (f - lo, e - mid) == Cuts(less, s[lo..mid], s[mid..hi])
    ensures MergedAt(less, MergedAt(less, Rotated(s, f, mid, e), lo, f, p), p, e, hi) == MergedAt(less, s, lo, mid, hi)
  {
    var r := Rotated(s, f, mid, e);
    RotatedBlocks(s, lo, f, mid, e, hi, p);
    MergeUnfolds(less, s, lo, f, mid, e, hi);
    var x := Merged(less, r, lo, f, p);
    var first := Spliced(r, lo, p, x);
    SplicedElsewhere(r, lo, p, x, p, e);
    SplicedElsewhere(r, lo, p, x, e, hi);
    SplicedTwice(s, f, e, s[mid..e] + s[f..mid], lo, p, hi, x, Merged(less, first, p, e, hi));
  }

  /** Sorting both halves and merging them is sorting the whole. */
  lemma SortStep<X>(less: Less<X>, s: seq<X>, lo: nat, mid: nat, hi: nat)
    requires lo + 2 <= hi <= |s| && mid == lo + (hi - lo) / 2
    ensures MergedAt(less, SortedAt(less, SortedAt(less, s, lo, mid), mid, hi), lo, mid, hi)
        == SortedAt(less, s, lo, hi)
  {
    MergeSortedUnfolds(less, s[lo..hi], s[lo..mid], s[mid..hi]);
    MergeSortedPermutes(less, s[lo..mid]);
    MergeSortedPermutes(less, s[mid..hi]);
    RotationMergePermutes(less, MergeSorted(less, s[lo..mid]), MergeSorted(less, s[mid..hi]));
    SortHalves(less, s, lo, mid, hi, MergeSorted(less, s[lo..mid]), MergeSorted(less, s[mid..hi]));
    SplicedElsewhere(s, lo, mid, MergeSorted(less, s[lo..mid]), mid, hi);
  }

  lemma SortHalves<X>(less: Less<X>, s: seq<X>, lo: nat, mid: nat, hi: nat, x: seq<X>, y: seq<X>)
    requires lo <= mid <= hi <= |s| && |x| == mid - lo && |y| == hi - mid && |RotationMerge(less, x, y)| == hi - lo
    ensures MergedAt(less, Spliced(Spliced(s, lo, mid, x), mid, hi, y), lo, mid, hi)
        == Spliced(s, lo, hi, RotationMerge(less, x, y))
  {
    var left := Spliced(s, lo, mid, x);
    SplicedInside(s, lo, mid, x);
    SplicedElsewhere(left, mid, hi, y, lo, mid);
    SplicedInside(left, mid, hi, y);
    SplicedOver(s, lo, mid, hi, x, y, RotationMerge(less, x, y));
  }

  lemma SplicedOver<X>(s: seq<X>, lo: nat, mid: nat, hi: nat, x: seq<X>, y: seq<X>, z: seq<X>)
    requires lo <= mid <= hi <= |s| && |x| == mid - lo && |y| == hi - mid && |z| == hi - lo
    ensures Spliced(Spliced(Spliced(s, lo, mid, x), mid, hi, y), lo, hi, z) == Spliced(s, lo, hi, z)
  {
  }

  // --- in place ------------------------------------------------------------------------------

  method Rotate<X>(a: array<X>, f: nat, p: nat, e: nat)
    requires f <= p <= e <= a.Length
    modifies a
    ensures a[..] == Rotated(old(a[..]), f, p, e)
  {
    var moved := a[p..e] + a[f..p];
    for k := f to e
      invariant forall i :: 0 <= i < a.Length ==> a[i] == if f <= i < k then moved[i - f] else old(a[i])
    {
      a[k] := moved[k - f];
    }
  }

  method FindCuts<X>(less: Less<X>, s: seq<X>, t: seq<X>) returns (i: nat, j: nat)
    requires s != [] && t != []
    ensures (i, j) == Cuts(less, s, t)
  {
    CutsMeans(less, s, t);
    if |s| > |t| {
      i := |s| / 2;
      j := BinarySearch(NotLessThan(less, t, s[i]), |t|);
    } else {
      j := |t| / 2;
      i := BinarySearch(GreaterThan(less, s, t[j]), |s|);
    }
  }

  /** `r` is the outcome of the merge. Opened only on request: see MergeMeans. */
  ghost predicate IsMerged<X>(less: Less<X>, s: seq<X>, lo: nat, mid: nat, hi: nat, r: seq<X>)
    requires lo <= mid <= hi <= |s|
  {
    forall u {:trigger Opened(u)} :: Opened(u) ==> r == MergedAt(less, s, lo, mid, hi)
  }

  lemma MergeMeans<X>(less: Less<X>, s: seq<X>, lo: nat, mid: nat, hi: nat, r: seq<X>)
    requires lo <= mid <= hi <= |s| && IsMerged(less, s, lo, mid, hi, r)
    ensures r == MergedAt(less, s, lo, mid, hi) && |r| == |s|
  {
    assert Opened(0);
  }

  lemma NothingToMerge<X>(less: Less<X>, s: seq<X>, lo: nat, mid: nat, hi: nat)
    requires lo <= mid <= hi <= |s| && (lo == mid || mid == hi)
    ensures IsMerged(less, s, lo, mid, hi, s)
  {
    assert s[lo..mid] + s[mid..hi] == s[lo..hi];
  }

  lemma PairMerges<X>(less: Less<X>, x: X, y: X)
    ensures RotationMerge(less, [x], [y]) == if less(y, x) then [y, x] else [x, y]
  {
  }

  lemma TwoToMerge<X>(less: Less<X>, s: seq<X>, lo: nat)
    requires lo + 2 <= |s|
    ensures IsMerged(less, s, lo, lo + 1, lo + 2,
                     if less(s[lo + 1], s[lo]) then s[lo := s[lo + 1]][lo + 1 := s[lo]] else s)
  {
    var x, y := s[lo], s[lo + 1];
    assert s[lo..lo + 1] == [x] && s[lo + 1..lo + 2] == [y];
    PairMerges(less, x, y);
    assert less(y, x) ==> Spliced(s, lo, lo + 2, [y, x]) == s[lo := y][lo + 1 := x];
    assert Spliced(s, lo, lo + 2, [x, y]) == s;
  }

  lemma MergesCombine<X>(less: Less<X>, s: seq<X>, lo: nat, f: nat, mid: nat, e: nat, hi: nat, p: nat, first: seq<X>,
                         last: seq<X>)
    requires lo < mid < hi <= |s| && hi - lo > 2 && p == f + (e - mid)
    requires lo <= f <= mid <= e <= hi && (f - lo, e - mid) == Cuts(less, s[lo..mid], s[mid..hi])
    requires IsMerged(less, Rotated(s, f, mid, e), lo, f, p, first) && |first| == |s|
    requires IsMerged(less, first, p, e, hi, last)
    ensures IsMerged(less, s, lo, mid, hi, last)
  {
    MergeMeans(less, Rotated(s, f, mid, e), lo, f, p, first);
    MergeMeans(less, first, p, e, hi, last);
    MergeStep(less, s, lo, f, mid, e, hi, p);
  }

  method MergeInPlace<X>(less: Less<X>, a: array<X>, lo: nat, mid: nat, hi: nat)
    requires lo <= mid <= hi <= a.Length
    modifies a
    ensures IsMerged(less, old(a[..]), lo, mid, hi, a[..])
    decreases hi - lo
  {
    ghost var s := a[..];
    if lo == mid || mid == hi {
      NothingToMerge(less, s, lo, mid, hi);
      return;
    }
    if hi - lo == 2 {
      TwoToMerge(less, s, lo);
      if less(a[lo + 1], a[lo]) {
        a[lo], a[lo + 1] := a[lo + 1], a[lo];
      }
      assert a[..] == if less(s[lo + 1], s[lo]) then s[lo := s[lo + 1]][lo + 1 := s[lo]] else s;
      return;
    }
    var i, j := FindCuts(less, a[lo..mid], a[mid..hi]);
    var f, e, p := lo + i, mid + j, lo + i + j;
    Rotate(a, f, mid, e);
    MergeInPlace(less, a, lo, f, p);
    ghost var first := a[..];
    MergeInPlace(less, a, p, e, hi);
    MergesCombine(less, s, lo, f, mid, e, hi, p, first, a[..]);
  }

  method MergeSort<X>(less: Less<X>, a: array<X>, lo: nat, hi: nat)
    requires lo <= hi <= a.Length
    modifies a
    ensures a[..] == SortedAt(less, old(a[..]), lo, hi)
    decreases hi - lo
  {
    ghost var s := a[..];
    if hi - lo < 2 {
      return;
    }
    var mid := lo + (hi - lo) / 2;
    MergeSort(less, a, lo, mid);
    MergeSort(less, a, mid, hi);
    ghost var halves := a[..];
    SortStep(less, s, lo, mid, hi);
    MergeInPlace(less, a, lo, mid, hi);
    MergeMeans(less, halves, lo, mid, hi, a[..]);
  }
}
