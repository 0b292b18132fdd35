/**
 Binary search as every search loop of the library performs it, std::upper_bound, lower_bound and
 binary_search included: halve [lo, hi) around lo + (hi - lo) / 2.
 */
module Searching {

  ghost predicate UpwardClosed(p: nat -> bool, lo: nat, hi: nat) {
    forall i, j :: lo <= i <= j < hi && p(i) ==> p(j)
  }

  /** Where the search lands; always in range, whatever `p` is. */
  function PartitionPoint(p: nat -> bool, lo: nat, hi: nat): (r: nat)
    requires lo <= hi
    ensures lo <= r <= hi
    decreases hi - lo
  {
    if lo == hi then lo
    else
      var mid := lo + (hi - lo) / 2;
      if p(mid) then PartitionPoint(p, lo, mid) else PartitionPoint(p, mid + 1, hi)
  }

  /** The loop. */
  method BinarySearch(p: nat -> bool, n: nat) returns (lo: nat)
    ensures lo == PartitionPoint(p, 0, n)
  {
    lo := 0;
    var hi := n;
    while lo < hi
      invariant 0 <= lo <= hi <= n && PartitionPoint(p, 0, n) == PartitionPoint(p, lo, hi)
    {
      var mid := lo + (hi - lo) / 2;
      if p(mid) {
        hi := mid;
      } else {
        lo := mid + 1;
      }
    }
  }

  /** Two searches that see the same hits land on the same index. */
  lemma {:induction false} PartitionPointSame(p: nat -> bool, q: nat -> bool, lo: nat, hi: nat)
    requires lo <= hi
    requires forall i :: lo <= i < hi ==> p(i) == q(i)
    ensures PartitionPoint(p, lo, hi) == PartitionPoint(q, lo, hi)
    decreases hi - lo
  {
    if lo < hi {
      var mid := lo + (hi - lo) / 2;
      assert p(mid) == q(mid);
      if p(mid) {
        PartitionPointSame(p, q, lo, mid);
      } else {
        PartitionPointSame(p, q, mid + 1, hi);
      }
    }
  }

  /** When hits are upward closed the search lands on the first of them. */
  lemma {:induction false} PartitionPointCorrect(p: nat -> bool, lo: nat, hi: nat)
    requires lo <= hi && UpwardClosed(p, lo, hi)
    ensures forall i :: lo <= i < PartitionPoint(p, lo, hi) ==> !p(i)
    ensures forall i :: PartitionPoint(p, lo, hi) <= i < hi ==> p(i)
    decreases hi - lo
  {
    if lo < hi {
      var mid := lo + (hi - lo) / 2;
      if p(mid) {
        PartitionPointCorrect(p, lo, mid);
      } else {
        PartitionPointCorrect(p, mid + 1, hi);
      }
    }
  }

  /** The partition point is the only index that separates misses from hits. */
  lemma PartitionPointUnique(p: nat -> bool, lo: nat, hi: nat, r: nat)
    requires lo <= r <= hi
    requires forall i :: lo <= i < r ==> !p(i)
    requires forall i :: r <= i < hi ==> p(i)
    ensures PartitionPoint(p, lo, hi) == r
  {
    PartitionPointCorrect(p, lo, hi);
    var q := PartitionPoint(p, lo, hi);
    assert q < hi ==> p(q);
    assert r < hi ==> p(r);
  }
}
