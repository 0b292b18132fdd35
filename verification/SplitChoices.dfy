/** bucket_layout.hpp, where a sorted sample is cut: at the targets of the plan, moved to the ends of runs of equals. */
module SplitChoices {
  import opened Sequences
  import opened Arithmetic
  import opened BucketPlans

  // --- desired positions --------------------------------------------------------

  /** desired[j] lies after the first j + 1 target sizes, scaled from `n` elements to `s` sampled ones. */
  ghost predicate Desired(targets: seq<nat>, s: nat, n: nat, desired: seq<nat>)
    requires 0 < n
  {
    && |desired| == |targets| - 1
    && forall j :: 0 <= j < |desired| ==> desired[j] == Sum(targets[..j + 1]) * s / n
  }

  /** The loop over the targets; every desired position lies inside the sample. */
  method DesiredPositions(targets: seq<nat>, s: nat, n: nat) returns (desired: seq<nat>)
    requires 0 < s && 0 < n && Sum(targets) == n && AllPositive(targets) && targets != []
    ensures Desired(targets, s, n, desired)
    ensures forall q :: q in desired ==> q < s
  {
    desired := [];
    var cumulative := 0;
    for j := 0 to |targets| - 1
      invariant |desired| == j && cumulative == Sum(targets[..j])
      invariant forall i :: 0 <= i < j ==> desired[i] == Sum(targets[..i + 1]) * s / n
      invariant forall q :: q in desired ==> q < s
    {
      assert targets[..j + 1][..j] == targets[..j];
      cumulative := cumulative + targets[j];
      PartialSum(targets, j + 1);
      ScaledInside(cumulative, n, s);
      desired := desired + [cumulative * s / n];
    }
  }

  lemma PartialSum(t: seq<nat>, j: nat)
    requires AllPositive(t) && j < |t|
    ensures Sum(t[..j]) < Sum(t)
  {
    assert t == t[..j] + t[j..];
    SumConcat(t[..j], t[j..]);
    assert Sum(t[j..]) >= t[|t| - 1];
  }

  // --- actual positions -----------------------------------------------------------

  /** Start of the run `q` lies in if it can be used, its end if that can be used and is closer; else 0. */
  function NearestEnd(q: nat, lo: nat, hi: nat, s: nat, previous: nat): (best: nat)
    requires lo <= q < hi <= s && q < s
    ensures best == 0 || (previous < best < s && (best == lo || best == hi))
    ensures previous < lo && previous < hi < s ==> best != 0 && (if hi - q < q - lo then best == hi else best == lo)
    ensures best == 0 <==> lo <= previous && (hi <= previous || hi == s)
  {
    var first := if lo > previous then lo else 0;
    if hi < s && hi > previous && (first == 0 || hi - q < q - lo) then hi else first
  }

  ghost predicate SplitPositions(out: seq<nat>, s: nat) {
    && (forall i :: 0 <= i < |out| ==> 0 < out[i] < s)
    && (forall i, j :: 0 <= i < j < |out| ==> out[i] < out[j])
  }

  ghost predicate IsRunEnd(p: nat, desired: seq<nat>, runStart: nat -> nat, runEnd: nat -> nat) {
    exists q :: q in desired && (p == runStart(q) || p == runEnd(q))
  }

  /** The position taken before the j-th, zero before the first. */
  function Before(out: seq<nat>, j: nat): nat
    requires j <= |out|
  {
    if j == 0 then 0 else out[j - 1]
  }

  /**
   With `taken` positions so far, the desired position `q` contributes the closer usable end of its run as
   the next one, or nothing if neither end is usable.
   */
  ghost predicate Contributes(out: seq<nat>, taken: nat, taken': nat, q: nat, s: nat, runStart: nat -> nat,
                              runEnd: nat -> nat)
  {
    && taken <= taken' <= |out| && runStart(q) <= q < runEnd(q) <= s
    && var best := NearestEnd(q, runStart(q), runEnd(q), s, Before(out, taken));
       if best == 0 then taken' == taken else taken' == taken + 1 && out[taken] == best
  }

  /** Every desired position in turn contributes; taken[k] positions come from the first k. */
  ghost predicate Contributed(out: seq<nat>, taken: seq<nat>, desired: seq<nat>, s: nat, runStart: nat -> nat,
                              runEnd: nat -> nat)
  {
    && |taken| <= |desired| + 1 && taken != [] && taken[0] == 0 && taken[|taken| - 1] == |out|
    && forall k :: 0 < k < |taken| ==>
         Contributes(out, taken[k - 1], taken[k], desired[k - 1], s, runStart, runEnd)
  }

  method ChooseSplitPositions(desired: seq<nat>, s: nat, runStart: nat -> nat, runEnd: nat -> nat)
    returns (out: seq<nat>, ghost taken: seq<nat>)
    requires forall q :: q in desired ==> runStart(q) <= q < runEnd(q) <= s
    ensures |out| <= |desired| && SplitPositions(out, s)
    ensures forall i :: 0 <= i < |out| ==> IsRunEnd(out[i], desired, runStart, runEnd)
    ensures |taken| == |desired| + 1 && Contributed(out, taken, desired, s, runStart, runEnd)
  {
    out, taken := [], [0];
    for k := 0 to |desired|
      invariant |out| <= k && |taken| == k + 1 && SplitPositions(out, s)
      invariant forall i :: 0 <= i < |out| ==> IsRunEnd(out[i], desired, runStart, runEnd)
      invariant Contributed(out, taken, desired, s, runStart, runEnd)
    {
      var q := desired[k];
      assert q in desired;
      var best := NearestEnd(q, runStart(q), runEnd(q), s, Before(out, |out|));
      NextContributes(out, taken, desired, s, runStart, runEnd, best);
      if best != 0 {
        assert IsRunEnd(best, desired, runStart, runEnd);
        NextSplitPosition(out, s, best);
        out := out + [best];
      }
      taken := taken + [|out|];
    }
  }

  lemma NextSplitPosition(out: seq<nat>, s: nat, best: nat)
    requires SplitPositions(out, s) && Before(out, |out|) < best < s
    ensures SplitPositions(out + [best], s)
  {
  }

  lemma NextContributes(out: seq<nat>, taken: seq<nat>, desired: seq<nat>, s: nat, runStart: nat -> nat,
                        runEnd: nat -> nat, best: nat)
    requires Contributed(out, taken, desired, s, runStart, runEnd) && |taken| <= |desired|
    requires var q := desired[|taken| - 1];
      runStart(q) <= q < runEnd(q) <= s && best == NearestEnd(q, runStart(q), runEnd(q), s, Before(out, |out|))
    ensures var more := if best != 0 then out + [best] else out;
      Contributed(more, taken + [|more|], desired, s, runStart, runEnd)
  {
    var more := if best != 0 then out + [best] else out;
    var taken' := taken + [|more|];
    forall k | 0 < k < |taken'|
      ensures Contributes(more, taken'[k - 1], taken'[k], desired[k - 1], s, runStart, runEnd)
    {
      if k < |taken| {
        assert Contributes(out, taken[k - 1], taken[k], desired[k - 1], s, runStart, runEnd);
      }
    }
  }

  /** Start of bucket `b` in the sorted sample. */
  function Edge(positions: seq<nat>, s: nat, b: nat): nat {
    if b == 0 then 0 else if b <= |positions| then positions[b - 1] else s
  }

  // --- no ties, nothing left out: the targets themselves ------------------------------

  /** Sampling everything, each desired position is the plan's own. */
  lemma DesiredUnscaled(targets: seq<nat>, n: nat, desired: seq<nat>, j: nat)
    requires 0 < n && Desired(targets, n, n, desired) && j < |desired|
    ensures desired[j] == Sum(targets[..j + 1])
  {
    var x := Sum(targets[..j + 1]);
    QuotientIs(x * n, n, x);
  }

  lemma DesiredAscend(targets: seq<nat>, n: nat, desired: seq<nat>)
    requires 0 < n && Desired(targets, n, n, desired) && AllPositive(targets) && Sum(targets) == n
    ensures SplitPositions(desired, n)
  {
    forall j | 0 <= j < |desired| ensures 0 < desired[j] < n {
      DesiredUnscaled(targets, n, desired, j);
      PartialSum(targets, j + 1);
      PartialSum(targets[..j + 1], 0);
    }
    forall i, j | 0 <= i < j < |desired| ensures desired[i] < desired[j] {
      DesiredUnscaled(targets, n, desired, i);
      DesiredUnscaled(targets, n, desired, j);
      PartialSum(targets[..j + 1], i + 1);
      assert targets[..j + 1][..i + 1] == targets[..i + 1];
    }
  }

  /** Where no two elements tie every desired position is taken as it is. */
  lemma {:induction false} TakenAsDesired(out: seq<nat>, taken: seq<nat>, desired: seq<nat>, s: nat,
                                          runStart: nat -> nat, runEnd: nat -> nat, k: nat)
    requires Contributed(out, taken, desired, s, runStart, runEnd) && SplitPositions(desired, s) && k < |taken|
    requires forall q :: q in desired ==> runStart(q) == q && runEnd(q) == q + 1
    ensures taken[k] == k <= |out| && out[..k] == desired[..k]
  {
    if k > 0 {
      TakenAsDesired(out, taken, desired, s, runStart, runEnd, k - 1);
      assert Contributes(out, taken[k - 1], taken[k], desired[k - 1], s, runStart, runEnd);
      var q := desired[k - 1];
      assert q in desired;
      assert k > 1 ==> out[..k - 1][k - 2] == desired[..k - 1][k - 2];
      assert Before(out, k - 1) < q;
    }
  }

  /** The distance between two neighbouring cuts is a target size. */
  lemma EdgesAreTargets(targets: seq<nat>, n: nat, positions: seq<nat>, b: nat)
    requires 0 < n && Desired(targets, n, n, positions) && Sum(targets) == n && b < |targets|
    ensures Edge(positions, n, b + 1) - Edge(positions, n, b) == targets[b]
  {
    assert targets[..|targets|] == targets;
    assert targets[..b + 1][..b] == targets[..b];
    if b > 0 {
      DesiredUnscaled(targets, n, positions, b - 1);
    }
    if b < |positions| {
      DesiredUnscaled(targets, n, positions, b);
    }
  }
}
