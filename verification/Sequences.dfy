/** Vocabulary shared by the model: filtering, distinctness, pairwise relations and slot ranges. */
module Sequences {

  datatype Option<+X> = None | Some(value: X)

  function Min(a: nat, b: nat): nat {
    if a < b then a else b
  }

  function Max(a: nat, b: nat): nat {
    if a < b then b else a
  }

  function Iota(lo: nat, hi: nat): (s: seq<nat>)
    requires lo <= hi
    ensures |s| == hi - lo
    ensures forall i :: 0 <= i < |s| ==> s[i] == lo + i
  {
    seq(hi - lo, i requires i >= 0 => lo + i)
  }

  /** Holds always. Guards the body of a predicate that the verifier should open only on request. */
  ghost predicate Opened(u: int) {
    true
  }

  ghost predicate NoDup<X>(s: seq<X>) {
    forall i, j :: 0 <= i < j < |s| ==> s[i] != s[j]
  }

  ghost predicate Pairwise<X>(r: (X, X) -> bool, s: seq<X>) {
    forall i, j :: 0 <= i < j < |s| ==> r(s[i], s[j])
  }

  ghost function Elements<X>(s: seq<X>): set<X> {
    set x | x in s
  }

  /** `order` lists every slot below `n` exactly once. */
  ghost predicate IsPermutation(order: seq<nat>, n: nat) {
    && |order| == n
    && NoDup(order)
    && forall i :: 0 <= i < n ==> order[i] < n
  }

  /** The elements satisfying `p`, in order. Grows at the end, as the loops that filter do. */
  function Filter<X>(p: X -> bool, s: seq<X>): seq<X> {
    if s == [] then []
    else Filter(p, s[..|s| - 1]) + (if p(s[|s| - 1]) then [s[|s| - 1]] else [])
  }

  function Reverse<X>(s: seq<X>): (r: seq<X>)
    ensures |r| == |s|
    ensures forall i :: 0 <= i < |s| ==> r[i] == s[|s| - 1 - i]
  {
    seq(|s|, i requires 0 <= i < |s| => s[|s| - 1 - i])
  }

  /** Elements picked by position. */
  function Reordered<X>(items: seq<X>, slots: seq<nat>): (r: seq<X>)
    requires forall i :: 0 <= i < |slots| ==> slots[i] < |items|
    ensures |r| == |slots| && forall i :: 0 <= i < |r| ==> r[i] == items[slots[i]]
  {
    seq(|slots|, i requires 0 <= i < |slots| => items[slots[i]])
  }

  lemma {:induction false} FilterMembers<X>(p: X -> bool, s: seq<X>)
    ensures forall x :: x in Filter(p, s) <==> x in s && p(x)
    ensures |Filter(p, s)| <= |s|
  {
    if s != [] {
      var t := s[..|s| - 1];
      FilterMembers(p, t);
      assert s == t + [s[|s| - 1]];
    }
  }

  lemma {:induction false} FilterMember<X>(p: X -> bool, s: seq<X>, x: X)
    ensures x in Filter(p, s) <==> x in s && p(x)
  {
    FilterMembers(p, s);
  }

  lemma FilterAt<X>(p: X -> bool, s: seq<X>, i: nat)
    requires i < |Filter(p, s)|
    ensures Filter(p, s)[i] in s && p(Filter(p, s)[i])
  {
    FilterMembers(p, s);
    var f := Filter(p, s);
    assert f[i] in f;
  }

  lemma FilterOrigin<X>(p: X -> bool, s: seq<X>, i: nat) returns (k: nat)
    requires i < |Filter(p, s)|
    ensures k < |s| && s[k] == Filter(p, s)[i] && p(s[k])
  {
    FilterAt(p, s, i);
    k :| 0 <= k < |s| && s[k] == Filter(p, s)[i];
  }

  /** Pairs of a filtered sequence come from pairs of the sequence. */
  lemma {:induction false} FilterPairwise<X>(p: X -> bool, r: (X, X) -> bool, s: seq<X>)
    requires forall i, j :: 0 <= i < j < |s| && p(s[i]) && p(s[j]) ==> r(s[i], s[j])
    ensures Pairwise(r, Filter(p, s))
  {
    if s != [] {
      var t := s[..|s| - 1];
      FilterPairwise(p, r, t);
      var f := Filter(p, t);
      forall i | 0 <= i < |f| && p(s[|s| - 1]) ensures r(f[i], s[|s| - 1]) {
        var k := FilterOrigin(p, t, i);
        assert s[k] == f[i];
      }
    }
  }

  lemma {:induction false} FilterNoDup<X>(p: X -> bool, s: seq<X>)
    requires NoDup(s)
    ensures NoDup(Filter(p, s))
  {
    if s != [] {
      var t := s[..|s| - 1];
      FilterNoDup(p, t);
      FilterMembers(p, t);
    }
  }

  lemma {:induction false} FilterConcat<X>(p: X -> bool, s: seq<X>, t: seq<X>)
    ensures Filter(p, s + t) == Filter(p, s) + Filter(p, t)
  {
    if t == [] {
      assert s + t == s;
    } else {
      var u := t[..|t| - 1];
      FilterConcat(p, s, u);
      assert (s + t)[..|s + t| - 1] == s + u;
    }
  }

  lemma FilterThree<X>(p: X -> bool, a: seq<X>, b: seq<X>, c: seq<X>)
    ensures Filter(p, a + b + c) == Filter(p, a) + Filter(p, b) + Filter(p, c)
  {
    FilterConcat(p, a + b, c);
    FilterConcat(p, a, b);
  }

  lemma ThreeSlices<X>(s: seq<X>, lo: nat, hi: nat)
    requires lo <= hi <= |s|
    ensures s == s[0..lo] + s[lo..hi] + s[hi..]
  {
  }

  lemma SliceOfPrefix<X>(s: seq<X>, n: nat, lo: nat, hi: nat)
    requires lo <= hi <= n <= |s|
    ensures s[..n][lo..hi] == s[lo..hi]
  {
  }

  lemma LastOfSlice<X>(s: seq<X>, lo: nat)
    requires lo < |s|
    ensures s[lo..|s|] == s[..|s| - 1][lo..|s| - 1] + [s[|s| - 1]]
  {
  }

  /** If `p` holds on exactly one stretch, filtering takes that stretch. */
  lemma {:induction false} FilterOneStretch<X>(p: X -> bool, s: seq<X>, lo: nat, hi: nat)
    requires lo <= hi <= |s| && forall i :: 0 <= i < |s| ==> (p(s[i]) <==> lo <= i < hi)
    ensures Filter(p, s) == s[lo..hi]
  {
    if s != [] {
      var t, n := s[..|s| - 1], |s| - 1;
      if lo > n {
        FilterOneStretch(p, t, n, n);
      } else if hi > n {
        FilterOneStretch(p, t, lo, n);
        LastOfSlice(s, lo);
      } else {
        FilterOneStretch(p, t, lo, hi);
        SliceOfPrefix(s, n, lo, hi);
      }
    }
  }

  lemma {:induction false} FilterSame<X>(p: X -> bool, q: X -> bool, s: seq<X>)
    requires forall x :: x in s ==> p(x) == q(x)
    ensures Filter(p, s) == Filter(q, s)
  {
    if s != [] {
      var t, last := s[..|s| - 1], s[|s| - 1];
      assert s == t + [last] && last in s;
      FilterSame(p, q, t);
    }
  }

  lemma {:induction false} FilterAll<X>(p: X -> bool, s: seq<X>)
    requires forall x :: x in s ==> p(x)
    ensures Filter(p, s) == s
  {
    if s != [] {
      var t, last := s[..|s| - 1], s[|s| - 1];
      assert s == t + [last] && last in s;
      FilterAll(p, t);
    }
  }

  lemma {:induction false} FilterNone<X>(p: X -> bool, s: seq<X>)
    requires forall x :: x in s ==> !p(x)
    ensures Filter(p, s) == []
  {
    if s != [] {
      var t, last := s[..|s| - 1], s[|s| - 1];
      assert s == t + [last] && last in s;
      FilterNone(p, t);
    }
  }

  lemma {:induction false} NoDupCardinality<X>(s: seq<X>)
    requires NoDup(s)
    ensures |Elements(s)| == |s|
  {
    if s != [] {
      var t := s[..|s| - 1];
      NoDupCardinality(t);
      assert Elements(s) == Elements(t) + {s[|s| - 1]};
      assert s[|s| - 1] !in Elements(t);
    }
  }

  lemma {:induction false} IotaElements(n: nat)
    ensures NoDup(Iota(0, n))
    ensures |Elements(Iota(0, n))| == n
    ensures forall x: nat :: x in Elements(Iota(0, n)) <==> x < n
  {
    NoDupCardinality(Iota(0, n));
    forall x: nat | x < n ensures x in Iota(0, n) {
      assert Iota(0, n)[x] == x;
    }
  }

  /** Pigeonhole: distinct slots below `n`, `n` of them, miss none. */
  lemma PermutationCovers(order: seq<nat>, n: nat)
    requires IsPermutation(order, n)
    ensures forall x: nat :: x < n <==> x in order
  {
    NoDupCardinality(order);
    IotaElements(n);
    var all := Elements(Iota(0, n));
    SubsetSameSize(Elements(order), all);
    forall x: nat ensures x < n <==> x in order {
      assert x in all <==> x < n;
      assert x in Elements(order) <==> x in order;
    }
  }

  lemma SubsetSameSize<X>(a: set<X>, b: set<X>)
    requires a <= b && |a| == |b|
    ensures a == b
  {
    assert |b - a| == |b| - |a|;
    assert b == a + (b - a);
  }

  /** Two duplicate-free sequences over the same elements have the same length. */
  lemma SameElementsSameLength<X>(s: seq<X>, t: seq<X>)
    requires NoDup(s) && NoDup(t)
    requires forall x :: x in s <==> x in t
    ensures |s| == |t|
  {
    NoDupCardinality(s);
    NoDupCardinality(t);
    assert Elements(s) == Elements(t);
  }

  /** Rearranging distinct elements keeps them distinct. */
  lemma NoDupTransfers<X>(s: seq<X>, t: seq<X>)
    requires NoDup(s) && multiset(s) == multiset(t)
    ensures NoDup(t)
  {
    NoDupCardinality(s);
    forall x ensures x in t <==> x in s {
      assert x in multiset(t) <==> x in multiset(s);
    }
    assert Elements(t) == Elements(s);
    assert |multiset(s)| == |multiset(t)|;
    FullSetNoDup(t);
  }

  /** A sequence with as many distinct elements as positions repeats none. */
  lemma {:induction false} FullSetNoDup<X>(t: seq<X>)
    requires |Elements(t)| == |t|
    ensures NoDup(t)
  {
    if t != [] {
      var u, last := t[..|t| - 1], t[|t| - 1];
      assert Elements(t) == Elements(u) + {last};
      ElementsAtMost(u);
      FullSetNoDup(u);
    }
  }

  lemma {:induction false} ElementsAtMost<X>(t: seq<X>)
    ensures |Elements(t)| <= |t|
  {
    if t != [] {
      var u, last := t[..|t| - 1], t[|t| - 1];
      ElementsAtMost(u);
      assert Elements(t) == Elements(u) + {last};
    }
  }

  lemma PermutationTransfers(s: seq<nat>, t: seq<nat>, n: nat)
    requires IsPermutation(s, n) && multiset(s) == multiset(t)
    ensures IsPermutation(t, n)
  {
    assert |multiset(s)| == |multiset(t)|;
    NoDupTransfers(s, t);
    forall i | 0 <= i < |t| ensures t[i] < n {
      assert t[i] in multiset(t);
      assert t[i] in s;
    }
  }

  lemma SliceAt<X>(s: seq<X>, lo: nat, hi: nat, k: nat)
    requires lo <= hi <= |s| && k < hi - lo
    ensures s[lo..hi][k] == s[lo + k]
  {
  }
}
