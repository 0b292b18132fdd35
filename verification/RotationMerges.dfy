/** dolphin_sort.h, merge: merging two adjacent runs by rotating their inner halves past each other. */
module RotationMerges {
  import opened Sequences
  import opened Orders
  import opened Searching

  type Less<!X> = (X, X) -> bool

  /** The three-way comparison a "less than" stands for. */
  function Sign<X>(less: Less<X>): Comparator<X> {
    (x, y) => if less(y, x) then 1 else if less(x, y) then -1 else 0
  }

  /** Strict weak order: asymmetric, and "not less" is transitive. */
  ghost predicate StrictWeakOrder<X(!new)>(less: Less<X>) {
    && (forall x, y :: less(x, y) ==> !less(y, x))
    && (forall x, y, z :: NotLessChains(less, x, y, z))
  }

  ghost predicate NotLessChains<X>(less: Less<X>, x: X, y: X, z: X) {
    !less(x, y) && !less(y, z) ==> !less(x, z)
  }

  lemma SignIsPreorder<X(!new)>(less: Less<X>)
    requires StrictWeakOrder(less)
    ensures TotalPreorder(Sign(less))
    ensures forall x, y :: Sign(less)(x, y) <= 0 <==> !less(y, x)
  {
    var c := Sign(less);
    forall x, y, z ensures Chains(c, x, y, z) {
      assert NotLessChains(less, z, y, x);
    }
  }

  // --- where the runs are cut -------------------------------------------------------------

  function NotLessThan<X>(less: Less<X>, s: seq<X>, v: X): nat -> bool {
    (i: nat) => i < |s| ==> !less(s[i], v)
  }

  function GreaterThan<X>(less: Less<X>, s: seq<X>, v: X): nat -> bool {
    (i: nat) => i < |s| ==> less(v, s[i])
  }

  /** The longer run is halved, the other cut where the middle element belongs. */
  function CutsOf<X>(less: Less<X>, s: seq<X>, t: seq<X>): (r: (nat, nat))
    requires s != [] && t != []
    ensures r.0 <= |s| && r.1 <= |t|
    ensures |s| + |t| > 2 ==> 0 < r.0 + r.1 < |s| + |t|
  {
    if |s| > |t| then (|s| / 2, PartitionPoint(NotLessThan(less, t, s[|s| / 2]), 0, |t|))
    else (PartitionPoint(GreaterThan(less, s, t[|t| / 2]), 0, |s|), |t| / 2)
  }

  /** Opened only on request, so that few proofs look into the search. */
  ghost predicate AreCuts<X>(less: Less<X>, s: seq<X>, t: seq<X>, r: (nat, nat))
    requires s != [] && t != []
  {
    forall u {:trigger Opened(u)} :: Opened(u) ==> r == CutsOf(less, s, t)
  }

  /** CutsOf, as the functions below use it. */
  ghost function Cuts<X>(less: Less<X>, s: seq<X>, t: seq<X>): (r: (nat, nat))
    requires s != [] && t != []
    ensures r.0 <= |s| && r.1 <= |t|
    ensures |s| + |t| > 2 ==> 0 < r.0 + r.1 < |s| + |t|
  {
    assert AreCuts(less, s, t, CutsOf(less, s, t));
    var r :| AreCuts(less, s, t, r);
    assert Opened(0);
    r
  }

  lemma CutsMeans<X>(less: Less<X>, s: seq<X>, t: seq<X>)
    requires s != [] && t != []
    ensures Cuts(less, s, t) == CutsOf(less, s, t)
  {
    assert Opened(0);
  }

  ghost function RotationMerge<X>(less: Less<X>, s: seq<X>, t: seq<X>): seq<X>
    decreases |s| + |t|
  {
    if s == [] || t == [] then s + t
    else if |s| + |t| == 2 then if less(t[0], s[0]) then t + s else s + t
    else
      var (i, j) := Cuts(less, s, t);
      RotationMerge(less, s[..i], t[..j]) + RotationMerge(less, s[i..], t[j..])
  }

  ghost function MergeSorted<X>(less: Less<X>, s: seq<X>): seq<X>
    decreases |s|
  {
    if |s| < 2 then s
    else RotationMerge(less, MergeSorted(less, s[..|s| / 2]), MergeSorted(less, s[|s| / 2..]))
  }

  lemma RotationMergeUnfolds<X>(less: Less<X>, s: seq<X>, t: seq<X>, s1: seq<X>, s2: seq<X>, t1: seq<X>, t2: seq<X>)
    requires s != [] && t != [] && |s| + |t| > 2 && s == s1 + s2 && t == t1 + t2 && (|s1|, |t1|) == Cuts(less, s, t)
    ensures RotationMerge(less, s, t) == RotationMerge(less, s1, t1) + RotationMerge(less, s2, t2)
  {
    assert s[..|s1|] == s1 && s[|s1|..] == s2 && t[..|t1|] == t1 && t[|t1|..] == t2;
  }

  lemma MergeSortedUnfolds<X>(less: Less<X>, s: seq<X>, l: seq<X>, r: seq<X>)
    requires |s| >= 2 && s == l + r && |l| == |s| / 2
    ensures MergeSorted(less, s) == RotationMerge(less, MergeSorted(less, l), MergeSorted(less, r))
  {
    assert s[..|l|] == l && s[|l|..] == r;
  }

  // --- any comparator: a permutation --------------------------------------------------------

  lemma CutMultiset<X>(s: seq<X>, i: nat)
    requires i <= |s|
    ensures multiset(s[..i]) + multiset(s[i..]) == multiset(s)
  {
    assert s == s[..i] + s[i..];
  }

  lemma {:induction false} RotationMergePermutes<X>(less: Less<X>, s: seq<X>, t: seq<X>)
    ensures multiset(RotationMerge(less, s, t)) == multiset(s) + multiset(t)
    ensures |RotationMerge(less, s, t)| == |s| + |t|
    decreases |s| + |t|
  {
    if s != [] && t != [] && |s| + |t| > 2 {
      var (i, j) := Cuts(less, s, t);
      RotationMergePermutes(less, s[..i], t[..j]);
      RotationMergePermutes(less, s[i..], t[j..]);
      CutMultiset(s, i);
      CutMultiset(t, j);
    }
  }

  lemma {:induction false} MergeSortedPermutes<X>(less: Less<X>, s: seq<X>)
    ensures multiset(MergeSorted(less, s)) == multiset(s) && |MergeSorted(less, s)| == |s|
    decreases |s|
  {
    if |s| >= 2 {
      var m := |s| / 2;
      MergeSortedPermutes(less, s[..m]);
      MergeSortedPermutes(less, s[m..]);
      RotationMergePermutes(less, MergeSorted(less, s[..m]), MergeSorted(less, s[m..]));
      CutMultiset(s, m);
    }
  }

  // --- strict weak orders: the stable merge ----------------------------------------------------

  /** Nothing in `s` is above anything in `t`. */
  ghost predicate NotAbove<X>(c: Comparator<X>, s: seq<X>, t: seq<X>) {
    forall i, j :: 0 <= i < |s| && 0 <= j < |t| ==> c(s[i], t[j]) <= 0
  }

  /** Everything in `s` is above everything in `t`. */
  ghost predicate Above<X>(c: Comparator<X>, s: seq<X>, t: seq<X>) {
    forall i, j :: 0 <= i < |s| && 0 <= j < |t| ==> c(s[i], t[j]) > 0
  }

  /** `c` is a consistent comparator and `less` its "less than". */
  ghost predicate Agree<X(!new)>(c: Comparator<X>, less: Less<X>) {
    TotalPreorder(c) && forall x, y :: less(x, y) <==> c(x, y) < 0
  }

  /** The cuts separate: first parts are not above second parts, and ties stay with the left run. */
  lemma CutsSeparate<X(!new)>(c: Comparator<X>, less: Less<X>, s: seq<X>, t: seq<X>)
    requires Agree(c, less) && Ascending(c, s) && Ascending(c, t) && s != [] && t != []
    ensures var (i, j) := Cuts(less, s, t);
      NotAbove(c, s[..i], t[j..]) && Above(c, s[i..], t[..j])
  {
    CutsMeans(less, s, t);
    var (i, j) := Cuts(less, s, t);
    if |s| > |t| {
      LeftHalved(c, less, s, t, i, j);
    } else {
      RightHalved(c, less, s, t, i, j);
    }
  }

  lemma LeftHalved<X(!new)>(c: Comparator<X>, less: Less<X>, s: seq<X>, t: seq<X>, i: nat, j: nat)
    requires Agree(c, less) && Ascending(c, s) && Ascending(c, t) && i < |s|
    requires j == PartitionPoint(NotLessThan(less, t, s[i]), 0, |t|)
    ensures NotAbove(c, s[..i], t[j..]) && Above(c, s[i..], t[..j])
  {
    var v := s[i];
    var p := NotLessThan(less, t, v);
    forall x, y | 0 <= x <= y < |t| && p(x) ensures p(y) {
      Mirrors(c, t[x], v);
      Mirrors(c, t[y], v);
      assert x < y ==> Chains(c, v, t[x], t[y]);
    }
    PartitionPointCorrect(p, 0, |t|);
    forall x, y | 0 <= x < i && j <= y < |t| ensures c(s[x], t[y]) <= 0 {
      assert p(y);
      Mirrors(c, t[y], v);
      assert Chains(c, s[x], v, t[y]);
    }
    forall x, y | i <= x < |s| && 0 <= y < j ensures c(s[x], t[y]) > 0 {
      assert !p(y);
      assert x == i || c(v, s[x]) <= 0;
      Mirrors(c, v, v);
      StrictChain(c, t[y], v, s[x]);
      Mirrors(c, t[y], s[x]);
    }
    CutSeparates(c, s, t, i, j);
  }

  lemma RightHalved<X(!new)>(c: Comparator<X>, less: Less<X>, s: seq<X>, t: seq<X>, i: nat, j: nat)
    requires Agree(c, less) && Ascending(c, s) && Ascending(c, t) && j < |t|
    requires i == PartitionPoint(GreaterThan(less, s, t[j]), 0, |s|)
    ensures NotAbove(c, s[..i], t[j..]) && Above(c, s[i..], t[..j])
  {
    var v := t[j];
    var p := GreaterThan(less, s, v);
    forall x, y | 0 <= x <= y < |s| && p(x) ensures p(y) {
      if x < y {
        StrictChain(c, v, s[x], s[y]);
      }
    }
    PartitionPointCorrect(p, 0, |s|);
    forall x, y | 0 <= x < i && j <= y < |t| ensures c(s[x], t[y]) <= 0 {
      assert !p(x);
      Mirrors(c, v, s[x]);
      assert y == j || c(v, t[y]) <= 0;
      Mirrors(c, v, v);
      assert Chains(c, s[x], v, t[y]);
    }
    forall x, y | i <= x < |s| && 0 <= y < j ensures c(s[x], t[y]) > 0 {
      assert p(x);
      StrictChain(c, t[y], v, s[x]);
      Mirrors(c, t[y], s[x]);
    }
    CutSeparates(c, s, t, i, j);
  }

  lemma CutSeparates<X>(c: Comparator<X>, s: seq<X>, t: seq<X>, i: nat, j: nat)
    requires i <= |s| && j <= |t|
    requires forall x, y :: 0 <= x < i && j <= y < |t| ==> c(s[x], t[y]) <= 0
    requires forall x, y :: i <= x < |s| && 0 <= y < j ==> c(s[x], t[y]) > 0
    ensures NotAbove(c, s[..i], t[j..]) && Above(c, s[i..], t[..j])
  {
  }

  lemma AscendingParts<X>(c: Comparator<X>, s: seq<X>, i: nat)
    requires Ascending(c, s) && i <= |s|
    ensures Ascending(c, s[..i]) && Ascending(c, s[i..])
  {
  }

  /** Elements of a merge come from its runs. */
  lemma MergedFrom<X>(less: Less<X>, s: seq<X>, t: seq<X>, x: X)
    requires x in RotationMerge(less, s, t)
    ensures x in s || x in t
  {
    RotationMergePermutes(less, s, t);
    assert x in multiset(RotationMerge(less, s, t));
  }

  /** The part merged first is not above the part merged second. */
  lemma PartsInOrder<X(!new)>(c: Comparator<X>, less: Less<X>, s: seq<X>, t: seq<X>, i: nat, j: nat)
    requires Agree(c, less) && Ascending(c, s) && Ascending(c, t) && i <= |s| && j <= |t|
    requires NotAbove(c, s[..i], t[j..]) && Above(c, s[i..], t[..j])
    ensures NotAbove(c, RotationMerge(less, s[..i], t[..j]), RotationMerge(less, s[i..], t[j..]))
  {
    var s1, s2, t1, t2 := s[..i], s[i..], t[..j], t[j..];
    var a, b := RotationMerge(less, s1, t1), RotationMerge(less, s2, t2);
    forall x, y | 0 <= x < |a| && 0 <= y < |b| ensures c(a[x], b[y]) <= 0 {
      MergedFrom(less, s1, t1, a[x]);
      MergedFrom(less, s2, t2, b[y]);
      CrossingInOrder(c, s, t, i, j, a[x], b[y]);
    }
  }

  lemma CrossingInOrder<X(!new)>(c: Comparator<X>, s: seq<X>, t: seq<X>, i: nat, j: nat, a: X, b: X)
    requires TotalPreorder(c) && Ascending(c, s) && Ascending(c, t) && i <= |s| && j <= |t|
    requires NotAbove(c, s[..i], t[j..]) && Above(c, s[i..], t[..j])
    requires (a in s[..i] || a in t[..j]) && (b in s[i..] || b in t[j..])
    ensures c(a, b) <= 0
  {
    if a in s[..i] && b in s[i..] {
      var x :| 0 <= x < i && s[..i][x] == a;
      var y :| 0 <= y < |s| - i && s[i..][y] == b;
      assert s[x] == a && s[i + y] == b;
    } else if a in t[..j] && b in t[j..] {
      var x :| 0 <= x < j && t[..j][x] == a;
      var y :| 0 <= y < |t| - j && t[j..][y] == b;
      assert t[x] == a && t[j + y] == b;
    } else if a in t[..j] {
      var x :| 0 <= x < j && t[..j][x] == a;
      var y :| 0 <= y < |s| - i && s[i..][y] == b;
      Mirrors(c, b, a);
    }
  }

  lemma JoinedAscending<X>(c: Comparator<X>, a: seq<X>, b: seq<X>)
    requires Ascending(c, a) && Ascending(c, b) && NotAbove(c, a, b)
    ensures Ascending(c, a + b)
  {
  }

  lemma {:induction false} RotationMergeAscending<X(!new)>(c: Comparator<X>, less: Less<X>, s: seq<X>, t: seq<X>)
    requires Agree(c, less) && Ascending(c, s) && Ascending(c, t)
    ensures Ascending(c, RotationMerge(less, s, t))
    decreases |s| + |t|
  {
    if s != [] && t != [] {
      if |s| + |t| == 2 {
        Mirrors(c, s[0], t[0]);
      } else {
        var (i, j) := Cuts(less, s, t);
        CutsSeparate(c, less, s, t);
        AscendingParts(c, s, i);
        AscendingParts(c, t, j);
        RotationMergeAscending(c, less, s[..i], t[..j]);
        RotationMergeAscending(c, less, s[i..], t[j..]);
        PartsInOrder(c, less, s, t, i, j);
        JoinedAscending(c, RotationMerge(less, s[..i], t[..j]), RotationMerge(less, s[i..], t[j..]));
      }
    }
  }

  /** A class of ties cannot have members on both sides of a strict cut. */
  lemma TiesOnOneSide<X(!new)>(c: Comparator<X>, s: seq<X>, t: seq<X>, y: X)
    requires TotalPreorder(c) && Above(c, s, t)
    ensures Filter(Ties(c, y), s) == [] || Filter(Ties(c, y), t) == []
  {
    var p := Ties(c, y);
    if Filter(p, s) != [] && Filter(p, t) != [] {
      var a := FilterOrigin(p, s, 0);
      var b := FilterOrigin(p, t, 0);
      Mirrors(c, y, s[a]);
      StrictChain(c, s[a], y, t[b]);
      assert false;
    }
  }

  lemma {:induction false} RotationMergeKeepsTies<X(!new)>(c: Comparator<X>, less: Less<X>, s: seq<X>, t: seq<X>, y: X)
    requires Agree(c, less) && Ascending(c, s) && Ascending(c, t)
    ensures Filter(Ties(c, y), RotationMerge(less, s, t)) == Filter(Ties(c, y), s) + Filter(Ties(c, y), t)
    decreases |s| + |t|
  {
    if s == [] || t == [] {
      FilterConcat(Ties(c, y), s, t);
    } else if |s| + |t| == 2 {
      PairKeepsTies(c, less, s, t, y);
    } else {
      var (i, j) := Cuts(less, s, t);
      CutsSeparate(c, less, s, t);
      AscendingParts(c, s, i);
      AscendingParts(c, t, j);
      RotationMergeKeepsTies(c, less, s[..i], t[..j], y);
      RotationMergeKeepsTies(c, less, s[i..], t[j..], y);
      TiesOnOneSide(c, s[i..], t[..j], y);
      RotatedTies(c, less, s, t, i, j, y);
    }
  }

  lemma PairKeepsTies<X(!new)>(c: Comparator<X>, less: Less<X>, s: seq<X>, t: seq<X>, y: X)
    requires Agree(c, less) && |s| == |t| == 1
    ensures Filter(Ties(c, y), if less(t[0], s[0]) then t + s else s + t)
        == Filter(Ties(c, y), s) + Filter(Ties(c, y), t)
  {
    var p := Ties(c, y);
    FilterConcat(p, s, t);
    FilterConcat(p, t, s);
    if less(t[0], s[0]) {
      Mirrors(c, t[0], s[0]);
      TiesOnOneSide(c, s, t, y);
    }
  }

  /** Rotating the inner parts past each other keeps each class of ties in order. */
  lemma RotatedTies<X(!new)>(c: Comparator<X>, less: Less<X>, s: seq<X>, t: seq<X>, i: nat, j: nat, y: X)
    requires i <= |s| && j <= |t|
    requires Filter(Ties(c, y), s[i..]) == [] || Filter(Ties(c, y), t[..j]) == []
    requires Filter(Ties(c, y), RotationMerge(less, s[..i], t[..j]))
        == Filter(Ties(c, y), s[..i]) + Filter(Ties(c, y), t[..j])
    requires Filter(Ties(c, y), RotationMerge(less, s[i..], t[j..]))
        == Filter(Ties(c, y), s[i..]) + Filter(Ties(c, y), t[j..])
    ensures Filter(Ties(c, y), RotationMerge(less, s[..i], t[..j]) + RotationMerge(less, s[i..], t[j..]))
         == Filter(Ties(c, y), s) + Filter(Ties(c, y), t)
  {
    var p := Ties(c, y);
    var m1, m2 := RotationMerge(less, s[..i], t[..j]), RotationMerge(less, s[i..], t[j..]);
    FilterConcat(p, m1, m2);
    FilterParts(p, s, i);
    FilterParts(p, t, j);
    InnerSwap(Filter(p, s[..i]), Filter(p, t[..j]), Filter(p, s[i..]), Filter(p, t[j..]));
  }

  lemma InnerSwap<X>(a: seq<X>, b: seq<X>, c: seq<X>, d: seq<X>)
    requires b == [] || c == []
    ensures (a + b) + (c + d) == (a + c) + (b + d)
  {
  }

  lemma FilterParts<X>(p: X -> bool, s: seq<X>, i: nat)
    requires i <= |s|
    ensures Filter(p, s) == Filter(p, s[..i]) + Filter(p, s[i..])
  {
    assert s == s[..i] + s[i..];
    FilterConcat(p, s[..i], s[i..]);
  }

  lemma {:induction false} MergeSortedStablySorts<X(!new)>(c: Comparator<X>, less: Less<X>, s: seq<X>)
    requires Agree(c, less)
    ensures StablySorted(c, s, MergeSorted(less, s))
    decreases |s|
  {
    if |s| >= 2 {
      var m := |s| / 2;
      var l, r := MergeSorted(less, s[..m]), MergeSorted(less, s[m..]);
      MergeSortedStablySorts(c, less, s[..m]);
      MergeSortedStablySorts(c, less, s[m..]);
      RotationMergeAscending(c, less, l, r);
      forall y ensures Filter(Ties(c, y), RotationMerge(less, l, r)) == Filter(Ties(c, y), s) {
        RotationMergeKeepsTies(c, less, l, r, y);
        FilterParts(Ties(c, y), s, m);
      }
    }
  }

  /** For a strict weak order the result is the stable sort, which is unique. */
  lemma MergeSortedIsStable<X(!new)>(less: Less<X>, s: seq<X>)
    requires StrictWeakOrder(less)
    ensures MergeSorted(less, s) == StableSort(Sign(less), s) && StablySorted(Sign(less), s, MergeSorted(less, s))
  {
    SignIsPreorder(less);
    MergeSortedStablySorts(Sign(less), less, s);
    StableSortStable(Sign(less), s);
    StablySortedUnique(Sign(less), s, MergeSorted(less, s), StableSort(Sign(less), s));
  }
}
