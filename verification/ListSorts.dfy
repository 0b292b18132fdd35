/** What the list sort of godot_sort.h computes, on plain sequences. */
module ListSorts {
  import opened Orders

  /** Merge sort; of an odd number the left half gets one more. */
  function ListSorted<X>(c: Comparator<X>, s: seq<X>): seq<X>
    decreases |s|
  {
    if |s| < 2 then s
    else Merge(c, ListSorted(c, s[..(|s| + 1) / 2]), ListSorted(c, s[(|s| + 1) / 2..]))
  }

  /** The last position of the ascending run that starts at `k`. */
  function RunEnd<X>(c: Comparator<X>, s: seq<X>, k: nat): (r: nat)
    requires k < |s|
    ensures k <= r < |s|
    decreases |s| - k
  {
    if k == |s| - 1 || c(s[k], s[k + 1]) > 0 then k else RunEnd(c, s, k + 1)
  }

  /** The whole sort: an ascending prefix is kept, the rest sorted and merged into it. */
  function PrefixSorted<X>(c: Comparator<X>, s: seq<X>): seq<X> {
    if s == [] || RunEnd(c, s, 0) == |s| - 1 then s
    else Merge(c, s[..RunEnd(c, s, 0) + 1], ListSorted(c, s[RunEnd(c, s, 0) + 1..]))
  }

  lemma ListSortedUnfolds<X>(c: Comparator<X>, s: seq<X>, l: seq<X>, r: seq<X>)
    requires |s| >= 2 && s == l + r && |l| == (|s| + 1) / 2
    ensures ListSorted(c, s) == Merge(c, ListSorted(c, l), ListSorted(c, r))
  {
    assert s[..|l|] == l && s[|l|..] == r;
  }

  lemma PrefixSortedUnfolds<X>(c: Comparator<X>, s: seq<X>, l: seq<X>, r: seq<X>)
    requires s == l + r && l != [] && |l| == RunEnd(c, s, 0) + 1
    ensures PrefixSorted(c, s) == if r == [] then s else Merge(c, l, ListSorted(c, r))
  {
    assert s[..|l|] == l && s[|l|..] == r;
  }

  // --- any comparator -------------------------------------------------------------------------

  lemma Halved<X>(s: seq<X>, k: nat)
    requires k <= |s|
    ensures multiset(s) == multiset(s[..k]) + multiset(s[k..])
  {
    assert s == s[..k] + s[k..];
  }

  lemma {:induction false} ListSortedPermutes<X>(c: Comparator<X>, s: seq<X>)
    ensures multiset(ListSorted(c, s)) == multiset(s) && |ListSorted(c, s)| == |s|
    decreases |s|
  {
    if |s| >= 2 {
      var k := (|s| + 1) / 2;
      ListSortedPermutes(c, s[..k]);
      ListSortedPermutes(c, s[k..]);
      MergePermutes(c, ListSorted(c, s[..k]), ListSorted(c, s[k..]));
      Halved(s, k);
    }
  }

  lemma PrefixSortedPermutes<X>(c: Comparator<X>, s: seq<X>)
    ensures multiset(PrefixSorted(c, s)) == multiset(s) && |PrefixSorted(c, s)| == |s|
  {
    if s != [] {
      var k := RunEnd(c, s, 0) + 1;
      ListSortedPermutes(c, s[k..]);
      MergePermutes(c, s[..k], ListSorted(c, s[k..]));
      Halved(s, k);
    }
  }

  // --- consistent comparators: the stable sort ----------------------------------------------------

  lemma {:induction false} ListSortedStable<X(!new)>(c: Comparator<X>, s: seq<X>)
    requires TotalPreorder(c)
    ensures StablySorted(c, s, ListSorted(c, s))
    decreases |s|
  {
    if |s| >= 2 {
      var l, r := s[..(|s| + 1) / 2], s[(|s| + 1) / 2..];
      assert s == l + r;
      ListSortedStable(c, l);
      ListSortedStable(c, r);
      HalvesStable(c, s, l, r);
    }
  }

  lemma HalvesStable<X(!new)>(c: Comparator<X>, s: seq<X>, l: seq<X>, r: seq<X>)
    requires TotalPreorder(c) && |s| >= 2 && s == l + r && |l| == (|s| + 1) / 2
    requires StablySorted(c, l, ListSorted(c, l)) && StablySorted(c, r, ListSorted(c, r))
    ensures StablySorted(c, s, ListSorted(c, s))
  {
    MergeStable(c, l, r, ListSorted(c, l), ListSorted(c, r));
    ListSortedUnfolds(c, s, l, r);
  }

  lemma {:induction false} RunAscends<X(!new)>(c: Comparator<X>, s: seq<X>, k: nat)
    requires TotalPreorder(c) && k < |s| && Ascending(c, s[..k + 1])
    ensures Ascending(c, s[..RunEnd(c, s, k) + 1])
    decreases |s| - k
  {
    if k < |s| - 1 && c(s[k], s[k + 1]) <= 0 {
      var t := s[..k + 2];
      forall i, j | 0 <= i < j < |t| ensures c(t[i], t[j]) <= 0 {
        assert i < k ==> c(s[..k + 1][i], s[..k + 1][k]) <= 0;
        assert j <= k ==> c(s[..k + 1][i], s[..k + 1][j]) <= 0;
        assert Chains(c, t[i], t[k], t[k + 1]);
      }
      RunAscends(c, s, k + 1);
    }
  }

  lemma PrefixSortedStable<X(!new)>(c: Comparator<X>, s: seq<X>)
    requires TotalPreorder(c)
    ensures StablySorted(c, s, PrefixSorted(c, s))
  {
    if s != [] {
      var k := RunEnd(c, s, 0) + 1;
      var l, r := s[..k], s[k..];
      RunAscends(c, s, 0);
      ListSortedStable(c, r);
      MergeStable(c, l, r, l, ListSorted(c, r));
      assert s == l + r;
      assert r == [] ==> l == s;
      PrefixSortedUnfolds(c, s, l, r);
    }
  }

  /** For a consistent comparator the prefix shortcut changes nothing: the result is the stable sort. */
  lemma PrefixSortedIsStableSort<X(!new)>(c: Comparator<X>, s: seq<X>)
    requires TotalPreorder(c)
    ensures PrefixSorted(c, s) == StableSort(c, s)
  {
    PrefixSortedStable(c, s);
    StableSortStable(c, s);
    StablySortedUnique(c, s, PrefixSorted(c, s), StableSort(c, s));
  }

  // --- sorting commutes with renaming ----------------------------------------------------------------

  function Mapped<X, Y>(f: X -> Y, s: seq<X>): (r: seq<Y>)
    ensures |r| == |s| && forall i :: 0 <= i < |s| ==> r[i] == f(s[i])
  {
    seq(|s|, i requires 0 <= i < |s| => f(s[i]))
  }

  /** `f` carries the decisions of `c` over to `d`. */
  ghost predicate Carries<X, Y>(f: X -> Y, c: Comparator<X>, d: Comparator<Y>, s: seq<X>) {
    forall x, y :: x in s && y in s ==> (c(x, y) <= 0 <==> d(f(x), f(y)) <= 0)
  }

  lemma {:induction false} MergeMaps<X, Y>(f: X -> Y, c: Comparator<X>, d: Comparator<Y>, s: seq<X>, t: seq<X>)
    requires forall x, y :: x in s && y in t ==> (c(x, y) <= 0 <==> d(f(x), f(y)) <= 0)
    ensures Mapped(f, Merge(c, s, t)) == Merge(d, Mapped(f, s), Mapped(f, t))
  {
    if s != [] && t != [] {
      assert s[0] in s && t[0] in t;
      if c(s[0], t[0]) <= 0 {
        MergeMaps(f, c, d, s[1..], t);
        assert Mapped(f, s)[1..] == Mapped(f, s[1..]);
        assert Mapped(f, [s[0]] + Merge(c, s[1..], t)) == [f(s[0])] + Mapped(f, Merge(c, s[1..], t));
      } else {
        MergeMaps(f, c, d, s, t[1..]);
        assert Mapped(f, t)[1..] == Mapped(f, t[1..]);
        assert Mapped(f, [t[0]] + Merge(c, s, t[1..])) == [f(t[0])] + Mapped(f, Merge(c, s, t[1..]));
      }
    }
  }

  lemma {:induction false} ListSortedMaps<X, Y>(f: X -> Y, c: Comparator<X>, d: Comparator<Y>, s: seq<X>)
    requires Carries(f, c, d, s)
    ensures Mapped(f, ListSorted(c, s)) == ListSorted(d, Mapped(f, s))
    decreases |s|
  {
    if |s| >= 2 {
      var l, r := s[..(|s| + 1) / 2], s[(|s| + 1) / 2..];
      assert s == l + r;
      ListSortedMaps(f, c, d, l);
      ListSortedMaps(f, c, d, r);
      ListSortedPermutes(c, l);
      ListSortedPermutes(c, r);
      MapsHalves(f, c, d, s, l, r, ListSorted(c, l), ListSorted(c, r));
      ListSortedUnfolds(c, s, l, r);
      MappedParts(f, l, r);
      ListSortedUnfolds(d, Mapped(f, s), Mapped(f, l), Mapped(f, r));
    }
  }

  lemma MappedParts<X, Y>(f: X -> Y, l: seq<X>, r: seq<X>)
    ensures Mapped(f, l + r) == Mapped(f, l) + Mapped(f, r)
  {
  }

  lemma MapsHalves<X,
                         Y>(f: X -> Y, c: Comparator<X>, d: Comparator<Y>, s: seq<X>, l: seq<X>, r: seq<X>,
                         l': seq<X>, r': seq<X>)
    requires Carries(f, c, d, s) && s == l + r && multiset(l') == multiset(l) && multiset(r') == multiset(r)
    ensures Mapped(f, Merge(c, l', r')) == Merge(d, Mapped(f, l'), Mapped(f, r'))
  {
    forall x, y | x in l' && y in r' ensures c(x, y) <= 0 <==> d(f(x), f(y)) <= 0 {
      assert x in multiset(l') && y in multiset(r');
      assert x in s && y in s;
    }
    MergeMaps(f, c, d, l', r');
  }

  lemma {:induction false} RunEndMaps<X, Y>(f: X -> Y, c: Comparator<X>, d: Comparator<Y>, s: seq<X>, k: nat)
    requires Carries(f, c, d, s) && k < |s|
    ensures RunEnd(c, s, k) == RunEnd(d, Mapped(f, s), k)
    decreases |s| - k
  {
    if k < |s| - 1 {
      assert s[k] in s && s[k + 1] in s;
      RunEndMaps(f, c, d, s, k + 1);
    }
  }

  lemma PrefixSortedMaps<X, Y>(f: X -> Y, c: Comparator<X>, d: Comparator<Y>, s: seq<X>)
    requires Carries(f, c, d, s)
    ensures Mapped(f, PrefixSorted(c, s)) == PrefixSorted(d, Mapped(f, s))
  {
    if s != [] {
      RunEndMaps(f, c, d, s, 0);
      var k := RunEnd(c, s, 0) + 1;
      var l, r := s[..k], s[k..];
      ListSortedMaps(f, c, d, r);
      ListSortedPermutes(c, r);
      assert s == l + r;
      MapsHalves(f, c, d, s, l, r, l, ListSorted(c, r));
      PrefixSortedUnfolds(c, s, l, r);
      MappedParts(f, l, r);
      PrefixSortedUnfolds(d, Mapped(f, s), Mapped(f, l), Mapped(f, r));
    }
  }
}
