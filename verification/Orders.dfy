/**
 Three-way comparators and the stable sort they define. `StableSort` is the plain reference
 (insert elements one by one, each after everything not greater); `StablySorted` says what any
 stable sort must deliver, and `StablySortedUnique` that this leaves no freedom.
 */
module Orders {
  import opened Sequences

  type Comparator<!X> = (X, X) -> int

  /** Transitivity at one triple, named so that proofs choose the triples they need. */
  ghost predicate Chains<X>(c: Comparator<X>, x: X, y: X, z: X) {
    c(x, y) <= 0 && c(y, z) <= 0 ==> c(x, z) <= 0
  }

  /** Consistent comparator: signs mirror each other and "not greater" is transitive. */
  ghost predicate TotalPreorder<X(!new)>(c: Comparator<X>) {
    && (forall x, y :: c(x, y) < 0 <==> c(y, x) > 0)
    && (forall x, y, z :: Chains(c, x, y, z))
  }

  lemma Mirrors<X(!new)>(c: Comparator<X>, x: X, y: X)
    requires TotalPreorder(c)
    ensures (c(x, y) < 0 <==> c(y, x) > 0) && (c(x, y) > 0 <==> c(y, x) < 0) && (c(x, y) == 0 <==> c(y, x) == 0)
  {
  }

  /** Transitivity, strict as soon as one of the two steps is. */
  lemma StrictChain<X(!new)>(c: Comparator<X>, x: X, y: X, z: X)
    requires TotalPreorder(c) && c(x, y) <= 0 && c(y, z) <= 0
    ensures c(x, z) <= 0
    ensures c(x, y) < 0 || c(y, z) < 0 ==> c(x, z) < 0
  {
    assert Chains(c, x, y, z) && Chains(c, z, x, y) && Chains(c, y, z, x);
    Mirrors(c, x, y);
    Mirrors(c, y, z);
    Mirrors(c, x, z);
  }

  ghost predicate Ascending<X>(c: Comparator<X>, s: seq<X>) {
    forall i, j :: 0 <= i < j < |s| ==> c(s[i], s[j]) <= 0
  }

  /** Inserts `x` after the last element that is not greater, scanning from the right. */
  function Insert<X>(c: Comparator<X>, s: seq<X>, x: X): seq<X> {
    if s == [] || c(s[|s| - 1], x) <= 0 then s + [x]
    else Insert(c, s[..|s| - 1], x) + [s[|s| - 1]]
  }

  function StableSort<X>(c: Comparator<X>, s: seq<X>): seq<X> {
    if s == [] then [] else Insert(c, StableSort(c, s[..|s| - 1]), s[|s| - 1])
  }

  /** Two-way merge that prefers the left sequence on ties. */
  function Merge<X>(c: Comparator<X>, s: seq<X>, t: seq<X>): seq<X> {
    if s == [] then t
    else if t == [] then s
    else if c(s[0], t[0]) <= 0 then [s[0]] + Merge(c, s[1..], t)
    else [t[0]] + Merge(c, s, t[1..])
  }

  /** The elements comparing equal to `x`. */
  function Ties<X>(c: Comparator<X>, x: X): X -> bool {
    y => c(x, y) == 0
  }

  /** `t` is ascending and keeps every class of ties of `s` complete and in the order of `s`. */
  ghost predicate StablySorted<X(!new)>(c: Comparator<X>, s: seq<X>, t: seq<X>) {
    && Ascending(c, t)
    && forall x :: Filter(Ties(c, x), t) == Filter(Ties(c, x), s)
  }

  // --- permutation, for every comparator -----------------------------------

  lemma {:induction false} InsertPermutes<X>(c: Comparator<X>, s: seq<X>, x: X)
    ensures multiset(Insert(c, s, x)) == multiset(s) + multiset{x}
    ensures |Insert(c, s, x)| == |s| + 1
  {
    if s != [] && c(s[|s| - 1], x) > 0 {
      InsertPermutes(c, s[..|s| - 1], x);
      assert s == s[..|s| - 1] + [s[|s| - 1]];
    }
  }

  lemma {:induction false} StableSortPermutes<X>(c: Comparator<X>, s: seq<X>)
    ensures multiset(StableSort(c, s)) == multiset(s)
    ensures |StableSort(c, s)| == |s|
  {
    if s != [] {
      StableSortPermutes(c, s[..|s| - 1]);
      InsertPermutes(c, StableSort(c, s[..|s| - 1]), s[|s| - 1]);
      assert s == s[..|s| - 1] + [s[|s| - 1]];
    }
  }

  lemma {:induction false} MergePermutes<X>(c: Comparator<X>, s: seq<X>, t: seq<X>)
    ensures multiset(Merge(c, s, t)) == multiset(s) + multiset(t)
    ensures |Merge(c, s, t)| == |s| + |t|
  {
    if s != [] && t != [] {
      if c(s[0], t[0]) <= 0 {
        MergePermutes(c, s[1..], t);
        assert s == [s[0]] + s[1..];
      } else {
        MergePermutes(c, s, t[1..]);
        assert t == [t[0]] + t[1..];
      }
    }
  }

  // --- sortedness and stability, for consistent comparators ------------------

  lemma {:induction false} InsertAscending<X(!new)>(c: Comparator<X>, s: seq<X>, x: X)
    requires TotalPreorder(c) && Ascending(c, s)
    ensures Ascending(c, Insert(c, s, x))
  {
    if s == [] {
    } else if c(s[|s| - 1], x) <= 0 {
      forall i | 0 <= i < |s| - 1 ensures c(s[i], x) <= 0 {
        assert Chains(c, s[i], s[|s| - 1], x);
      }
    } else {
      var t, last := s[..|s| - 1], s[|s| - 1];
      InsertAscending(c, t, x);
      InsertPermutes(c, t, x);
      var u := Insert(c, t, x);
      forall i | 0 <= i < |u| ensures c(u[i], last) <= 0 {
        assert u[i] in multiset(u);
        assert u[i] in t || u[i] == x;
      }
    }
  }

  lemma {:induction false} InsertKeepsTies<X(!new)>(c: Comparator<X>, s: seq<X>, x: X, y: X)
    requires TotalPreorder(c)
    ensures Filter(Ties(c, y), Insert(c, s, x)) == Filter(Ties(c, y), s + [x])
  {
    if s != [] && c(s[|s| - 1], x) > 0 {
      var t, last, p := s[..|s| - 1], s[|s| - 1], Ties(c, y);
      InsertKeepsTies(c, t, x, y);
      FilterConcat(p, Insert(c, t, x), [last]);
      FilterConcat(p, t, [x]);
      FilterConcat(p, t, [last]);
      FilterConcat(p, s, [x]);
      assert s == t + [last];
      assert Chains(c, last, y, x);
      assert !p(last) || !p(x);
    }
  }

  lemma {:induction false} StableSortStable<X(!new)>(c: Comparator<X>, s: seq<X>)
    requires TotalPreorder(c)
    ensures StablySorted(c, s, StableSort(c, s))
  {
    if s != [] {
      var t, last := s[..|s| - 1], s[|s| - 1];
      StableSortStable(c, t);
      InsertAscending(c, StableSort(c, t), last);
      assert s == t + [last];
      forall y ensures Filter(Ties(c, y), StableSort(c, s)) == Filter(Ties(c, y), s) {
        InsertKeepsTies(c, StableSort(c, t), last, y);
        FilterConcat(Ties(c, y), t, [last]);
        FilterConcat(Ties(c, y), StableSort(c, t), [last]);
      }
    }
  }

  lemma {:induction false} MergeAscending<X(!new)>(c: Comparator<X>, s: seq<X>, t: seq<X>)
    requires TotalPreorder(c) && Ascending(c, s) && Ascending(c, t)
    ensures Ascending(c, Merge(c, s, t))
  {
    if s != [] && t != [] {
      if c(s[0], t[0]) <= 0 {
        MergeAscending(c, s[1..], t);
        BelowMerge(c, s[0], s[1..], t);
      } else {
        MergeAscending(c, s, t[1..]);
        BelowMerge(c, t[0], s, t[1..]);
      }
    }
  }

  lemma BelowMerge<X(!new)>(c: Comparator<X>, x: X, s: seq<X>, t: seq<X>)
    requires TotalPreorder(c) && Ascending(c, s) && Ascending(c, t)
    requires (s != [] ==> c(x, s[0]) <= 0) && (t != [] ==> c(x, t[0]) <= 0)
    ensures forall i :: 0 <= i < |Merge(c, s, t)| ==> c(x, Merge(c, s, t)[i]) <= 0
  {
    MergePermutes(c, s, t);
    var m := Merge(c, s, t);
    forall i | 0 <= i < |m| ensures c(x, m[i]) <= 0 {
      assert m[i] in multiset(m);
      if m[i] in s {
        var k :| 0 <= k < |s| && s[k] == m[i];
        assert Chains(c, x, s[0], s[k]);
      } else {
        var k :| 0 <= k < |t| && t[k] == m[i];
        assert Chains(c, x, t[0], t[k]);
      }
    }
  }

  lemma {:induction false} MergeKeepsTies<X(!new)>(c: Comparator<X>, s: seq<X>, t: seq<X>, y: X)
    requires TotalPreorder(c) && Ascending(c, s)
    ensures Filter(Ties(c, y), Merge(c, s, t)) == Filter(Ties(c, y), s + t)
  {
    var p := Ties(c, y);
    if s == [] {
      assert s + t == t;
    } else if t == [] {
      assert s + t == s;
    } else if c(s[0], t[0]) <= 0 {
      MergeKeepsTies(c, s[1..], t, y);
      assert s + t == [s[0]] + (s[1..] + t);
      FilterConcat(p, [s[0]], Merge(c, s[1..], t));
      FilterConcat(p, [s[0]], s[1..] + t);
    } else {
      MergeKeepsTies(c, s, t[1..], y);
      FilterConcat(p, [t[0]], Merge(c, s, t[1..]));
      FilterConcat(p, [t[0]], s + t[1..]);
      assert t == [t[0]] + t[1..];
      if p(t[0]) {
        forall x | x in s ensures !p(x) {
          var k :| 0 <= k < |s| && s[k] == x;
          assert Chains(c, s[0], x, y) && Chains(c, s[0], y, t[0]);
        }
      }
      FilterPassesOver(p, t[0], s, t[1..]);
    }
  }

  /** An element may pass over others that are not in its class without changing the class. */
  lemma FilterPassesOver<X>(p: X -> bool, x: X, s: seq<X>, t: seq<X>)
    requires p(x) ==> forall y :: y in s ==> !p(y)
    ensures Filter(p, [x] + (s + t)) == Filter(p, s + ([x] + t))
  {
    FilterConcat(p, [x], s + t);
    FilterConcat(p, s, t);
    FilterConcat(p, s, [x] + t);
    FilterConcat(p, [x], t);
    if p(x) {
      FilterNone(p, s);
    }
  }

  /** A stable sort is determined by its input: two stably sorted outputs are equal. */
  lemma {:induction false} StablySortedUnique<X(!new)>(c: Comparator<X>, s: seq<X>, t: seq<X>, u: seq<X>)
    requires TotalPreorder(c) && StablySorted(c, s, t) && StablySorted(c, s, u)
    ensures t == u
  {
    SameTies(c, t, u);
  }

  lemma {:induction false} SameTies<X(!new)>(c: Comparator<X>, t: seq<X>, u: seq<X>)
    requires TotalPreorder(c) && Ascending(c, t) && Ascending(c, u)
    requires forall x :: Filter(Ties(c, x), t) == Filter(Ties(c, x), u)
    ensures t == u
  {
    if t == [] && u == [] {
    } else if t == [] {
      LastSurvives(c, u, t);
    } else if u == [] {
      LastSurvives(c, t, u);
    } else {
      LastSurvives(c, t, u);
      LastSurvives(c, u, t);
      var a, b := t[|t| - 1], u[|u| - 1];
      assert c(a, b) == 0;
      assert Filter(Ties(c, a), t) == Filter(Ties(c, a), t[..|t| - 1]) + [a];
      assert Filter(Ties(c, a), u) == Filter(Ties(c, a), u[..|u| - 1]) + [b];
      assert a == b by {
        assert Filter(Ties(c, a), t)[|Filter(Ties(c, a), t)| - 1] == a;
      }
      forall x ensures Filter(Ties(c, x), t[..|t| - 1]) == Filter(Ties(c, x), u[..|u| - 1]) {
        assert Filter(Ties(c, x), t) == Filter(Ties(c, x), u);
        CancelSuffix(Filter(Ties(c, x), t[..|t| - 1]), Filter(Ties(c, x), u[..|u| - 1]), if Ties(c, x)(a) then [a]
            else []);
      }
      SameTies(c, t[..|t| - 1], u[..|u| - 1]);
    }
  }

  lemma CancelSuffix<X>(s: seq<X>, t: seq<X>, u: seq<X>)
    requires s + u == t + u
    ensures s == t
  {
    assert s == (s + u)[..|s|] && t == (t + u)[..|t|];
  }

  /** The last element of `t` occurs in `u`, so it is not above the last of `u`. */
  lemma LastSurvives<X(!new)>(c: Comparator<X>, t: seq<X>, u: seq<X>)
    requires TotalPreorder(c) && Ascending(c, u) && t != []
    requires forall x :: Filter(Ties(c, x), t) == Filter(Ties(c, x), u)
    ensures u != [] && c(t[|t| - 1], u[|u| - 1]) <= 0
  {
    var a := t[|t| - 1];
    assert c(a, a) == 0;
    FilterMember(Ties(c, a), t, a);
    FilterMember(Ties(c, a), u, a);
    var k :| 0 <= k < |u| && u[k] == a;
    assert k == |u| - 1 || c(u[k], u[|u| - 1]) <= 0;
  }

  /** Merging two stably sorted halves stably sorts the whole. */
  lemma MergeStable<X(!new)>(c: Comparator<X>, s: seq<X>, t: seq<X>, s': seq<X>, t': seq<X>)
    requires TotalPreorder(c) && StablySorted(c, s, s') && StablySorted(c, t, t')
    ensures StablySorted(c, s + t, Merge(c, s', t'))
  {
    MergeAscending(c, s', t');
    forall y ensures Filter(Ties(c, y), Merge(c, s', t')) == Filter(Ties(c, y), s + t) {
      MergeKeepsTies(c, s', t', y);
      FilterConcat(Ties(c, y), s', t');
      FilterConcat(Ties(c, y), s, t);
    }
  }

  /** Sorting two halves and merging them is sorting the whole. */
  lemma MergeOfSorted<X(!new)>(c: Comparator<X>, s: seq<X>, t: seq<X>)
    requires TotalPreorder(c)
    ensures Merge(c, StableSort(c, s), StableSort(c, t)) == StableSort(c, s + t)
  {
    var s', t' := StableSort(c, s), StableSort(c, t);
    StableSortStable(c, s);
    StableSortStable(c, t);
    StableSortStable(c, s + t);
    MergeStable(c, s, t, s', t');
    StablySortedUnique(c, s + t, Merge(c, s', t'), StableSort(c, s + t));
  }

  /** When nothing on the left exceeds anything on the right, merging concatenates. */
  lemma {:induction false} MergeInOrder<X>(c: Comparator<X>, s: seq<X>, t: seq<X>)
    requires forall i, j :: 0 <= i < |s| && 0 <= j < |t| ==> c(s[i], t[j]) <= 0
    ensures Merge(c, s, t) == s + t
  {
    if s != [] && t != [] {
      MergeInOrder(c, s[1..], t);
      assert s + t == [s[0]] + (s[1..] + t);
    }
  }
}
