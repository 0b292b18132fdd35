/** bucket_layout.hpp, the finished layout: what its split points say about any value. */
module BucketLayouts {
  import opened Sequences
  import opened Orders
  import opened Searching
  import opened SortKeys

  /**
   Split points in ascending order. Comparator-only keys split on elements (`splitters`); keyed keys
   split on `boundaries`, and where several splits share a key all but the first name a splitter.
   */
  datatype BucketLayout<!T> = BucketLayout(
    boundaries: seq<Key64>, splitElement: seq<Option<nat>>, splitters: seq<T>,
    splitterPositions: seq<nat>, expected: seq<nat>, estimatedFrom: nat)
  {
    function BucketCount(): nat {
      |expected|
    }

    function Splits(sk: SortKey<T>): nat {
      if sk.key.Some? then |boundaries| else |splitters|
    }

    /** Every field has the length and the references the searches rely on; no order is asked for. */
    ghost predicate Shaped(sk: SortKey<T>) {
      && |splitElement| == |boundaries| && |splitterPositions| == |splitters|
      && (forall i :: 0 <= i < |splitElement| && splitElement[i].Some? ==> splitElement[i].value < |splitters|)
      && (sk.key.None? ==> boundaries == [])
      && |expected| == Splits(sk) + 1
    }

    /** Is an element with this key below split point `i`? */
    predicate Below(sk: SortKey<T>, x: T, key: Key64, i: nat) {
      if sk.key.None? then i < |splitters| ==> sk.Compare(x, splitters[i]) < 0
      else
        i < |boundaries| ==>
          || key < boundaries[i]
          || (key == boundaries[i] && i < |splitElement| && splitElement[i].Some?
              && splitElement[i].value < |splitters| && sk.TieBreak(x, splitters[splitElement[i].value]) < 0)
    }

    function BelowSplit(sk: SortKey<T>, x: T, key: Key64): nat -> bool {
      (i: nat) => Below(sk, x, key, i)
    }

    /** Could some element with this key be below split point `i`? */
    predicate KeyBelow(key: Key64, i: nat) {
      i < |boundaries| ==> key < boundaries[i] || (key == boundaries[i] && i < |splitElement| && splitElement[i].Some?)
    }

    function KeyBelowSplit(key: Key64): nat -> bool {
      (i: nat) => KeyBelow(key, i)
    }

    /** The bucket the search assigns. */
    function BucketOf(sk: SortKey<T>, x: T): (b: nat)
      ensures b <= Splits(sk)
    {
      PartitionPoint(BelowSplit(sk, x, sk.Key(x)), 0, Splits(sk))
    }
  }

  /** Split points increase strictly; of two with the same key the later one names a splitter. */
  ghost predicate Increasing<T(!new)>(layout: BucketLayout<T>, sk: SortKey<T>)
    requires layout.Shaped(sk)
  {
    if sk.key.None? then
      forall i, j :: 0 <= i < j < |layout.splitters| ==> sk.Compare(layout.splitters[i], layout.splitters[j]) < 0
    else
      && (forall i, j :: 0 <= i < j < |layout.boundaries| ==> layout.boundaries[i] <= layout.boundaries[j])
      && (forall i, j :: 0 <= i < j < |layout.boundaries| && layout.boundaries[i] == layout.boundaries[j] ==>
            && layout.splitElement[j].Some?
            && (layout.splitElement[i].Some? ==>
                  sk.TieBreak(layout.splitters[layout.splitElement[i].value],
                      layout.splitters[layout.splitElement[j].value]) < 0))
  }

  /** Below one split point means below all later ones. */
  lemma BelowUpward<T(!new)>(layout: BucketLayout<T>, sk: SortKey<T>, x: T)
    requires layout.Shaped(sk) && Increasing(layout, sk) && Consistent(sk)
    ensures UpwardClosed(layout.BelowSplit(sk, x, sk.Key(x)), 0, layout.Splits(sk))
  {
    var p := layout.BelowSplit(sk, x, sk.Key(x));
    CompareIsPreorder(sk);
    var t := (x, y) => sk.TieBreak(x, y);
    forall i, j | 0 <= i <= j < layout.Splits(sk) && p(i) ensures p(j) {
      if i == j {
      } else if sk.key.None? {
        assert Chains(sk.Order(), layout.splitters[j], x, layout.splitters[i]);
        assert sk.Order()(x, layout.splitters[j]) < 0 <==> sk.Order()(layout.splitters[j], x) > 0;
        assert sk.Order()(layout.splitters[i], layout.splitters[j]) < 0;
      } else if sk.Key(x) == layout.boundaries[j] {
        var si, sj := layout.splitters[layout.splitElement[i].value], layout.splitters[layout.splitElement[j].value];
        assert Chains(t, sj, x, si);
        assert t(x, sj) < 0 <==> t(sj, x) > 0;
        assert t(si, sj) < 0;
      }
    }
  }

  lemma KeyBelowUpward<T(!new)>(layout: BucketLayout<T>, sk: SortKey<T>, key: Key64)
    requires layout.Shaped(sk) && Increasing(layout, sk) && sk.key.Some?
    ensures UpwardClosed(layout.KeyBelowSplit(key), 0, |layout.boundaries|)
  {
  }

  /** A smaller bucket id means a strictly smaller element, for every pair of values. */
  lemma BucketsFollowOrder<T(!new)>(layout: BucketLayout<T>, sk: SortKey<T>, x: T, y: T)
    requires layout.Shaped(sk) && Increasing(layout, sk) && Consistent(sk)
    ensures layout.BucketOf(sk, x) < layout.BucketOf(sk, y) ==> sk.Within(x, y) < 0
  {
    var n := layout.Splits(sk);
    var px, py := layout.BelowSplit(sk, x, sk.Key(x)), layout.BelowSplit(sk, y, sk.Key(y));
    BelowUpward(layout, sk, x);
    BelowUpward(layout, sk, y);
    PartitionPointCorrect(px, 0, n);
    PartitionPointCorrect(py, 0, n);
    var i := layout.BucketOf(sk, x);
    if i < layout.BucketOf(sk, y) {
      assert px(i) && !py(i);
      SplitSeparates(layout, sk, x, y, i);
    }
  }

  lemma SplitSeparates<T(!new)>(layout: BucketLayout<T>, sk: SortKey<T>, x: T, y: T, i: nat)
    requires layout.Shaped(sk) && Consistent(sk) && i < layout.Splits(sk)
    requires layout.Below(sk, x, sk.Key(x), i) && !layout.Below(sk, y, sk.Key(y), i)
    ensures sk.Within(x, y) < 0
  {
    CompareIsPreorder(sk);
    var t, o := (x, y) => sk.TieBreak(x, y), sk.Order();
    if sk.key.None? {
      var s := layout.splitters[i];
      assert Chains(o, s, y, x);
      assert (o(x, y) < 0 <==> o(y, x) > 0) && (o(y, s) < 0 <==> o(s, y) > 0) && (o(x, s) < 0 <==> o(s, x) > 0);
    } else if sk.Key(x) == sk.Key(y) {
      var s := layout.splitters[layout.splitElement[i].value];
      assert Chains(t, s, y, x);
      assert (t(x, y) < 0 <==> t(y, x) > 0) && (t(y, s) < 0 <==> t(s, y) > 0) && (t(x, s) < 0 <==> t(s, x) > 0);
    }
  }

  /** Elements that compare equal share a bucket, also when split points repeat a key. */
  lemma TiesShareBucket<T(!new)>(layout: BucketLayout<T>, sk: SortKey<T>, x: T, y: T)
    requires layout.Shaped(sk) && Increasing(layout, sk) && Consistent(sk)
    requires sk.Within(x, y) == 0
    ensures layout.BucketOf(sk, x) == layout.BucketOf(sk, y)
  {
    WithinIsPreorder(sk);
    var w := sk.WithinOrder();
    assert w(y, x) < 0 <==> w(x, y) > 0;
    BucketsFollowOrder(layout, sk, x, y);
    BucketsFollowOrder(layout, sk, y, x);
  }

  /** bucket_of_key: searches with the key alone; KeyBucketIsLowest says what the result bounds. */
  method BucketOfKey<T(!new)>(layout: BucketLayout<T>, sk: SortKey<T>, key: Key64) returns (b: nat)
    requires layout.Shaped(sk) && sk.key.Some?
    ensures b == PartitionPoint(layout.KeyBelowSplit(key), 0, |layout.boundaries|)
    ensures b < layout.BucketCount()
  {
    b := BinarySearch(layout.KeyBelowSplit(key), |layout.boundaries|);
  }

  /** Some split point with this key names an element. */
  ghost predicate KeyNamesElement<T>(layout: BucketLayout<T>, key: Key64) {
    exists i :: 0 <= i < |layout.boundaries| && i < |layout.splitElement| && layout.boundaries[i] == key
      && layout.splitElement[i].Some?
  }

  /** The key alone leads to the bucket if no element is named for that key, whatever the comparator. */
  lemma KeyBucketIsExact<T>(layout: BucketLayout<T>, sk: SortKey<T>, x: T)
    requires sk.key.Some? && !KeyNamesElement(layout, sk.Key(x))
    ensures PartitionPoint(layout.KeyBelowSplit(sk.Key(x)), 0, |layout.boundaries|) == layout.BucketOf(sk, x)
  {
    var p, q := layout.KeyBelowSplit(sk.Key(x)), layout.BelowSplit(sk, x, sk.Key(x));
    forall i | 0 <= i < |layout.boundaries| ensures p(i) == q(i) {
      assert i < |layout.splitElement| && layout.boundaries[i] == sk.Key(x) ==> layout.splitElement[i].None?;
    }
    PartitionPointSame(p, q, 0, |layout.boundaries|);
  }

  /** No element is in a bucket below the one its key alone leads to. */
  lemma KeyBucketIsLowest<T(!new)>(layout: BucketLayout<T>, sk: SortKey<T>, x: T)
    requires layout.Shaped(sk) && Increasing(layout, sk) && Consistent(sk) && sk.key.Some?
    ensures PartitionPoint(layout.KeyBelowSplit(sk.Key(x)), 0, |layout.boundaries|) <= layout.BucketOf(sk, x)
  {
    var n := |layout.boundaries|;
    var p, q := layout.KeyBelowSplit(sk.Key(x)), layout.BelowSplit(sk, x, sk.Key(x));
    KeyBelowUpward(layout, sk, sk.Key(x));
    BelowUpward(layout, sk, x);
    PartitionPointCorrect(p, 0, n);
    PartitionPointCorrect(q, 0, n);
    var b := layout.BucketOf(sk, x);
    assert b < n ==> q(b);
    assert b < n ==> p(b);
  }

  /** std::upper_bound over the boundaries, for layouts whose splits name no element. */
  function KeyOnly(boundaries: seq<Key64>, key: Key64): nat -> bool {
    (i: nat) => i < |boundaries| ==> key < boundaries[i]
  }

  /** The no-splitter fast path agrees with the general search, whatever the comparator. */
  lemma FastPathAgrees<T>(layout: BucketLayout<T>, sk: SortKey<T>, x: T)
    requires layout.Shaped(sk) && sk.key.Some? && layout.splitters == []
    ensures PartitionPoint(KeyOnly(layout.boundaries, sk.Key(x)), 0, |layout.boundaries|) == layout.BucketOf(sk, x)
  {
    PartitionPointSame(KeyOnly(layout.boundaries, sk.Key(x)), layout.BelowSplit(sk, x, sk.Key(x)), 0,
        |layout.boundaries|);
  }

  /** Both forms of bucket_of; the keyed form skips the tie-breaker when no split names an element. */
  method FindBucket<T(!new)>(layout: BucketLayout<T>, sk: SortKey<T>, x: T, key: Key64) returns (b: nat)
    requires layout.Shaped(sk) && (sk.key.Some? ==> key == sk.Key(x))
    ensures b == layout.BucketOf(sk, x)
    ensures b < layout.BucketCount()
  {
    if sk.key.None? {
      b := BinarySearch(layout.BelowSplit(sk, x, sk.Key(x)), |layout.splitters|);
    } else if layout.splitters == [] {
      b := BinarySearch(KeyOnly(layout.boundaries, key), |layout.boundaries|);
      FastPathAgrees(layout, sk, x);
    } else {
      b := BinarySearch(layout.BelowSplit(sk, x, key), |layout.boundaries|);
    }
  }
}
