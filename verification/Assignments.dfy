/** Bucket ids of all groups in one sequence, and the element they are assigned to. */
module Assignments {
  import opened Sequences
  import opened Orders
  import opened SortKeys
  import opened BucketPlans
  import opened BucketLayouts
  import opened LayoutEstimation
  import opened Groupings

  function Sizes<T>(layouts: seq<BucketLayout<T>>): (s: seq<nat>)
    ensures |s| == |layouts| && forall g :: 0 <= g < |s| ==> s[g] == layouts[g].BucketCount()
  {
    seq(|layouts|, g requires 0 <= g < |layouts| => layouts[g].BucketCount())
  }

  /** Layouts and offsets fit together; bucket ids fit 16 bits. Nothing about the comparator. */
  ghost predicate LayoutsShaped<T(!new)>(sk: SortKey<T>, layouts: seq<BucketLayout<T>>, offset: seq<nat>) {
    && |layouts| == sk.groups && IsStarts(offset, Sizes(layouts))
    && (forall g :: 0 <= g < |layouts| ==> layouts[g].Shaped(sk))
    && offset[|layouts|] <= MAX_BUCKET_LIMIT
  }

  ghost predicate LayoutsIncreasing<T(!new)>(sk: SortKey<T>, layouts: seq<BucketLayout<T>>) {
    forall g :: 0 <= g < |layouts| ==> layouts[g].Shaped(sk) && Increasing(layouts[g], sk)
  }

  /** The id an element gets: that of its group's first bucket plus its bucket in the group's layout. */
  function BucketFor<T(!new)>(sk: SortKey<T>, layouts: seq<BucketLayout<T>>, offset: seq<nat>, x: T): (b: nat)
    requires WellFormed(sk) && |layouts| == sk.groups && |offset| == |layouts| + 1
  {
    offset[sk.Group(x)] + layouts[sk.Group(x)].BucketOf(sk, x)
  }

  /** The id lies among the ids of the element's group, so it is below the total and fits 16 bits. */
  lemma BucketForInRange<T(!new)>(sk: SortKey<T>, layouts: seq<BucketLayout<T>>, offset: seq<nat>, x: T)
    requires WellFormed(sk) && LayoutsShaped(sk, layouts, offset)
    ensures var g := sk.Group(x);
      offset[g] <= BucketFor(sk, layouts, offset, x) < offset[g + 1] <= offset[|layouts|] <= MAX_BUCKET_LIMIT
  {
    var g := sk.Group(x);
    assert layouts[g].Shaped(sk);
    StartsAscend(offset, Sizes(layouts), g + 1, |layouts|);
  }

  /** Ids separate groups: a lower group has only lower ids. */
  lemma GroupFromBucket<T(!new)>(sk: SortKey<T>, layouts: seq<BucketLayout<T>>, offset: seq<nat>, x: T, g: nat)
    requires WellFormed(sk) && LayoutsShaped(sk, layouts, offset) && g <= |layouts|
    ensures BucketFor(sk, layouts, offset, x) < offset[g] <==> sk.Group(x) < g
  {
    BucketForInRange(sk, layouts, offset, x);
    var h := sk.Group(x);
    if h < g {
      StartsAscend(offset, Sizes(layouts), h + 1, g);
    } else {
      StartsAscend(offset, Sizes(layouts), g, h);
    }
  }

  lemma SameBucketSameGroup<T(!new)>(sk: SortKey<T>, layouts: seq<BucketLayout<T>>, offset: seq<nat>, x: T, y: T)
    requires WellFormed(sk) && LayoutsShaped(sk, layouts, offset)
    requires BucketFor(sk, layouts, offset, x) == BucketFor(sk, layouts, offset, y)
    ensures sk.Group(x) == sk.Group(y)
  {
    GroupFromBucket(sk, layouts, offset, x, sk.Group(y));
    GroupFromBucket(sk, layouts, offset, y, sk.Group(x));
  }

  /** Inside a group the layout's order is the sort key's order. */
  lemma WithinIsCompare<T(!new)>(sk: SortKey<T>, x: T, y: T)
    requires sk.Group(x) == sk.Group(y)
    ensures sk.Within(x, y) == sk.Compare(x, y)
  {
  }

  /** For every two values, in the collection or not: a smaller bucket id means a smaller element. */
  lemma BucketIdsFollowOrder<T(!new)>(sk: SortKey<T>, layouts: seq<BucketLayout<T>>, offset: seq<nat>, x: T, y: T)
    requires WellFormed(sk) && Consistent(sk) && LayoutsShaped(sk, layouts, offset) && LayoutsIncreasing(sk, layouts)
    ensures BucketFor(sk, layouts, offset, x) < BucketFor(sk, layouts, offset, y) ==> sk.Compare(x, y) < 0
  {
    var g, h := sk.Group(x), sk.Group(y);
    if g == h {
      assert layouts[g].Shaped(sk);
      BucketsFollowOrder(layouts[g], sk, x, y);
      WithinIsCompare(sk, x, y);
    } else {
      BucketForInRange(sk, layouts, offset, x);
      GroupFromBucket(sk, layouts, offset, y, g);
    }
  }

  /** ... so a tie never separates two values. */
  lemma EqualElementsShareBucket<T(!new)>(sk: SortKey<T>, layouts: seq<BucketLayout<T>>, offset: seq<nat>, x: T, y: T)
    requires WellFormed(sk) && Consistent(sk) && LayoutsShaped(sk, layouts, offset) && LayoutsIncreasing(sk, layouts)
    requires sk.Compare(x, y) == 0
    ensures BucketFor(sk, layouts, offset, x) == BucketFor(sk, layouts, offset, y)
  {
    CompareIsPreorder(sk);
    Mirrors(sk.Order(), x, y);
    BucketIdsFollowOrder(sk, layouts, offset, x, y);
    BucketIdsFollowOrder(sk, layouts, offset, y, x);
  }

  /** bucket_for: the layout of the element's group, searched with its stored key. */
  method FindBucketFor<T(!new)>(sk: SortKey<T>, layouts: seq<BucketLayout<T>>, offset: seq<nat>, x: T, key: Key64)
    returns (b: nat)
    requires WellFormed(sk) && LayoutsShaped(sk, layouts, offset) && (sk.key.Some? ==> key == sk.Key(x))
    ensures b == BucketFor(sk, layouts, offset, x) && b < offset[|layouts|] <= MAX_BUCKET_LIMIT
  {
    var g := if |layouts| > 1 then sk.Group(x) else 0;
    assert layouts[g].Shaped(sk);
    var local := FindBucket(layouts[g], sk, x, key);
    b := offset[g] + local;
    BucketForInRange(sk, layouts, offset, x);
  }

  // --- estimate_layouts ---------------------------------------------------------------------

  function InGroup<T>(sk: SortKey<T>, items: seq<T>, g: nat): nat -> bool {
    (s: nat) => s < |items| && sk.Group(items[s]) == g
  }

  /** The slots of group `g`, in insertion order. */
  function Members<T>(sk: SortKey<T>, items: seq<T>, g: nat): seq<nat> {
    Filter(InGroup(sk, items, g), Iota(0, |items|))
  }

  lemma MembersDistinct<T>(sk: SortKey<T>, items: seq<T>, g: nat)
    ensures NoDup(Members(sk, items, g)) && |Members(sk, items, g)| <= |items|
    ensures forall m: nat :: m in Members(sk, items, g) ==> m < |items|
  {
    IotaElements(|items|);
    FilterNoDup(InGroup(sk, items, g), Iota(0, |items|));
    FilterMembers(InGroup(sk, items, g), Iota(0, |items|));
    forall m: nat | m in Members(sk, items, g) ensures m < |items| {
      FilterMember(InGroup(sk, items, g), Iota(0, |items|), m);
    }
  }

  /** One list of slots per group. */
  method CollectMembers<T(!new)>(sk: SortKey<T>, items: seq<T>) returns (members: seq<seq<nat>>)
    requires WellFormed(sk)
    ensures |members| == sk.groups && forall g :: 0 <= g < sk.groups ==> members[g] == Members(sk, items, g)
  {
    members := seq(sk.groups, _ => []);
    for slot := 0 to |items|
      invariant |members| == sk.groups
      invariant forall g :: 0 <= g < sk.groups ==> members[g] == Filter<nat>(InGroup(sk, items, g), Iota(0, slot))
    {
      assert Iota(0, slot + 1)[..slot] == Iota(0, slot);
      var g := sk.Group(items[slot]);
      members := members[g := members[g] + [slot]];
    }
  }

  /** What the layouts of all groups promise together. */
  ghost predicate AllEstimated<T(!new)>(sk: SortKey<T>, items: seq<T>, layouts: seq<BucketLayout<T>>,
                                        plan: BucketPlan) {
    |layouts| == sk.groups && forall g :: 0 <= g < |layouts| ==>
        Estimated(layouts[g], sk, items, Members(sk, items, g), plan)
  }

  method EstimateLayouts<T(!new)>(sk: SortKey<T>, items: seq<T>, keys: seq<Key64>, plan: BucketPlan)
    returns (layouts: seq<BucketLayout<T>>)
    requires WellFormed(sk) && Consistent(sk) && KeysInSync(sk, items, keys) && plan.WellFormed()
    ensures AllEstimated(sk, items, layouts, PerGroup(plan, sk.groups))
  {
    var layout; ghost var cut;
    if sk.groups == 1 {
      var all := Iota(0, |items|);
      IotaElements(|items|);
      FilterAll(InGroup(sk, items, 0), all);
      layout, cut := Estimate(sk, items, keys, plan, all);
      return [layout];
    }
    var members := CollectMembers(sk, items);
    var perGroup := PerGroup(plan, sk.groups);
    layouts := [];
    for g := 0 to |members|
      invariant |layouts| == g
      invariant forall h :: 0 <= h < g ==> Estimated(layouts[h], sk, items, Members(sk, items, h), perGroup)
    {
      MembersDistinct(sk, items, g);
      layout, cut := Estimate(sk, items, keys, perGroup, members[g]);
      layouts := layouts + [layout];
    }
  }

  lemma {:induction false} TotalAtMost(sizes: seq<nat>, offset: seq<nat>, limit: nat, g: nat)
    requires IsStarts(offset, sizes) && g <= |sizes| && forall h :: 0 <= h < |sizes| ==> sizes[h] <= limit
    ensures offset[g] <= g * limit
  {
    if g > 0 {
      TotalAtMost(sizes, offset, limit, g - 1);
      assert g * limit == (g - 1) * limit + limit;
    }
  }

  /** Up to 256 groups share the 16-bit ids: the total never exceeds 65535. */
  lemma TotalFits<T(!new)>(sk: SortKey<T>, items: seq<T>, layouts: seq<BucketLayout<T>>, offset: seq<nat>,
                           plan: BucketPlan)
    requires AllEstimated(sk, items, layouts, plan) && IsStarts(offset, Sizes(layouts))
    requires sk.groups * plan.maxBuckets <= MAX_BUCKET_LIMIT
    ensures LayoutsShaped(sk, layouts, offset) && LayoutsIncreasing(sk, layouts)
  {
    forall g | 0 <= g < |layouts|
      ensures Sizes(layouts)[g] <= plan.maxBuckets && layouts[g].Shaped(sk) && Increasing(layouts[g], sk)
    {
      assert Estimated(layouts[g], sk, items, Members(sk, items, g), plan);
    }
    TotalAtMost(Sizes(layouts), offset, plan.maxBuckets, |layouts|);
  }

  // --- assigning every element --------------------------------------------------------------

  /** Casting a bucket id to 16 bits. */
  function Cast16(b: nat): nat {
    b % 0x1_0000
  }

  ghost predicate AssignedAt<T(!new)>(sk: SortKey<T>, layouts: seq<BucketLayout<T>>, offset: seq<nat>, items: seq<T>,
                                      buckets: seq<nat>, s: nat)
    requires WellFormed(sk) && |layouts| == sk.groups && |offset| == |layouts| + 1 && s < |items| == |buckets|
  {
    buckets[s] == BucketFor(sk, layouts, offset, items[s])
  }

  /** Every stored bucket id is the one the current layouts assign. */
  ghost predicate Assigned<T(!new)>(sk: SortKey<T>, layouts: seq<BucketLayout<T>>, offset: seq<nat>, items: seq<T>,
                                    buckets: seq<nat>)
    requires WellFormed(sk) && |layouts| == sk.groups && |offset| == |layouts| + 1
  {
    |buckets| == |items| && forall s :: 0 <= s < |items| ==> AssignedAt(sk, layouts, offset, items, buckets, s)
  }

  method AssignBuckets<T(!new)>(sk: SortKey<T>, layouts: seq<BucketLayout<T>>, offset: seq<nat>, items: seq<T>,
                                keys: seq<Key64>)
    returns (buckets: seq<nat>, counts: seq<nat>)
    requires WellFormed(sk) && LayoutsShaped(sk, layouts, offset) && KeysInSync(sk, items, keys)
    ensures Assigned(sk, layouts, offset, items, buckets)
    ensures |counts| == offset[|layouts|] && CountsMatch(counts, buckets)
  {
    buckets, counts := [], seq(offset[|layouts|], _ => 0);
    for slot := 0 to |items|
      invariant |buckets| == slot && |counts| == offset[|layouts|] && CountsMatch(counts, buckets)
      invariant forall s :: 0 <= s < slot ==> buckets[s] == BucketFor(sk, layouts, offset, items[s])
    {
      var b := FindBucketFor(sk, layouts, offset, items[slot], if sk.key.Some? then keys[slot] else 0);
      assert Cast16(b) == b;
      CountsAppend(counts, buckets, b);
      buckets := buckets + [Cast16(b)];
      counts := counts[b := counts[b] + 1];
    }
  }

  lemma {:induction false} FilterFilter<X>(p: X -> bool, q: X -> bool, r: X -> bool, s: seq<X>)
    requires forall x :: x in s ==> (r(x) <==> p(x) && q(x))
    ensures Filter(q, Filter(p, s)) == Filter(r, s)
  {
    if s != [] {
      var t, last := s[..|s| - 1], s[|s| - 1];
      assert s == t + [last] && last in s;
      FilterFilter(p, q, r, t);
      FilterConcat(q, Filter(p, t), if p(last) then [last] else []);
    }
  }

  /** In a group that was sampled completely, every bucket is as large as predicted, whatever the other groups are. */
  lemma ExpectedIsActual<T(!new)>(sk: SortKey<T>, items: seq<T>, layouts: seq<BucketLayout<T>>, offset: seq<nat>,
                                  plan: BucketPlan,
                                  buckets: seq<nat>, counts: seq<nat>, g: nat, local: nat)
    requires WellFormed(sk) && LayoutsShaped(sk, layouts, offset) && AllEstimated(sk, items, layouts, plan)
    requires Assigned(sk, layouts, offset, items, buckets) && CountsMatch(counts, buckets)
    requires |counts| == offset[|layouts|]
    requires g < |layouts| && local < layouts[g].BucketCount() && |Members(sk, items, g)| <= plan.sampleSize
    ensures offset[g] + local < |counts| && counts[offset[g] + local] == layouts[g].expected[local]
  {
    StartsAscend(offset, Sizes(layouts), g + 1, |layouts|);
    assert Estimated(layouts[g], sk, items, Members(sk, items, g), plan);
    BucketSlotsCounted(counts, buckets, offset[g] + local);
    BucketSlotsSplit(sk, items, layouts, offset, buckets, g, local);
  }

  lemma BucketSlotsCounted(counts: seq<nat>, buckets: seq<nat>, b: nat)
    requires CountsMatch(counts, buckets) && b < |counts|
    ensures counts[b] == |BucketSlots(buckets, b, |buckets|)|
  {
    BucketSlotsCount(buckets, b, |buckets|);
    assert buckets[..|buckets|] == buckets;
  }

  /** The slots of a global bucket are the group's members that its layout puts there. */
  lemma BucketSlotsSplit<T(!new)>(sk: SortKey<T>, items: seq<T>, layouts: seq<BucketLayout<T>>, offset: seq<nat>,
                                  buckets: seq<nat>, g: nat, local: nat)
    requires WellFormed(sk) && LayoutsShaped(sk, layouts, offset) && Assigned(sk, layouts, offset, items, buckets)
    requires g < |layouts| && local < layouts[g].BucketCount()
    ensures BucketSlots(buckets, offset[g] + local, |items|)
         == Filter(InLayoutBucket(layouts[g], sk, items, local), Members(sk, items, g))
  {
    var p, q, r := InGroup(sk, items, g), InLayoutBucket(layouts[g], sk, items, local),
                   InBucket(buckets, offset[g] + local);
    forall s: nat | s in Iota(0, |items|) ensures r(s) <==> p(s) && q(s) {
      BucketSplits(sk, items, layouts, offset, buckets, g, local, s);
    }
    FilterFilter(p, q, r, Iota(0, |items|));
  }

  /** Being in a global bucket is being in the group and in the group's local bucket. */
  lemma BucketSplits<T(!new)>(sk: SortKey<T>, items: seq<T>, layouts: seq<BucketLayout<T>>, offset: seq<nat>,
                              buckets: seq<nat>, g: nat, local: nat, s: nat)
    requires WellFormed(sk) && LayoutsShaped(sk, layouts, offset) && Assigned(sk, layouts, offset, items, buckets)
    requires g < |layouts| && local < layouts[g].BucketCount() && s < |items|
    ensures InBucket(buckets, offset[g] + local)(s)
       <==> InGroup(sk, items, g)(s) && InLayoutBucket(layouts[g], sk, items, local)(s)
  {
    assert AssignedAt(sk, layouts, offset, items, buckets, s);
    BucketForInRange(sk, layouts, offset, items[s]);
    GroupFromBucket(sk, layouts, offset, items[s], g);
    GroupFromBucket(sk, layouts, offset, items[s], g + 1);
  }
}
