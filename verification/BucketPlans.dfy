/** bucket_plan.hpp: target sizes, and why they always cut the elements up completely. */
module BucketPlans {
  import opened Sequences

  const MAX_BUCKET_LIMIT := 65535
  const MAX_SAMPLE_SIZE := 0x10_0000

  datatype Kind = Geometric | FirstPage | Uniform | Explicit

  /** `draw` stands for the seeded generator: its j-th output. Growth and skew are exact reals. */
  datatype BucketPlan = BucketPlan(
    kind: Kind, pageSize: nat, growth: real, maxBuckets: nat, symmetric: bool, sampleSize: nat,
    draw: nat -> nat, rebalanceSkew: real, autoRebalance: bool, sizes: seq<nat>)
  {
    /** What the factories and the with_* methods enforce. */
    predicate WellFormed() {
      && 0 < pageSize && 1.0 <= growth && 1.0 < rebalanceSkew
      && 0 < maxBuckets <= MAX_BUCKET_LIMIT && 0 < sampleSize <= MAX_SAMPLE_SIZE
      && (kind == Explicit ==> sizes != [])
      && forall i :: 0 <= i < |sizes| ==> 0 < sizes[i]
    }

    /** Rejects zero and clamps to the 16-bit limit. */
    function WithMaxBuckets(n: nat): (r: Option<BucketPlan>)
      requires WellFormed()
      ensures r.Some? <==> 0 < n
      ensures r.Some? ==> r.value.WellFormed() && r.value == this.(maxBuckets := r.value.maxBuckets)
      ensures r.Some? ==> r.value.maxBuckets <= n && (r.value.maxBuckets == n || r.value.maxBuckets == MAX_BUCKET_LIMIT)
    {
      if n == 0 then None else Some(this.(maxBuckets := Min(n, MAX_BUCKET_LIMIT)))
    }
  }

  function Sum(s: seq<nat>): nat {
    if s == [] then 0 else Sum(s[..|s| - 1]) + s[|s| - 1]
  }

  lemma SumAppend(s: seq<nat>, x: nat)
    ensures Sum(s + [x]) == Sum(s) + x
  {
    assert (s + [x])[..|s|] == s;
  }

  lemma {:induction false} SumConcat(s: seq<nat>, t: seq<nat>)
    ensures Sum(s + t) == Sum(s) + Sum(t)
  {
    if t == [] {
      assert s + t == s;
    } else {
      SumConcat(s, t[..|t| - 1]);
      assert (s + t)[..|s + t| - 1] == s + t[..|t| - 1];
    }
  }

  lemma {:induction false} SumReverse(s: seq<nat>)
    ensures Sum(Reverse(s)) == Sum(s)
  {
    if s != [] {
      SumReverse(s[..|s| - 1]);
      assert Reverse(s) == [s[|s| - 1]] + Reverse(s[..|s| - 1]);
      SumConcat([s[|s| - 1]], Reverse(s[..|s| - 1]));
      assert [s[|s| - 1]][..0] == [];
    }
  }

  ghost predicate AllPositive(s: seq<nat>) {
    forall i :: 0 <= i < |s| ==> 0 < s[i]
  }

  /** Sizes that cut `n` elements into at most `limit` non-empty buckets. */
  ghost predicate Cuts(s: seq<nat>, n: nat, limit: nat) {
    Sum(s) == n && AllPositive(s) && 0 < |s| <= limit
  }

  // --- what each kind of plan promises ------------------------------------------------------

  /** As many buckets as there may be, larger ones first, no two differing by more than one element. */
  ghost predicate UniformCut(plan: BucketPlan, n: nat, out: seq<nat>) {
    && |out| == Min(plan.maxBuckets, n)
    && forall i, j :: 0 <= i < j < |out| ==> out[j] <= out[i] <= out[j] + 1
  }

  /** The given sizes in turn; the last bucket takes what is left once they, or the buckets, run out. */
  ghost predicate ExplicitCut(plan: BucketPlan, out: seq<nat>) {
    && 0 < |out| <= |plan.sizes| + 1 && (forall x :: 0 <= x < |out| - 1 ==> out[x] == plan.sizes[x])
    && (|out| < plan.maxBuckets && |out| <= |plan.sizes| ==> out[|out| - 1] <= plan.sizes[|out| - 1])
  }

  /** A page and the rest; with a page at the far end too if the plan is symmetric and there is room for it. */
  ghost predicate FirstPageCut(plan: BucketPlan, n: nat, out: seq<nat>) {
    && |out| == (if plan.maxBuckets == 1 || n <= plan.pageSize then 1
                 else if plan.symmetric && plan.maxBuckets > 2 && n > 2 * plan.pageSize then 3 else 2)
    && (|out| > 1 ==> out[0] == plan.pageSize)
    && (|out| == 3 ==> out[2] == plan.pageSize)
  }

  /** Sizes that grow from page size at the front, and at both ends if the plan is symmetric. */
  ghost predicate GeometricCut(plan: BucketPlan, n: nat, out: seq<nat>)
    requires plan.WellFormed() && 0 < n
  {
    && (exists middle: nat :: TwoRamps(plan.symmetric, plan.maxBuckets, RampSteps(plan, n), out, middle))
    && (plan.maxBuckets > 1 ==> out != [] && out[0] == Min(plan.pageSize, n))
    && (plan.symmetric && plan.maxBuckets >= 3 && n >= 2 * plan.pageSize ==>
          out[0] == plan.pageSize && out[|out| - 1] == plan.pageSize)
  }

  /** The target sizes of a plan for `n` elements. */
  ghost predicate AsPlanned(plan: BucketPlan, n: nat, out: seq<nat>)
    requires plan.WellFormed()
  {
    if n == 0 then out == [0]
    else
      && Cuts(out, n, plan.maxBuckets)
      && match plan.kind
         case Uniform => UniformCut(plan, n, out)
         case Explicit => ExplicitCut(plan, out)
         case FirstPage => FirstPageCut(plan, n, out)
         case Geometric => GeometricCut(plan, n, out)
  }

  // --- the sizes ------------------------------------------------------------------------------

  method UniformSizes(plan: BucketPlan, n: nat) returns (out: seq<nat>)
    requires plan.WellFormed() && 0 < n
    ensures Cuts(out, n, plan.maxBuckets) && UniformCut(plan, n, out)
  {
    var count := Min(plan.maxBuckets, n);
    out := seq(count, _ => n / count);
    SumConstant(n / count, count);
    var i := 0;
    while i < n % count
      invariant 0 <= i <= n % count && |out| == count
      invariant Sum(out) == n / count * count + i
      invariant forall x :: 0 <= x < count ==> out[x] == n / count + if x < i then 1 else 0
    {
      SumUpdate(out, i, out[i] + 1);
      out := out[i := out[i] + 1];
      i := i + 1;
    }
    QuotientPositive(n, count);
  }

  lemma QuotientPositive(n: nat, count: nat)
    requires 0 < count <= n
    ensures 0 < n / count && n == n / count * count + n % count
  {
  }

  lemma {:induction false} SumConstant(x: nat, count: nat)
    ensures Sum(seq(count, _ => x)) == x * count
  {
    if count > 0 {
      SumConstant(x, count - 1);
      assert seq(count, _ => x)[..count - 1] == seq(count - 1, _ => x);
      assert x * count == x * (count - 1) + x;
    }
  }

  lemma {:induction false} SumUpdate(s: seq<nat>, i: nat, x: nat)
    requires i < |s|
    ensures Sum(s[i := x]) == Sum(s) - s[i] + x
  {
    var last := |s| - 1;
    if i < last {
      SumUpdate(s[..last], i, x);
      assert s[i := x][..last] == s[..last][i := x];
    } else {
      assert s[i := x][..last] == s[..last];
    }
  }

  /** The sizes so far, front and back, and what they leave. */
  ghost predicate Dealt(front: seq<nat>, back: seq<nat>, remaining: nat, n: nat) {
    forall u {:trigger Opened(u)} :: Opened(u) ==>
      Sum(front) + Sum(back) + remaining == n && AllPositive(front) && AllPositive(back)
  }

  lemma DealtMeans(front: seq<nat>, back: seq<nat>, remaining: nat, n: nat)
    requires Dealt(front, back, remaining, n)
    ensures Sum(front) + Sum(back) + remaining == n && AllPositive(front) && AllPositive(back)
  {
    assert Opened(0);
  }

  lemma DealFront(front: seq<nat>, back: seq<nat>, remaining: nat, n: nat, take: nat)
    requires Dealt(front, back, remaining, n) && 0 < take <= remaining
    ensures Dealt(front + [take], back, remaining - take, n)
  {
    DealtMeans(front, back, remaining, n);
    SumAppend(front, take);
    PositiveAppend(front, take);
  }

  lemma DealBack(front: seq<nat>, back: seq<nat>, remaining: nat, n: nat, take: nat)
    requires Dealt(front, back, remaining, n) && 0 < take <= remaining
    ensures Dealt(front, back + [take], remaining - take, n)
  {
    DealtMeans(front, back, remaining, n);
    SumAppend(back, take);
    PositiveAppend(back, take);
  }

  lemma PositiveAppend(s: seq<nat>, x: nat)
    requires AllPositive(s) && 0 < x
    ensures AllPositive(s + [x])
  {
  }

  /** Every size taken so far is the caller's, except that the one exhausting `n` may be cut short. */
  ghost predicate Follows(out: seq<nat>, sizes: seq<nat>, remaining: nat) {
    && |out| <= |sizes|
    && (forall x :: 0 <= x < |out| - 1 ==> out[x] == sizes[x])
    && (out != [] ==> out[|out| - 1] <= sizes[|out| - 1])
    && (remaining > 0 && out != [] ==> out[|out| - 1] == sizes[|out| - 1])
  }

  lemma FollowsNext(out: seq<nat>, sizes: seq<nat>, remaining: nat)
    requires Follows(out, sizes, remaining) && |out| < |sizes| && 0 < remaining
    ensures Follows(out + [Min(sizes[|out|], remaining)], sizes, remaining - Min(sizes[|out|], remaining))
  {
  }

  method ExplicitSizes(plan: BucketPlan, n: nat) returns (out: seq<nat>)
    requires plan.WellFormed() && 0 < n
    ensures Cuts(out, n, plan.maxBuckets) && ExplicitCut(plan, out)
  {
    out := [];
    var remaining := n;
    assert Taken(out, plan.sizes, remaining, n);
    while |out| < |plan.sizes| && !(remaining == 0 || |out| + 1 == plan.maxBuckets)
      invariant |out| < plan.maxBuckets && Taken(out, plan.sizes, remaining, n)
    {
      var take := Min(plan.sizes[|out|], remaining);
      TakeNext(out, plan.sizes, remaining, n, take);
      out := out + [take];
      remaining := remaining - take;
    }
    TakeRest(out, plan.sizes, remaining, n);
    if remaining > 0 {
      out := out + [remaining];
    }
  }

  /** Some of the sizes are taken. Opened only on request. */
  ghost predicate Taken(out: seq<nat>, sizes: seq<nat>, remaining: nat, n: nat) {
    forall u {:trigger Opened(u)} :: Opened(u) ==> Dealt(out, [], remaining, n) && Follows(out, sizes, remaining)
  }

  lemma TakeNext(out: seq<nat>, sizes: seq<nat>, remaining: nat, n: nat, take: nat)
    requires Taken(out, sizes, remaining, n) && |out| < |sizes| && 0 < sizes[|out|] && 0 < remaining
    requires take == Min(sizes[|out|], remaining)
    ensures Taken(out + [take], sizes, remaining - take, n)
  {
    assert Opened(0);
    DealFront(out, [], remaining, n, take);
    FollowsNext(out, sizes, remaining);
  }

  lemma TakeRest(out: seq<nat>, sizes: seq<nat>, remaining: nat, n: nat)
    requires Taken(out, sizes, remaining, n) && 0 < n
    ensures var r := if remaining > 0 then out + [remaining] else out;
      && Cuts(r, n, |r|) && |r| - 1 <= |sizes| && (forall x :: 0 <= x < |r| - 1 ==> r[x] == sizes[x])
      && (remaining == 0 ==> |r| <= |sizes| && r[|r| - 1] <= sizes[|r| - 1])
  {
    assert Opened(0);
    if remaining > 0 {
      DealFront(out, [], remaining, n, remaining);
      DealtMeans(out + [remaining], [], 0, n);
    } else {
      DealtMeans(out, [], 0, n);
    }
  }

  function FirstPageSizes(plan: BucketPlan, n: nat): (out: seq<nat>)
    requires plan.WellFormed() && 0 < n
  {
    var page := Min(plan.pageSize, n);
    if plan.maxBuckets == 1 || page == n then [n]
    else if plan.symmetric && plan.maxBuckets >= 3 && n > 2 * page then [page, n - 2 * page, page]
    else [page, n - page]
  }

  lemma FirstPageCuts(plan: BucketPlan, n: nat)
    requires plan.WellFormed() && 0 < n
    ensures Cuts(FirstPageSizes(plan, n), n, plan.maxBuckets) && FirstPageCut(plan, n, FirstPageSizes(plan, n))
  {
    var page := Min(plan.pageSize, n);
    SumOfOne(n);
    SumOfTwo(page, n - page);
    if n > 2 * page {
      SumOfThree(page, n - 2 * page, page);
    }
  }

  lemma SumOfOne(x: nat)
    ensures Sum([x]) == x
  {
    SumAppend([], x);
    assert [] + [x] == [x];
  }

  lemma SumOfTwo(x: nat, y: nat)
    ensures Sum([x, y]) == x + y
  {
    SumOfOne(x);
    SumAppend([x], y);
    assert [x] + [y] == [x, y];
  }

  lemma SumOfThree(x: nat, y: nat, z: nat)
    ensures Sum([x, y, z]) == x + y + z
  {
    SumOfTwo(x, y);
    SumAppend([x, y], z);
    assert [x, y] + [z] == [x, y, z];
  }

  function Ceiling(x: real): (r: int)
    ensures (r - 1) as real < x <= r as real
  {
    if x.Floor as real == x then x.Floor else x.Floor + 1
  }

  lemma CeilingOfWhole(n: nat)
    ensures Ceiling(n as real) == n
  {
  }

  /** Sizes dealt so far: pages first, at both ends if the plan is symmetric. */
  ghost predicate Dealing(plan: BucketPlan, n: nat, front: seq<nat>, back: seq<nat>, remaining: nat, budget: nat,
                          size: real)
  {
    && Dealt(front, back, remaining, n) && 1.0 <= size
    && 1 <= budget && |front| + |back| + budget == plan.maxBuckets
    && (front == [] ==>
          back == [] && size == plan.pageSize as real && remaining == n && budget == plan.maxBuckets)
    && (front != [] ==> front[0] == Min(plan.pageSize, n))
    && (front != [] && plan.symmetric && plan.maxBuckets >= 3 && n >= 2 * plan.pageSize ==>
          back != [] && back[0] == plan.pageSize)
  }

  /** The size aimed at in round `i`: pages that grow, but never beyond n. */
  function Ramp(plan: BucketPlan, n: nat, i: nat): (r: real)
    requires plan.WellFormed() && 0 < n
    ensures 1.0 <= r
  {
    if i == 0 then plan.pageSize as real else Grow(Ramp(plan, n, i - 1), plan.growth, n)
  }

  /** What each round aims at, as a whole number. */
  function RampSteps(plan: BucketPlan, n: nat): nat -> int
    requires plan.WellFormed() && 0 < n
  {
    (i: nat) => Ceiling(Ramp(plan, n, i))
  }

  /** The page size multiplied by the growth factor `i` times. */
  function GrownPage(plan: BucketPlan, i: nat): real {
    if i == 0 then plan.pageSize as real else Grown(GrownPage(plan, i - 1), plan.growth)
  }

  function Grown(size: real, growth: real): real {
    size * growth
  }

  /** From the second round on the aim is the grown page, or n if that is less. */
  lemma {:induction false} RampIsGeometric(plan: BucketPlan, n: nat, i: nat)
    requires plan.WellFormed() && 0 < n && 0 < i
    ensures Ramp(plan, n, i) == Capped(GrownPage(plan, i), n)
  {
    if i > 1 {
      RampIsGeometric(plan, n, i - 1);
    }
    CappedGrows(GrownPage(plan, i - 1), Ramp(plan, n, i - 1), plan.growth, n);
  }

  function Capped(x: real, n: nat): real {
    if x < n as real then x else n as real
  }

  /** Capping before growing changes nothing once the result is capped as well. */
  lemma CappedGrows(x: real, capped: real, growth: real, n: nat)
    requires 1.0 <= growth && 1.0 <= capped && (capped == x || capped == Capped(x, n)) && 0 < n
    ensures Grow(capped, growth, n) == Capped(Grown(x, growth), n)
  {
    GrowthKeeps(x, growth);
    GrowthKeeps(n as real, growth);
  }

  lemma GrowthKeeps(x: real, growth: real)
    requires 1.0 <= growth && 0.0 <= x
    ensures x <= x * growth
  {
    assert 0.0 <= x * (growth - 1.0);
  }

  /** `size` is the aim of round `i`, and step(i) that aim rounded up. Opened only on request. */
  ghost predicate OnRamp(plan: BucketPlan, n: nat, step: nat -> int, i: nat, size: real)
    requires plan.WellFormed() && 0 < n
  {
    forall u {:trigger Opened(u)} :: Opened(u) ==>
      step == RampSteps(plan, n) && size == Ramp(plan, n, i) && step(i) == Ceiling(size)
  }

  lemma RampStarts(plan: BucketPlan, n: nat)
    requires plan.WellFormed() && 0 < n
    ensures OnRamp(plan, n, RampSteps(plan, n), 0, plan.pageSize as real)
  {
  }

  lemma RampContinues(plan: BucketPlan, n: nat, step: nat -> int, i: nat, size: real)
    requires plan.WellFormed() && 0 < n && OnRamp(plan, n, step, i, size)
    ensures 1.0 <= size && step(i) == Ceiling(size)
    ensures OnRamp(plan, n, step, i + 1, Grow(size, plan.growth, n))
  {
    assert Opened(0);
  }

  /** No size exceeds its round's aim, and the first `exact` sizes meet it. */
  ghost predicate Ramped(step: nat -> int, s: seq<nat>, exact: nat) {
    && exact <= |s| && (forall i :: 0 <= i < |s| ==> s[i] <= step(i))
    && (forall i :: 0 <= i < exact ==> s[i] == step(i))
  }

  lemma RampGrows(step: nat -> int, s: seq<nat>, take: nat, remaining: nat)
    requires Ramped(step, s, |s|)
    requires take <= remaining && (take == step(|s|) || take == remaining < step(|s|))
    ensures Ramped(step, s + [take], if take < remaining then |s| + 1 else |s|)
  {
  }

  /** Only the size dealt last may fall short, and only by using up the elements. */
  ghost predicate Ramping(symmetric: bool, step: nat -> int, front: seq<nat>, back: seq<nat>, remaining: nat,
                          budget: nat)
  {
    && Ramped(step, front, if remaining > 0 || |front| <= |back| then |front| else |front| - 1)
    && Ramped(step, back, if remaining > 0 || |front| > |back| then |back| else Max(|back|, 1) - 1)
    && (if symmetric then |back| <= |front| <= |back| + 1 else back == [])
    && (remaining > 0 && budget > 1 && symmetric ==> |front| == |back|)
  }

  /** One round: a bucket at the front and, if the plan is symmetric, one at the back. */
  method DealRound(plan: BucketPlan, n: nat, front0: seq<nat>, back0: seq<nat>, remaining0: nat, budget0: nat,
                   size0: real, ghost step: nat -> int)
    returns (front: seq<nat>, back: seq<nat>, remaining: nat, budget: nat, size: real)
    requires plan.WellFormed() && 0 < n && 0 < remaining0 && 1 < budget0
    requires Dealing(plan, n, front0, back0, remaining0, budget0, size0)
    requires Ramping(plan.symmetric, step, front0, back0, remaining0, budget0)
    requires OnRamp(plan, n, step, |front0|, size0)
    ensures Dealing(plan, n, front, back, remaining, budget, size) && budget < budget0 && front != []
    ensures Ramping(plan.symmetric, step, front, back, remaining, budget)
    ensures remaining > 0 && budget > 1 ==> OnRamp(plan, n, step, |front|, size)
  {
    front, back, remaining, budget, size := front0, back0, remaining0, budget0, size0;
    RampContinues(plan, n, step, |front|, size);
    var aim := Ceiling(size);
    CeilingOfWhole(plan.pageSize);
    assert front == [] ==> aim == plan.pageSize;
    var take := Min(aim, remaining);
    DealFront(front, back, remaining, n, take);
    RampGrows(step, front, take, remaining);
    front := front + [take];
    remaining, budget := remaining - take, budget - 1;
    if plan.symmetric {
      if remaining == 0 || budget <= 1 {
        return;
      }
      take := Min(aim, remaining);
      DealBack(front, back, remaining, n, take);
      RampGrows(step, back, take, remaining);
      back := back + [take];
      remaining, budget := remaining - take, budget - 1;
    }
    size := Grow(size, plan.growth, n);
  }

  /** `out` reads a ramp from both ends: `middle` buckets from the front, the others from the back. */
  ghost predicate TwoRamps(symmetric: bool, maxBuckets: nat, step: nat -> int, out: seq<nat>, middle: nat) {
    var back := |out| - middle;
    && 0 < middle <= |out| <= maxBuckets
    && (if symmetric then back <= middle <= back + 2 else back == 0)
    && (if |out| < maxBuckets then middle <= back + 1 || !symmetric else back < middle)
    && (forall i :: 0 <= i < middle && (i < middle - 1 || middle == back) ==> out[i] == step(i))
    && (|out| < maxBuckets ==> out[middle - 1] <= step(middle - 1))
    && (forall i :: 0 <= i < back ==> Reverse(out)[i] <= step(i))
    && (forall i :: 0 <= i < back && (i < back - 1 || back < middle) ==> Reverse(out)[i] == step(i))
  }

  method GeometricSizes(plan: BucketPlan, n: nat) returns (out: seq<nat>)
    requires plan.WellFormed() && 0 < n
    ensures Cuts(out, n, plan.maxBuckets) && GeometricCut(plan, n, out)
  {
    var front: seq<nat>, back: seq<nat> := [], [];
    var remaining, budget := n, plan.maxBuckets;
    var size := plan.pageSize as real;
    ghost var step := RampSteps(plan, n);
    RampStarts(plan, n);
    while remaining > 0 && budget > 1
      invariant Dealing(plan, n, front, back, remaining, budget, size)
      invariant Ramping(plan.symmetric, step, front, back, remaining, budget)
      invariant remaining > 0 && budget > 1 ==> OnRamp(plan, n, step, |front|, size)
      decreases budget
    {
      front, back, remaining, budget, size := DealRound(plan, n, front, back, remaining, budget, size, step);
    }
    out := CloseRamps(plan, n, front, back, remaining, budget, size, step);
  }

  /** What is left becomes the middle bucket. */
  method CloseRamps(plan: BucketPlan, n: nat, front0: seq<nat>, back: seq<nat>, remaining: nat, ghost budget: nat,
                    ghost size: real, ghost step: nat -> int)
    returns (out: seq<nat>)
    requires plan.WellFormed() && 0 < n && (remaining == 0 || budget == 1) && step == RampSteps(plan, n)
    requires Dealing(plan, n, front0, back, remaining, budget, size)
    requires Ramping(plan.symmetric, step, front0, back, remaining, budget)
    ensures Cuts(out, n, plan.maxBuckets) && GeometricCut(plan, n, out)
  {
    RampsMeet(plan.symmetric, plan.maxBuckets, step, front0, back, remaining, budget);
    var front := front0;
    if remaining > 0 {
      DealFront(front, back, remaining, n, remaining);
      front := front + [remaining];
    }
    out := front + Reverse(back);
    assert TwoRamps(plan.symmetric, plan.maxBuckets, step, out, |front|);
    Assembled(front, back, n);
  }

  lemma RampsMeet(symmetric: bool, maxBuckets: nat, step: nat -> int, front: seq<nat>, back: seq<nat>, remaining: nat,
                  budget: nat)
    requires (remaining == 0 || budget == 1) && (remaining == 0 ==> front != []) && 1 <= budget
    requires Ramping(symmetric, step, front, back, remaining, budget) && |front| + |back| + budget == maxBuckets
    ensures var all := if remaining > 0 then front + [remaining] else front;
      TwoRamps(symmetric, maxBuckets, step, all + Reverse(back), |all|)
  {
    var all := if remaining > 0 then front + [remaining] else front;
    ReversedBack(all, back);
  }

  lemma ReversedBack(front: seq<nat>, back: seq<nat>)
    ensures forall i :: 0 <= i < |back| ==> Reverse(front + Reverse(back))[i] == back[i]
  {
  }

  lemma Assembled(front: seq<nat>, back: seq<nat>, n: nat)
    requires Dealt(front, back, 0, n)
    ensures Sum(front + Reverse(back)) == n && AllPositive(front + Reverse(back))
  {
    DealtMeans(front, back, 0, n);
    SumConcat(front, Reverse(back));
    SumReverse(back);
  }

  /** The next size, never above n and never below one element. */
  function Grow(size: real, growth: real, n: nat): (r: real)
    requires 1.0 <= size && 1.0 <= growth && 0 < n
    ensures 1.0 <= r <= n as real
  {
    assert 1.0 * 1.0 <= size * growth;
    if size * growth < n as real then size * growth else n as real
  }

  /** Every plan kind cuts n elements into at most maxBuckets non-empty buckets; n = 0 gives [0]. */
  method TargetSizes(plan: BucketPlan, n: nat) returns (out: seq<nat>)
    requires plan.WellFormed()
    ensures AsPlanned(plan, n, out)
  {
    if n == 0 {
      return [0];
    }
    match plan.kind
    case Uniform => out := UniformSizes(plan, n);
    case Explicit => out := ExplicitSizes(plan, n);
    case FirstPage =>
      FirstPageCuts(plan, n);
      out := FirstPageSizes(plan, n);
    case Geometric =>
      out := GeometricSizes(plan, n);
  }

  /** The plan each of `groups` groups gets, so that all their ids together stay within the limit. */
  function PerGroup(plan: BucketPlan, groups: nat): (r: BucketPlan)
    requires plan.WellFormed() && 0 < groups <= 256
    ensures r.WellFormed() && r == plan.(maxBuckets := r.maxBuckets) && r.maxBuckets <= plan.maxBuckets
    ensures groups * r.maxBuckets <= MAX_BUCKET_LIMIT
    ensures r.maxBuckets < plan.maxBuckets ==> MAX_BUCKET_LIMIT < groups * (r.maxBuckets + 1)
  {
    var share := MAX_BUCKET_LIMIT / groups;
    assert share * groups <= MAX_BUCKET_LIMIT < groups * (share + 1);
    var limit := Min(plan.maxBuckets, share);
    assert 0 < limit && groups * limit <= groups * share;
    plan.WithMaxBuckets(limit).value
  }
}
