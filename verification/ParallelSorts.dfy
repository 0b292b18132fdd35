/**
 dolphin_sort.h, parallelMergeSort, as a machine: halves handed to other threads advance in any
 interleaving. Every schedule ends, and ends with what the sequential sort produces.
 */
module ParallelSorts {
  import opened Sequences
  import opened RotationMerges
  import opened DolphinSorts

  /** Work left to do. `Both` holds the two halves being sorted at once and where they meet. */
  datatype Task =
    | Idle
    | Sort(lo: nat, hi: nat, threads: int)
    | Merge(lo: nat, mid: nat, hi: nat)
    | Then(first: Task, second: Task)
    | Both(left: Task, meet: nat, right: Task)

  /** All positions lie in lo..hi, and concurrent halves do not share any. */
  ghost predicate Scoped(t: Task, lo: nat, hi: nat) {
    match t
    case Idle => true
    case Sort(a, b, _) => lo <= a <= b <= hi
    case Merge(a, m, b) => lo <= a <= m <= b <= hi
    case Then(p, q) => Scoped(p, lo, hi) && Scoped(q, lo, hi)
    case Both(p, m, q) => lo <= m <= hi && Scoped(p, lo, m) && Scoped(q, m, hi)
  }

  // --- steps ---------------------------------------------------------------------------------

  /** How a call of the sort proceeds: forked while there are threads and enough elements. */
  function SortNext(lo: nat, hi: nat, threads: int, threshold: int): Task
    requires lo <= hi
  {
    var mid := lo + (hi - lo) / 2;
    if threads > 1 && hi - lo > threshold then
      Then(Both(Sort(lo, mid, threads / 2), mid, Sort(mid, hi, threads / 2)), Merge(lo, mid, hi))
    else if hi - lo < 2 then Idle
    else Then(Then(Sort(lo, mid, 1), Sort(mid, hi, 1)), Merge(lo, mid, hi))
  }

  /** How a call of the merge proceeds, and what it does to the elements. */
  ghost function MergeNext<X>(less: Less<X>, s: seq<X>, lo: nat, mid: nat, hi: nat): (r: (Task, seq<X>))
    requires lo <= mid <= hi <= |s|
    ensures |r.1| == |s|
  {
    if lo == mid || mid == hi then (Idle, s)
    else if hi - lo == 2 then (Idle, if less(s[lo + 1], s[lo]) then s[lo := s[lo + 1]][lo + 1 := s[lo]] else s)
    else CutNext(s, lo, mid, hi, Cuts(less, s[lo..mid], s[mid..hi]))
  }

  /** The inner parts change places; what is left is to merge on either side of where they meet. */
  function CutNext<X>(s: seq<X>, lo: nat, mid: nat, hi: nat, cuts: (nat, nat)): (r: (Task, seq<X>))
    requires lo <= mid <= hi <= |s| && lo + cuts.0 <= mid && mid + cuts.1 <= hi
    ensures |r.1| == |s|
  {
    var f, e, p := lo + cuts.0, mid + cuts.1, lo + cuts.0 + cuts.1;
    (Then(Merge(lo, f, p), Merge(p, e, hi)), Rotated(s, f, mid, e))
  }

  /** One step of some thread. */
  ghost predicate Steps<X>(less: Less<X>, threshold: int, t: Task, s: seq<X>, t': Task, s': seq<X>)
    requires Scoped(t, 0, |s|)
  {
    ScopedWider(t, 0, |s|);
    match t
    case Idle => false
    case Sort(lo, hi, threads) => t' == SortNext(lo, hi, threads, threshold) && s' == s
    case Merge(lo, mid, hi) => (t', s') == MergeNext(less, s, lo, mid, hi)
    case Then(p, q) =>
      if p == Idle then t' == q && s' == s
      else t'.Then? && t'.second == q && Steps(less, threshold, p, s, t'.first, s')
    case Both(p, m, q) =>
      || (p == Idle && q == Idle && t' == Idle && s' == s)
      || (t'.Both? && t'.meet == m && t'.right == q && Steps(less, threshold, p, s, t'.left, s'))
      || (t'.Both? && t'.meet == m && t'.left == p && Steps(less, threshold, q, s, t'.right, s'))
  }

  lemma {:induction false} ScopeGrows(t: Task, lo: nat, hi: nat, lo': nat, hi': nat)
    requires Scoped(t, lo, hi) && lo' <= lo && hi <= hi'
    ensures Scoped(t, lo', hi')
  {
    match t
    case Then(p, q) =>
      ScopeGrows(p, lo, hi, lo', hi');
      ScopeGrows(q, lo, hi, lo', hi');
    case Both(p, m, q) =>
      ScopeGrows(p, lo, m, lo', m);
      ScopeGrows(q, m, hi, m, hi');
    case _ =>
  }

  /** The halves of concurrent work are in scope of the whole. */
  lemma ScopedWider(t: Task, lo: nat, hi: nat)
    requires Scoped(t, lo, hi)
    ensures t.Both? ==> Scoped(t.left, lo, hi) && Scoped(t.right, lo, hi)
  {
    if t.Both? {
      ScopeGrows(t.left, lo, t.meet, lo, hi);
      ScopeGrows(t.right, t.meet, hi, lo, hi);
    }
  }

  // --- calls as a whole ----------------------------------------------------------------------------

  /** What a call does to the elements when it runs alone. */
  type Calls<!X> = (Task, seq<X>) -> seq<X>

  ghost function CallOutcome<X>(less: Less<X>, t: Task, s: seq<X>): seq<X> {
    match t
    case Sort(lo, hi, _) => if lo <= hi <= |s| then SortedAt(less, s, lo, hi) else s
    case Merge(lo, mid, hi) => if lo <= mid <= hi <= |s| then MergedAt(less, s, lo, mid, hi) else s
    case _ => s
  }

  /** `call` is that function. Opened only on request, so that proofs about schedules never look into the merge. */
  ghost predicate Faithful<X(!new)>(less: Less<X>, call: Calls<X>) {
    forall u {:trigger Opened(u)} :: Opened(u) ==> forall t, s :: call(t, s) == CallOutcome(less, t, s)
  }

  lemma CallIs<X(!new)>(less: Less<X>, call: Calls<X>, t: Task, s: seq<X>)
    requires Faithful(less, call)
    ensures call(t, s) == CallOutcome(less, t, s)
  {
    assert Opened(0);
  }

  ghost predicate SameOn<X>(s: seq<X>, u: seq<X>, lo: nat, hi: nat) {
    |s| == |u| && forall i :: lo <= i < hi && i < |s| ==> s[i] == u[i]
  }

  ghost predicate SameOutside<X>(s: seq<X>, u: seq<X>, lo: nat, hi: nat) {
    |s| == |u| && forall i :: 0 <= i < |s| && !(lo <= i < hi) ==> s[i] == u[i]
  }

  lemma SameSlice<X>(s: seq<X>, u: seq<X>, lo: nat, hi: nat, a: nat, b: nat)
    requires SameOn(s, u, lo, hi) && lo <= a <= b <= hi <= |s|
    ensures s[a..b] == u[a..b]
  {
  }

  lemma SplicedLocal<X>(s: seq<X>, u: seq<X>, lo: nat, hi: nat, a: nat, b: nat, x: seq<X>)
    requires SameOn(s, u, lo, hi) && lo <= a <= b <= hi <= |s| && |x| == b - a
    ensures SameOutside(s, Spliced(s, a, b, x), lo, hi) && SameOn(Spliced(s, a, b, x), Spliced(u, a, b, x), lo, hi)
  {
  }

  /** A call touches its own range only, and depends on nothing else. */
  lemma CallLocal<X(!new)>(less: Less<X>, call: Calls<X>, t: Task, lo: nat, hi: nat, s: seq<X>, u: seq<X>)
    requires Faithful(less, call) && (t.Sort? || t.Merge?) && Scoped(t, lo, hi) && hi <= |s| && SameOn(s, u, lo, hi)
    ensures SameOutside(s, call(t, s), lo, hi) && SameOn(call(t, s), call(t, u), lo, hi)
  {
    CallIs(less, call, t, s);
    CallIs(less, call, t, u);
    match t
    case Sort(a, b, _) =>
      SameSlice(s, u, lo, hi, a, b);
      MergeSortedPermutes(less, s[a..b]);
      SplicedLocal(s, u, lo, hi, a, b, MergeSorted(less, s[a..b]));
    case Merge(a, m, b) =>
      SameSlice(s, u, lo, hi, a, m);
      SameSlice(s, u, lo, hi, m, b);
      SplicedLocal(s, u, lo, hi, a, b, Merged(less, s, a, m, b));
  }

  lemma TrivialSort<X(!new)>(less: Less<X>, call: Calls<X>, s: seq<X>, lo: nat, hi: nat, n: int)
    requires Faithful(less, call) && lo <= hi <= |s| && hi - lo < 2
    ensures call(Sort(lo, hi, n), s) == s
  {
    CallIs(less, call, Sort(lo, hi, n), s);
  }

  lemma TrivialMerge<X(!new)>(less: Less<X>, call: Calls<X>, s: seq<X>, lo: nat, mid: nat, hi: nat)
    requires Faithful(less, call) && lo <= mid <= hi <= |s| && (lo == mid || mid == hi)
    ensures call(Merge(lo, mid, hi), s) == s
  {
    CallIs(less, call, Merge(lo, mid, hi), s);
    NothingToMerge(less, s, lo, mid, hi);
    MergeMeans(less, s, lo, mid, hi, s);
  }

  lemma PairMerge<X(!new)>(less: Less<X>, call: Calls<X>, s: seq<X>, lo: nat)
    requires Faithful(less, call) && lo + 2 <= |s|
    ensures call(Merge(lo, lo + 1, lo + 2), s) == if less(s[lo + 1], s[lo]) then s[lo := s[lo + 1]][lo + 1 := s[lo]]
        else s
  {
    var r := if less(s[lo + 1], s[lo]) then s[lo := s[lo + 1]][lo + 1 := s[lo]] else s;
    CallIs(less, call, Merge(lo, lo + 1, lo + 2), s);
    TwoToMerge(less, s, lo);
    MergeMeans(less, s, lo, lo + 1, lo + 2, r);
  }

  lemma CutMerge<X(!new)>(less: Less<X>, call: Calls<X>, s: seq<X>, lo: nat, f: nat, mid: nat, e: nat, hi: nat, p: nat)
    requires Faithful(less, call) && lo < mid < hi <= |s| && hi - lo > 2 && p == f + (e - mid)
    requires lo <= f <= mid <= e <= hi && (f - lo, e - mid) == Cuts(less, s[lo..mid], s[mid..hi])
    ensures call(Merge(p, e, hi), call(Merge(lo, f, p), Rotated(s, f, mid, e))) == call(Merge(lo, mid, hi), s)
  {
    var r := Rotated(s, f, mid, e);
    var first := call(Merge(lo, f, p), r);
    CallMerges(less, call, r, lo, f, p);
    CallMerges(less, call, first, p, e, hi);
    CallMerges(less, call, s, lo, mid, hi);
    MergesCombine(less, s, lo, f, mid, e, hi, p, first, call(Merge(p, e, hi), first));
    MergedOnce(less, s, lo, mid, hi, call(Merge(p, e, hi), first), call(Merge(lo, mid, hi), s));
  }

  lemma CallMerges<X(!new)>(less: Less<X>, call: Calls<X>, s: seq<X>, lo: nat, mid: nat, hi: nat)
    requires Faithful(less, call) && lo <= mid <= hi <= |s|
    ensures IsMerged(less, s, lo, mid, hi, call(Merge(lo, mid, hi), s)) && |call(Merge(lo, mid, hi), s)| == |s|
  {
    CallIs(less, call, Merge(lo, mid, hi), s);
  }

  lemma MergedOnce<X>(less: Less<X>, s: seq<X>, lo: nat, mid: nat, hi: nat, x: seq<X>, y: seq<X>)
    requires lo <= mid <= hi <= |s| && IsMerged(less, s, lo, mid, hi, x) && IsMerged(less, s, lo, mid, hi, y)
    ensures x == y
  {
    assert Opened(0);
  }

  lemma SortHalvesAndMerge<X(!new)>(less: Less<X>, call: Calls<X>, s: seq<X>, lo: nat, mid: nat, hi: nat, n: int,
                                    k: int)
    requires Faithful(less, call) && lo <= hi <= |s| && mid == lo + (hi - lo) / 2
    ensures call(Merge(lo, mid, hi), call(Sort(mid, hi, k), call(Sort(lo, mid, k), s))) == call(Sort(lo, hi, n), s)
  {
    if hi - lo < 2 {
      TrivialSort(less, call, s, lo, mid, k);
      TrivialSort(less, call, s, mid, hi, k);
      TrivialSort(less, call, s, lo, hi, n);
      TrivialMerge(less, call, s, lo, mid, hi);
    } else {
      CallIs(less, call, Sort(lo, mid, k), s);
      var left := call(Sort(lo, mid, k), s);
      CallIs(less, call, Sort(mid, hi, k), left);
      CallIs(less, call, Merge(lo, mid, hi), call(Sort(mid, hi, k), left));
      CallIs(less, call, Sort(lo, hi, n), s);
      SortStep(less, s, lo, mid, hi);
    }
  }

  // --- what is left amounts to ------------------------------------------------------------------

  /** The elements after doing all of `t` on one thread, left halves first. */
  ghost function Outcome<X>(call: Calls<X>, t: Task, s: seq<X>): seq<X> {
    match t
    case Idle => s
    case Then(p, q) => Outcome(call, q, Outcome(call, p, s))
    case Both(p, _, q) => Outcome(call, q, Outcome(call, p, s))
    case _ => call(t, s)
  }

  /** Work touches its scope only, and depends on nothing else. */
  lemma {:induction false} OutcomeLocal<X(!new)>(less: Less<X>, call: Calls<X>, t: Task, lo: nat, hi: nat, s: seq<X>,
      u: seq<X>)
    requires Faithful(less, call) && Scoped(t, lo, hi) && hi <= |s| && SameOn(s, u, lo, hi)
    ensures SameOutside(s, Outcome(call, t, s), lo, hi) && SameOn(Outcome(call, t, s), Outcome(call, t, u), lo, hi)
  {
    match t
    case Idle =>
    case Then(p, q) =>
      OutcomeLocal(less, call, p, lo, hi, s, u);
      OutcomeLocal(less, call, q, lo, hi, Outcome(call, p, s), Outcome(call, p, u));
    case Both(p, m, q) =>
      ScopedWider(t, lo, hi);
      OutcomeLocal(less, call, p, lo, hi, s, u);
      OutcomeLocal(less, call, q, lo, hi, Outcome(call, p, s), Outcome(call, p, u));
    case _ =>
      CallLocal(less, call, t, lo, hi, s, u);
  }

  /** Work on disjoint ranges commutes: a step of the right half is as good after the left half as before it. */
  lemma HalvesCommute<X(!new)>(less: Less<X>, call: Calls<X>, p: Task, q: Task, q': Task, lo: nat, m: nat, hi: nat,
                               s: seq<X>, s': seq<X>)
    requires Faithful(less, call) && lo <= m <= hi <= |s| && Scoped(p, lo, m) && Scoped(q, m, hi) && Scoped(q', m, hi)
    requires SameOutside(s, s', m, hi) && Outcome(call, q', s') == Outcome(call, q, s)
    ensures Outcome(call, q', Outcome(call, p, s')) == Outcome(call, q, Outcome(call, p, s))
  {
    var e, e' := Outcome(call, p, s), Outcome(call, p, s');
    OutcomeLocal(less, call, p, lo, m, s, s');
    OutcomeLocal(less, call, p, lo, m, s', s);
    OutcomeLocal(less, call, q, m, hi, e, s);
    OutcomeLocal(less, call, q', m, hi, e', s');
  }

  // --- every step keeps it -------------------------------------------------------------------------

  lemma SortNextKeeps<X(!new)>(less: Less<X>, call: Calls<X>, threshold: int, s: seq<X>, lo: nat, hi: nat, threads: int)
    requires Faithful(less, call) && lo <= hi <= |s|
    ensures Scoped(SortNext(lo, hi, threads, threshold), lo, hi)
    ensures Outcome(call, SortNext(lo, hi, threads, threshold), s) == call(Sort(lo, hi, threads), s)
  {
    var mid, k := lo + (hi - lo) / 2, if threads > 1 && hi - lo > threshold then threads / 2 else 1;
    var p, q := Sort(lo, mid, k), Sort(mid, hi, k);
    assert Scoped(p, lo, mid) && Scoped(q, mid, hi) && Scoped(p, lo, hi) && Scoped(q, lo, hi);
    if threads > 1 && hi - lo > threshold {
      assert Scoped(Both(p, mid, q), lo, hi);
      SortHalvesAndMerge(less, call, s, lo, mid, hi, threads, k);
      assert Outcome(call, Both(p, mid, q), s) == call(q, call(p, s));
    } else if hi - lo < 2 {
      TrivialSort(less, call, s, lo, hi, threads);
    } else {
      assert Scoped(Then(p, q), lo, hi);
      SortHalvesAndMerge(less, call, s, lo, mid, hi, threads, k);
      assert Outcome(call, Then(p, q), s) == call(q, call(p, s));
    }
  }

  /** `t'` on `s'` is confined to lo..hi and amounts to the merge. Opened only on request: see KeepsMeans. */
  ghost predicate KeepsMerge<X>(call: Calls<X>, s: seq<X>, lo: nat, mid: nat, hi: nat, t': Task, s': seq<X>) {
    forall u {:trigger Opened(u)} :: Opened(u) ==>
      Scoped(t', lo, hi) && SameOutside(s, s', lo, hi) && Outcome(call, t', s') == call(Merge(lo, mid, hi), s)
  }

  lemma KeepsMeans<X>(call: Calls<X>, s: seq<X>, lo: nat, mid: nat, hi: nat, t': Task, s': seq<X>)
    requires KeepsMerge(call, s, lo, mid, hi, t', s')
    ensures Scoped(t', lo, hi) && SameOutside(s, s', lo, hi) && Outcome(call, t', s') == call(Merge(lo, mid, hi), s)
  {
    assert Opened(0);
  }

  lemma TrivialKeeps<X(!new)>(less: Less<X>, call: Calls<X>, s: seq<X>, lo: nat, mid: nat, hi: nat)
    requires Faithful(less, call) && lo <= mid <= hi <= |s| && (lo == mid || mid == hi)
    ensures KeepsMerge(call, s, lo, mid, hi, Idle, s)
  {
    TrivialMerge(less, call, s, lo, mid, hi);
  }

  lemma PairKeeps<X(!new)>(less: Less<X>, call: Calls<X>, s: seq<X>, lo: nat)
    requires Faithful(less, call) && lo + 2 <= |s|
    ensures KeepsMerge(call, s, lo, lo + 1, lo + 2, Idle,
                       if less(s[lo + 1], s[lo]) then s[lo := s[lo + 1]][lo + 1 := s[lo]] else s)
  {
    PairMerge(less, call, s, lo);
  }

  lemma CutKeeps<X(!new)>(less: Less<X>, call: Calls<X>, s: seq<X>, lo: nat, f: nat, mid: nat, e: nat, hi: nat, p: nat)
    requires Faithful(less, call) && lo < mid < hi <= |s| && hi - lo > 2 && p == f + (e - mid)
    requires lo <= f <= mid <= e <= hi && (f - lo, e - mid) == Cuts(less, s[lo..mid], s[mid..hi])
    ensures KeepsMerge(call, s, lo, mid, hi, Then(Merge(lo, f, p), Merge(p, e, hi)), Rotated(s, f, mid, e))
  {
    CutMerge(less, call, s, lo, f, mid, e, hi, p);
    var a, b, r := Merge(lo, f, p), Merge(p, e, hi), Rotated(s, f, mid, e);
    assert Outcome(call, a, r) == call(a, r) && Scoped(a, lo, hi) && Scoped(b, lo, hi);
  }

  /** Where the next step of a merge cuts, and what it leaves. */
  lemma MergeNextCuts<X>(less: Less<X>, s: seq<X>, lo: nat, mid: nat, hi: nat, t': Task, s': seq<X>)
    returns (f: nat, e: nat, p: nat)
    requires lo < mid < hi <= |s| && hi - lo > 2 && (t', s') == MergeNext(less, s, lo, mid, hi)
    ensures lo <= f <= mid <= e <= hi && p == f + (e - mid) && (f - lo, e - mid) == Cuts(less, s[lo..mid], s[mid..hi])
    ensures t' == Then(Merge(lo, f, p), Merge(p, e, hi)) && s' == Rotated(s, f, mid, e)
  {
    var cuts := Cuts(less, s[lo..mid], s[mid..hi]);
    f, e, p := lo + cuts.0, mid + cuts.1, lo + cuts.0 + cuts.1;
    CutNextIs(s, lo, mid, hi, cuts, t', s');
  }

  lemma CutNextIs<X>(s: seq<X>, lo: nat, mid: nat, hi: nat, cuts: (nat, nat), t': Task, s': seq<X>)
    requires lo <= mid <= hi <= |s| && lo + cuts.0 <= mid && mid + cuts.1 <= hi
    requires (t', s') == CutNext(s, lo, mid, hi, cuts)
    ensures var f, e, p := lo + cuts.0, mid + cuts.1, lo + cuts.0 + cuts.1;
      t' == Then(Merge(lo, f, p), Merge(p, e, hi)) && s' == Rotated(s, f, mid, e)
  {
  }

  lemma MergeNextKeeps<X(!new)>(less: Less<X>, call: Calls<X>, s: seq<X>, lo: nat, mid: nat, hi: nat, t': Task,
                                s': seq<X>)
    requires Faithful(less, call) && lo <= mid <= hi <= |s| && (t', s') == MergeNext(less, s, lo, mid, hi)
    ensures KeepsMerge(call, s, lo, mid, hi, t', s')
  {
    if lo == mid || mid == hi {
      assert t' == Idle && s' == s;
      TrivialKeeps(less, call, s, lo, mid, hi);
    } else if hi - lo == 2 {
      assert mid == lo + 1 && hi == lo + 2;
      PairKeeps(less, call, s, lo);
    } else {
      var f, e, p := MergeNextCuts(less, s, lo, mid, hi, t', s');
      CutKeeps(less, call, s, lo, f, mid, e, hi, p);
    }
  }

  lemma {:induction false} StepKeeps<X(!new)>(
    less: Less<X>, call: Calls<X>, threshold: int, t: Task, lo: nat, hi: nat, s: seq<X>, t': Task, s': seq<X>)
    requires Faithful(less, call) && Scoped(t, lo, hi) && hi <= |s| && Scoped(t, 0, |s|)
    requires Steps(less, threshold, t, s, t', s')
    ensures Scoped(t', lo, hi) && SameOutside(s, s', lo, hi) && Outcome(call, t', s') == Outcome(call, t, s)
  {
    ScopedWider(t, 0, |s|);
    match t
    case Idle =>
    case Sort(a, b, threads) =>
      SortNextKeeps(less, call, threshold, s, a, b, threads);
      ScopeGrows(t', a, b, lo, hi);
    case Merge(a, m, b) =>
      MergeNextKeeps(less, call, s, a, m, b, t', s');
      KeepsMeans(call, s, a, m, b, t', s');
      ScopeGrows(t', a, b, lo, hi);
    case Then(p, q) =>
      if p != Idle {
        StepKeeps(less, call, threshold, p, lo, hi, s, t'.first, s');
      }
    case Both(p, m, q) =>
      if p == Idle && q == Idle && t' == Idle {
      } else if t'.right == q && Steps(less, threshold, p, s, t'.left, s') {
        StepKeeps(less, call, threshold, p, lo, m, s, t'.left, s');
      } else {
        StepKeeps(less, call, threshold, q, m, hi, s, t'.right, s');
        HalvesCommute(less, call, p, q, t'.right, lo, m, hi, s, s');
      }
  }

  // --- whole runs ---------------------------------------------------------------------------------------

  datatype Config<X> = Config(task: Task, elements: seq<X>)

  /** Consecutive configurations are one step of some thread apart. */
  ghost predicate IsRun<X>(less: Less<X>, threshold: int, run: seq<Config<X>>) {
    && run != []
    && (forall i :: 0 <= i < |run| ==> Scoped(run[i].task, 0, |run[i].elements|))
    && forall i :: 0 < i < |run| ==>
         Steps(less, threshold, run[i - 1].task, run[i - 1].elements, run[i].task, run[i].elements)
  }

  lemma {:induction false} RunKeeps<X(!new)>(less: Less<X>, call: Calls<X>, threshold: int, run: seq<Config<X>>, i: nat)
    requires Faithful(less, call) && IsRun(less, threshold, run) && i < |run|
    ensures |run[i].elements| == |run[0].elements|
    ensures Outcome(call, run[i].task, run[i].elements) == Outcome(call, run[0].task, run[0].elements)
  {
    if i > 0 {
      RunKeeps(less, call, threshold, run, i - 1);
      var c, d := run[i - 1], run[i];
      StepKeeps(less, call, threshold, c.task, 0, |c.elements|, c.elements, d.task, d.elements);
    }
  }

  /** Every schedule that has run to the end leaves what the sequential sort leaves, for any comparator. */
  lemma ParallelIsSequential<X(!new)>(less: Less<X>, threads: int, threshold: int, run: seq<Config<X>>)
    requires IsRun(less, threshold, run) && run[|run| - 1].task == Idle
    requires run[0].task == Sort(0, |run[0].elements|, threads)
    ensures run[|run| - 1].elements == MergeSorted(less, run[0].elements)
  {
    var s, n := run[0].elements, |run[0].elements|;
    var call: Calls<X> := (t, s) => CallOutcome(less, t, s);
    RunKeeps(less, call, threshold, run, |run| - 1);
    MergeSortedPermutes(less, s);
    assert s[0..n] == s;
    assert SortedAt(less, s, 0, n) == MergeSorted(less, s);
  }

  /** No schedule gets stuck before the end. */
  lemma {:induction false} SomeStep<X(!new)>(less: Less<X>, threshold: int, t: Task, s: seq<X>)
    returns (t': Task, s': seq<X>)
    requires Scoped(t, 0, |s|) && t != Idle
    ensures Steps(less, threshold, t, s, t', s')
  {
    ScopedWider(t, 0, |s|);
    match t
    case Sort(lo, hi, threads) =>
      t', s' := SortNext(lo, hi, threads, threshold), s;
    case Merge(lo, mid, hi) =>
      t', s' := MergeNext(less, s, lo, mid, hi).0, MergeNext(less, s, lo, mid, hi).1;
    case Then(p, q) =>
      if p == Idle {
        t', s' := q, s;
      } else {
        var p';
        p', s' := SomeStep(less, threshold, p, s);
        t' := Then(p', q);
      }
    case Both(p, m, q) =>
      if p != Idle {
        var p';
        p', s' := SomeStep(less, threshold, p, s);
        t' := Both(p', m, q);
      } else if q != Idle {
        var q';
        q', s' := SomeStep(less, threshold, q, s);
        t' := Both(p, m, q');
      } else {
        t', s' := Idle, s;
      }
  }

  // --- every schedule ends --------------------------------------------------------------------------------

  function MergeWork(n: nat): nat {
    if n == 0 then 1 else 4 * n - 2
  }

  /** The square, without multiplication. */
  function Square(n: nat): nat {
    if n == 0 then 0 else Square(n - 1) + 2 * n - 1
  }

  function SortWork(n: nat, threads: nat): nat
    requires 1 <= threads
  {
    7 * Square(n) + 9 * threads - 5
  }

  /** An upper bound on the steps left. */
  function Work(t: Task): nat {
    match t
    case Idle => 0
    case Sort(lo, hi, threads) => SortWork(if lo <= hi then hi - lo else 0, if threads < 1 then 1 else threads)
    case Merge(lo, _, hi) => MergeWork(if lo <= hi then hi - lo else 0)
    case Then(p, q) => 1 + Work(p) + Work(q)
    case Both(p, _, q) => 1 + Work(p) + Work(q)
  }

  lemma SortNextShrinks(lo: nat, hi: nat, threads: int, threshold: int)
    requires lo <= hi
    ensures Work(SortNext(lo, hi, threads, threshold)) < Work(Sort(lo, hi, threads))
  {
    var mid := lo + (hi - lo) / 2;
    if threads > 1 && hi - lo > threshold {
      var k := threads / 2;
      HalvesShrink(lo, mid, hi, threads, k, Both(Sort(lo, mid, k), mid, Sort(mid, hi, k)));
    } else if hi - lo >= 2 {
      HalvesShrink(lo, mid, hi, threads, 1, Then(Sort(lo, mid, 1), Sort(mid, hi, 1)));
    }
  }

  lemma HalvesShrink(lo: nat, mid: nat, hi: nat, threads: int, k: nat, halves: Task)
    requires lo <= mid <= hi && mid - lo == (hi - lo) / 2
    requires (threads > 1 && k == threads / 2) || (hi - lo >= 2 && k == 1)
    requires halves == Both(Sort(lo, mid, k), mid, Sort(mid, hi, k))
        || halves == Then(Sort(lo, mid, k), Sort(mid, hi, k))
    ensures Work(Then(halves, Merge(lo, mid, hi))) < Work(Sort(lo, hi, threads))
  {
    var t := if threads < 1 then 1 else threads;
    HalvesLessWork(hi - lo, mid - lo, hi - mid, t, k);
    WorkOfHalves(lo, mid, hi, k);
    WorkOfSort(lo, hi, threads, t);
    WorkAdds(halves, Merge(lo, mid, hi));
  }

  lemma WorkOfSort(lo: nat, hi: nat, threads: int, t: nat)
    requires lo <= hi && t == if threads < 1 then 1 else threads
    ensures Work(Sort(lo, hi, threads)) == SortWork(hi - lo, t)
  {
  }

  lemma WorkAdds(p: Task, q: Task)
    ensures Work(Then(p, q)) == 1 + Work(p) + Work(q)
  {
  }

  lemma WorkOfHalves(lo: nat, mid: nat, hi: nat, k: int)
    requires lo <= mid <= hi && 1 <= k
    ensures var p, q := Sort(lo, mid, k), Sort(mid, hi, k);
      && Work(Both(p, mid, q)) == Work(Then(p, q)) == 1 + SortWork(mid - lo, k) + SortWork(hi - mid, k)
      && Work(Merge(lo, mid, hi)) == MergeWork(hi - lo)
  {
    var p, q := Sort(lo, mid, k), Sort(mid, hi, k);
    assert Work(p) == SortWork(mid - lo, k) && Work(q) == SortWork(hi - mid, k);
  }

  lemma {:induction false} SquareSplits(a: nat, b: nat)
    requires 1 <= a && 1 <= b
    ensures Square(a) + Square(b) + 2 * (a + b - 1) <= Square(a + b)
  {
    if b > 1 {
      SquareSplits(a, b - 1);
    }
  }

  lemma HalvesLessWork(n: nat, a: nat, b: nat, threads: nat, k: nat)
    requires a == n / 2 && b == n - a
    requires (threads > 1 && k == threads / 2) || (1 <= threads && n >= 2 && k == 1)
    ensures 2 + SortWork(a, k) + SortWork(b, k) + MergeWork(n) < SortWork(n, threads)
  {
    if n >= 2 {
      SquareSplits(a, b);
    }
  }

  lemma {:induction false} StepShrinks<X(!new)>(less: Less<X>, threshold: int, t: Task, s: seq<X>, t': Task, s': seq<X>)
    requires Scoped(t, 0, |s|) && Steps(less, threshold, t, s, t', s')
    ensures Work(t') < Work(t)
  {
    ScopedWider(t, 0, |s|);
    match t
    case Idle =>
    case Sort(lo, hi, threads) => SortNextShrinks(lo, hi, threads, threshold);
    case Merge(lo, mid, hi) =>
    case Then(p, q) =>
      if p != Idle {
        StepShrinks(less, threshold, p, s, t'.first, s');
      }
    case Both(p, m, q) =>
      if p == Idle && q == Idle && t' == Idle {
      } else if t'.right == q && Steps(less, threshold, p, s, t'.left, s') {
        StepShrinks(less, threshold, p, s, t'.left, s');
      } else {
        StepShrinks(less, threshold, q, s, t'.right, s');
      }
  }

  /** No run is longer than the work it starts with, for any comparator, thread count and threshold. */
  lemma {:induction false} RunsEnd<X(!new)>(less: Less<X>, threshold: int, run: seq<Config<X>>)
    requires IsRun(less, threshold, run)
    ensures |run| - 1 + Work(run[|run| - 1].task) <= Work(run[0].task)
  {
    if |run| > 1 {
      var front := run[..|run| - 1];
      RunsEnd(less, threshold, front);
      var c, d := run[|run| - 2], run[|run| - 1];
      assert front[|front| - 1] == c && front[0] == run[0];
      StepShrinks(less, threshold, c.task, c.elements, d.task, d.elements);
    }
  }
}
