/**
 Whole runs of the index. Whatever the operations, in whatever order, with whatever plans and lazy
 reads in between, every answer is the one the naive list gives.
 */
module Runs {
  import opened Sequences
  import opened SortKeys
  import opened BucketPlans
  import opened BucketedLists
  import opened BucketIndexes

  /** Operations that register, remove or select sort keys. */
  method PerformOnKeys<T(!new)>(index: BucketIndex<T>, op: Op<T>) returns (out: Outcome<T>)
    requires index.Valid() && Usable(op) && (op.AddSortKey? || op.RemoveSortKey? || op.SortBy? || op.Unsort?)
    modifies index, index.states
    ensures index.Valid() && fresh(set s | s in index.states && s !in old(index.states))
    ensures (index.Contents(), out) == Step(old(index.Contents()), op)
  {
    match op
    case AddSortKey(key) =>
      var ok := index.AddSortKey(key);
      out := if ok then Done else Failed;
    case RemoveSortKey(name) =>
      var found := index.RemoveSortKey(name);
      out := Answer(found);
    case SortBy(name, direction) =>
      var ok := index.SortBy(name, direction);
      out := if ok then Done else Failed;
    case Unsort =>
      index.Unsort();
      out := Done;
  }

  /** Operations that change the elements. */
  method PerformOnElements<T(!new)>(index: BucketIndex<T>, op: Op<T>) returns (out: Outcome<T>)
    requires index.Valid() && (op.Add? || op.AddAll? || op.RemoveIf? || op.UpdateIf? || op.Clear?)
    modifies index, index.states
    ensures index.Valid() && index.states == old(index.states)
    ensures (index.Contents(), out) == Step(old(index.Contents()), op)
  {
    ghost var was := index.items;
    match op
    case Add(x) =>
      var ok := index.Add(x);
      out := if ok then Done else Failed;
    case AddAll(xs) =>
      var ok := index.AddAll(xs);
      assert ok ==> xs[..|xs|] == xs;
      assert !ok && |was| >= MAX_ELEMENTS ==> was + xs[..0] == was;
      out := if ok then Done else Failed;
    case RemoveIf(matches) =>
      var removed := index.RemoveIf(matches);
      out := Number(removed);
    case UpdateIf(matches, mutate) =>
      var updated := index.UpdateIf(matches, mutate);
      out := Number(updated);
    case Clear =>
      index.Clear();
      out := Done;
  }

  /** Operations on the layouts alone, which no answer depends on. */
  method PerformOnLayouts<T(!new)>(index: BucketIndex<T>, op: Op<T>) returns (out: Outcome<T>)
    requires index.Valid() && Usable(op) && (op.Rebalance? || op.RebalanceAll? || op.SetPlan?)
    modifies index, index.states
    ensures index.Valid() && index.states == old(index.states)
    ensures (index.Contents(), out) == Step(old(index.Contents()), op)
  {
    match op
    case Rebalance(name) =>
      var ok := index.Rebalance(name);
      out := if ok then Done else Failed;
    case RebalanceAll =>
      index.RebalanceAll();
      out := Done;
    case SetPlan(plan) =>
      index.SetPlan(plan);
      out := Done;
  }

  /** Reads by position, which sort buckets behind the scenes. */
  method PerformRead<T(!new)>(index: BucketIndex<T>, op: Op<T>) returns (out: Outcome<T>)
    requires index.Valid() && (op.At? || op.Range?)
    modifies index.states
    ensures index.Valid()
    ensures (index.Contents(), out) == Step(old(index.Contents()), op)
  {
    match op
    case At(p) =>
      var x := index.At(p);
      out := if x.Some? then Element(x.value) else Failed;
    case Range(from, to) =>
      var xs := index.Range(from, to);
      out := Elements(xs);
  }

  /** Reads that search or walk the whole list. */
  method PerformVisit<T(!new)>(index: BucketIndex<T>, op: Op<T>) returns (out: Outcome<T>)
    requires index.Valid() && (op.PositionIf? || op.ForEach? || op.SortAll?)
    modifies index.states
    ensures index.Valid()
    ensures (index.Contents(), out) == Step(old(index.Contents()), op)
  {
    match op
    case PositionIf(matches) =>
      var p := index.PositionIf(matches);
      out := Position(if p.Some? then Some(p.value) else None);
    case ForEach =>
      var xs := index.ForEach();
      out := Elements(xs);
    case SortAll =>
      index.SortAll();
      out := Done;
  }

  method Perform<T(!new)>(index: BucketIndex<T>, op: Op<T>) returns (out: Outcome<T>)
    requires index.Valid() && Usable(op)
    modifies index, index.states
    ensures index.Valid() && fresh(set s | s in index.states && s !in old(index.states))
    ensures (index.Contents(), out) == Step(old(index.Contents()), op)
  {
    if op.AddSortKey? || op.RemoveSortKey? || op.SortBy? || op.Unsort? {
      out := PerformOnKeys(index, op);
    } else if op.Add? || op.AddAll? || op.RemoveIf? || op.UpdateIf? || op.Clear? {
      out := PerformOnElements(index, op);
    } else if op.Rebalance? || op.RebalanceAll? || op.SetPlan? {
      out := PerformOnLayouts(index, op);
    } else if op.At? || op.Range? {
      out := PerformRead(index, op);
    } else {
      out := PerformVisit(index, op);
    }
  }

  lemma RunGrows<T(!new)>(list: List<T>, ops: seq<Op<T>>, i: nat)
    requires list.Valid() && i < |ops|
    ensures var (before, outs) := Run(list, ops[..i]);
      var (after, out) := Step(before, ops[i]);
      Run(list, ops[..i + 1]) == (after, outs + [out])
  {
    assert ops[..i + 1][..i] == ops[..i];
  }

  /** A run from an empty index answers as the naive list does, for every initial plan. */
  method Execute<T(!new)>(plan: BucketPlan, ops: seq<Op<T>>) returns (outs: seq<Outcome<T>>)
    requires plan.WellFormed() && forall i :: 0 <= i < |ops| ==> Usable(ops[i])
    ensures outs == Run(List([], [], None, AscendingOrder), ops).1
  {
    var index := new BucketIndex(plan);
    ghost var empty: List<T> := List([], [], None, AscendingOrder);
    outs := [];
    for i := 0 to |ops|
      invariant fresh(index) && index.Valid() && fresh(index.states)
      invariant (index.Contents(), outs) == Run(empty, ops[..i])
    {
      RunGrows(empty, ops, i);
      var out := Perform(index, ops[i]);
      outs := outs + [out];
    }
    assert ops[..|ops|] == ops;
  }
}
