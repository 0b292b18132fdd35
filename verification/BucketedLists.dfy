/**
 bucketed_list.hpp, the interface, as a naive list: elements in insertion order, the registered
 sort keys, and the order selected for reading. No buckets, layouts, plans or caches.
 */
module BucketedLists {
  import opened Sequences
  import Compaction
  import opened SortKeys
  import opened Views
  import opened BucketPlans
  import opened Reads
  import opened ReadOrders

  /** Slots are 32-bit and the largest value marks removals, so this many elements fit. */
  const MAX_ELEMENTS: nat := Compaction.REMOVED

  datatype Op<!T> =
    | AddSortKey(key: SortKey<T>)
    | RemoveSortKey(name: string)
    | SortBy(name: string, direction: Direction)
    | Unsort
    | Add(x: T)
    | AddAll(xs: seq<T>)
    | RemoveIf(matches: T -> bool)
    | UpdateIf(matches: T -> bool, mutate: Option<T -> T>)
    | Clear
    | Rebalance(name: string)
    | RebalanceAll
    | SetPlan(plan: BucketPlan)
    | At(position: nat)
    | Range(from: nat, to: nat)
    | PositionIf(matches: T -> bool)
    | ForEach
    | SortAll

  datatype Outcome<+T> =
    | Done
    | Failed                              // the exceptions: unknown or duplicate name, out of range, too many elements
    | Answer(yes: bool)
    | Number(n: nat)
    | Element(x: T)
    | Elements(xs: seq<T>)
    | Position(p: Option<int>)

  function Not<T>(p: T -> bool): T -> bool {
    x => !p(x)
  }

  function Mutated<T>(matches: T -> bool, mutate: Option<T -> T>, items: seq<T>): (r: seq<T>)
    ensures |r| == |items|
    ensures forall i :: 0 <= i < |items| ==>
              r[i] == if matches(items[i]) && mutate.Some? then mutate.value(items[i]) else items[i]
  {
    seq(|items|, i requires 0 <= i < |items| =>
      if matches(items[i]) && mutate.Some? then mutate.value(items[i]) else items[i])
  }

  /** The first slot whose element matches; |items| if none does. */
  function FirstMatch<T>(matches: T -> bool, items: seq<T>): (r: nat)
    ensures r <= |items|
    ensures forall i :: 0 <= i < r ==> !matches(items[i])
    ensures r < |items| ==> matches(items[r])
  {
    if items == [] || matches(items[0]) then 0 else 1 + FirstMatch(matches, items[1..])
  }

  /** The position of `slot` in a permutation of the slots. */
  function IndexOf(s: seq<nat>, slot: nat): (r: nat)
    ensures r <= |s| && (slot in s ==> r < |s| && s[r] == slot)
  {
    if s == [] || s[0] == slot then 0 else 1 + IndexOf(s[1..], slot)
  }

  datatype List<!T> = List(items: seq<T>, keys: seq<SortKey<T>>, active: Option<nat>, direction: Direction)
  {
    predicate Valid() {
      active.Some? ==> active.value < |keys|
    }

    function FindKey(name: string): (r: nat)
      ensures r <= |keys| && (forall i :: 0 <= i < r ==> keys[i].name != name) && (r < |keys| ==> keys[r].name == name)
    {
      FindName(keys, name)
    }

    /** The list in its current order. */
    function Current(): seq<T>
      requires Valid()
    {
      if active.None? then items else View(keys[active.value], direction, items)
    }

    /** Where the element of a slot is in the current order. */
    function PositionOf(slot: nat): int
      requires Valid()
    {
      if active.None? then slot
      else AscendingPosition(keys[active.value], direction, items,
          IndexOf(AscendingSlots(keys[active.value], items), slot))
    }
  }

  function FindName<T>(keys: seq<SortKey<T>>, name: string): (r: nat)
    ensures r <= |keys| && (forall i :: 0 <= i < r ==> keys[i].name != name) && (r < |keys| ==> keys[r].name == name)
  {
    if keys == [] || keys[0].name == name then 0 else 1 + FindName(keys[1..], name)
  }

  /** The slot read at that position is this one, not merely one with an equal element. */
  lemma PositionHoldsElement<T(!new)>(list: List<T>, slot: nat)
    requires list.Valid() && slot < |list.items|
    requires list.active.Some? ==> WellFormed(list.keys[list.active.value]) && Consistent(list.keys[list.active.value])
    ensures 0 <= list.PositionOf(slot) < |list.Current()| && list.Current()[list.PositionOf(slot)] == list.items[slot]
    ensures if list.active.None? then list.PositionOf(slot) == slot
        else SlotReadAt(list.keys[list.active.value], list.direction, list.items, list.PositionOf(slot)) == slot
  {
    if list.active.Some? {
      var sk, items := list.keys[list.active.value], list.items;
      var s := AscendingSlots(sk, items);
      AscendingSlotsPermute(sk, items);
      PermutationCovers(s, |items|);
      var i := IndexOf(s, slot);
      AscendingPositionInvolution(sk, list.direction, items, i);
      ViewAt(sk, list.direction, items, AscendingPosition(sk, list.direction, items, i), i);
    }
  }

  /** What an operation must be given: usable sort keys and plans. */
  ghost predicate Usable<T(!new)>(op: Op<T>) {
    match op
    case AddSortKey(key) => WellFormed(key) && Consistent(key)
    case SetPlan(plan) => plan.WellFormed()
    case _ => true
  }

  function WithoutKey<T>(list: List<T>, i: nat): (r: List<T>)
    requires list.Valid() && i < |list.keys|
    ensures r.Valid()
  {
    list.(keys := list.keys[..i] + list.keys[i + 1..], active := Renumbered(list.active, i))
  }

  /** The number of the active key once key `i` is gone. */
  function Renumbered(active: Option<nat>, i: nat): Option<nat> {
    if active == None || active.value == i then None
    else if active.value > i then Some(active.value - 1)
    else active
  }

  /** One operation on the naive list: the list afterwards and what the caller sees. */
  ghost function Step<T(!new)>(list: List<T>, op: Op<T>): (r: (List<T>, Outcome<T>))
    requires list.Valid()
    ensures r.0.Valid()
  {
    match op
    case AddSortKey(key) =>
      if list.FindKey(key.name) < |list.keys| then (list, Failed) else (list.(keys := list.keys + [key]), Done)
    case RemoveSortKey(name) =>
      if list.FindKey(name) == |list.keys| then (list, Answer(false))
          else (WithoutKey(list, list.FindKey(name)), Answer(true))
    case SortBy(name, direction) =>
      if list.FindKey(name) == |list.keys| then (list, Failed)
      else (list.(active := Some(list.FindKey(name)), direction := direction), Done)
    case Unsort => (list.(active := None), Done)
    case Add(x) => if |list.items| >= MAX_ELEMENTS then (list, Failed) else (list.(items := list.items + [x]), Done)
    case AddAll(xs) =>
      if |list.items| + |xs| <= MAX_ELEMENTS then (list.(items := list.items + xs), Done)
      else if |list.items| >= MAX_ELEMENTS then (list, Failed)
      else (list.(items := list.items + xs[..MAX_ELEMENTS - |list.items|]), Failed)
    case RemoveIf(matches) =>
      (list.(items := Filter(Not(matches), list.items)), Number(|Filter(matches, list.items)|))
    case UpdateIf(matches, mutate) =>
      (list.(items := Mutated(matches, mutate, list.items)), Number(|Filter(matches, list.items)|))
    case Clear => (list.(items := []), Done)
    case Rebalance(name) => (list, if list.FindKey(name) == |list.keys| then Failed else Done)
    case RebalanceAll => (list, Done)
    case SetPlan(_) => (list, Done)
    case At(p) => (list, if p < |list.Current()| then Element(list.Current()[p]) else Failed)
    case Range(from, to) =>
      var end := Min(to, |list.Current()|);
      (list, Elements(if from < end then list.Current()[from..end] else []))
    case PositionIf(matches) =>
      var slot := FirstMatch(matches, list.items);
      (list, Position(if slot == |list.items| then None else Some(list.PositionOf(slot))))
    case ForEach => (list, Elements(list.Current()))
    case SortAll => (list, Done)
  }

  /** A whole run: the final list and every outcome in turn. */
  ghost function Run<T(!new)>(list: List<T>, ops: seq<Op<T>>): (r: (List<T>, seq<Outcome<T>>))
    requires list.Valid()
    ensures r.0.Valid()
    decreases |ops|
  {
    if ops == [] then (list, [])
    else
      var (before, outs) := Run(list, ops[..|ops| - 1]);
      var (after, out) := Step(before, ops[|ops| - 1]);
      (after, outs + [out])
  }
}
