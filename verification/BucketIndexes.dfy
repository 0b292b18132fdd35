/** bucket_index.hpp: the index. Its operations and lazy reads refine the naive list of BucketedLists. */
module BucketIndexes {
  import opened Sequences
  import opened SortKeys
  import opened Views
  import opened BucketPlans
  import opened Groupings
  import opened Compaction
  import opened BucketedLists
  import opened KeyStates
  import opened StateSteps
  import opened StateReads
  import opened StateVisits

  function Keys<T(!new)>(states: seq<KeyState<T>>): (keys: seq<SortKey<T>>)
    ensures |keys| == |states| && forall i :: 0 <= i < |states| ==> keys[i] == states[i].sk
  {
    seq(|states|, i requires 0 <= i < |states| => states[i].sk)
  }

  // --- the index -----------------------------------------------------------------------------------

  class BucketIndex<T(!new)> {
    var plan: BucketPlan
    var items: seq<T>
    var states: seq<KeyState<T>>
    var active: Option<nat>
    var direction: Direction

    ghost predicate Valid()
      reads this, states
    {
      && plan.WellFormed() && |items| <= REMOVED && NoDup(states)
      && AllOk(states, items, plan)
      && NamesDiffer(Keys(states))
      && (active.Some? ==> active.value < |states|)
    }

    /** What a client can observe: nothing of the layouts and caches. */
    ghost function Contents(): (list: List<T>)
      reads this
    {
      List(items, Keys(states), active, direction)
    }

    constructor (plan: BucketPlan)
      requires plan.WellFormed()
      ensures Valid() && Contents() == List([], [], None, AscendingOrder) && fresh(states)
    {
      this.plan, items, states := plan, [], [];
      active, direction := None, AscendingOrder;
    }

    // --- sort keys ----------------------------------------------------------------------------

    method FindState(name: string) returns (i: nat)
      ensures i == Contents().FindKey(name)
    {
      i := 0;
      while i < |states| && states[i].sk.name != name
        invariant 0 <= i <= |states| && forall j :: 0 <= j < i ==> states[j].sk.name != name
      {
        i := i + 1;
      }
      FirstNameIs(Keys(states), name, i);
    }

    method AddSortKey(key: SortKey<T>) returns (ok: bool)
      requires Valid() && WellFormed(key) && Consistent(key)
      modifies this
      ensures Valid() && fresh(set s | s in states && s !in old(states))
      ensures ok ==> |states| == |old(states)| + 1 && states[|old(states)|].Fresh(items, plan)
      ensures ok <==> old(Contents().FindKey(key.name)) == |old(states)|
      ensures Contents() == if ok then old(Contents()).(keys := old(Contents()).keys + [key]) else old(Contents())
    {
      var i := FindState(key.name);
      if i < |states| {
        return false;
      }
      var state := new KeyState(key, items, plan);
      IsOk(state, items, plan);
      AppendState(state);
      return true;
    }

    method AppendState(state: KeyState<T>)
      requires Valid() && Ok(state, items, plan) && state !in states
      requires FindName(Keys(states), state.sk.name) == |states|
      modifies this`states
      ensures Valid() && states == old(states) + [state]
      ensures Contents() == old(Contents()).(keys := old(Contents()).keys + [state.sk])
    {
      states := states + [state];
      assert Keys(states) == old(Keys(states)) + [state.sk];
      NewName(old(Keys(states)), state.sk);
    }

    method RemoveSortKey(name: string) returns (found: bool)
      requires Valid()
      modifies this`states, this`active
      ensures Valid() && forall s :: s in states ==> s in old(states)
      ensures found <==> old(Contents().FindKey(name)) < |old(states)|
      ensures Contents() == if found then WithoutKey(old(Contents()), old(Contents().FindKey(name)))
          else old(Contents())
      ensures found ==> var i := old(Contents().FindKey(name));
        states == old(states)[..i] + old(states)[i + 1..] && old(states)[i].sk.name == name
      ensures found && old(active).Some? && old(states[active.value]).sk.name != name ==>
        && active.Some? && states[active.value] == old(states[active.value]) && direction == old(direction)
        && Contents().Current() == old(Contents().Current())
      ensures found && (old(active).None? || old(states[active.value]).sk.name == name) ==>
        active.None? && Contents().Current() == items
      ensures !found ==> states == old(states) && active == old(active)
    {
      var i := FindState(name);
      if i == |states| {
        return false;
      }
      if active.Some? {
        OnlyName(Keys(states), i, active.value);
      }
      RemoveState(i);
      return true;
    }

    /** Drops the i-th state and renumbers the active one. */
    method RemoveState(i: nat)
      requires Valid() && i < |states|
      modifies this`states, this`active
      ensures Valid() && (forall s :: s in states ==> s in old(states))
      ensures Contents() == WithoutKey(old(Contents()), i)
      ensures states == old(states)[..i] + old(states)[i + 1..]
      ensures old(active).Some? && old(active).value != i ==>
        && active.Some? && states[active.value] == old(states)[old(active).value]
        && Contents().Current() == old(Contents().Current())
      ensures old(active).None? || old(active).value == i ==> active.None? && Contents().Current() == items
    {
      WithoutKeyKeeps(Contents(), i);
      var left := states[..i] + states[i + 1..];
      RemovedState(states, i, left, items, plan);
      if active == Some(i) {
        active := None;
      } else if active.Some? && active.value > i {
        active := Some(active.value - 1);
      }
      assert active == Renumbered(old(active), i);
      states := left;
    }

    // --- key and direction ------------------------------------------------------------------------

    method SortBy(name: string, direction: Direction) returns (ok: bool)
      requires Valid()
      modifies this`active, this`direction, states
      ensures Valid() && states == old(states)
      ensures ok <==> old(Contents().FindKey(name)) < |old(states)|
      ensures Contents()
          == if ok then old(Contents()).(active := Some(old(Contents().FindKey(name))), direction := direction)
          else old(Contents())
    {
      var i := FindState(name);
      if i == |states| {
        return false;
      }
      active, this.direction := Some(i), direction;
      PrepareAt(states, i, items, plan);
      return true;
    }

    method Unsort()
      requires Valid()
      modifies this`active
      ensures Valid() && Contents() == old(Contents()).(active := None)
    {
      active := None;
    }

    // --- elements ------------------------------------------------------------------------------------

    /** append: every state learns of the new element. */
    method AppendItem(x: T)
      requires Valid() && |items| < REMOVED
      modifies this`items, states
      ensures Valid() && items == old(items) + [x]
    {
      AppendStates(states, items, x, plan);
      items := items + [x];
    }

    method Add(x: T) returns (ok: bool)
      requires Valid()
      modifies this`items, states
      ensures Valid() && ok == (|old(items)| < MAX_ELEMENTS)
      ensures items == if ok then old(items) + [x] else old(items)
    {
      ok := |items| < REMOVED;
      if ok {
        AppendItem(x);
      }
    }

    /** Appends until an element does not fit; if all fit, no overdue layout is left behind. */
    method AddAll(xs: seq<T>) returns (ok: bool)
      requires Valid()
      modifies this`items, states
      ensures Valid() && ok == (|old(items)| + |xs| <= MAX_ELEMENTS)
      ensures items == old(items) + xs[..if ok then |xs| else MAX_ELEMENTS - |old(items)|]
      ensures ok ==> NoneOverdue(states, items, plan)
    {
      assert old(items) + xs[..0] == items;
      for i := 0 to |xs|
        invariant Valid() && items == old(items) + xs[..i]
      {
        if |items| >= REMOVED {
          return false;
        }
        assert items + [xs[i]] == old(items) + xs[..i + 1];
        AppendItem(xs[i]);
      }
      AutoRebalanceStates(states, items, plan);
      ok := true;
    }

    method RebalanceAll()
      requires Valid()
      modifies states
      ensures Valid() && AllFresh(states, items, plan)
    {
      RelayoutStates(states, items, plan, items, plan);
    }

    method SetPlan(plan: BucketPlan)
      requires Valid() && plan.WellFormed()
      modifies this`plan, states
      ensures Valid() && this.plan == plan && AllFresh(states, items, plan)
    {
      RelayoutStates(states, items, this.plan, items, plan);
      this.plan := plan;
    }

    method Rebalance(name: string) returns (ok: bool)
      requires Valid()
      modifies states
      ensures Valid() && (ok <==> Contents().FindKey(name) < |states|)
      ensures ok ==> states[Contents().FindKey(name)].Fresh(items, plan)
      ensures forall s :: s in states && (ok ==> s != states[Contents().FindKey(name)]) ==> unchanged(s)
    {
      var i := FindState(name);
      ok := i < |states|;
      if ok {
        RelayoutTo(states[i], items, plan, items, plan);
      }
    }

    method RemoveIf(matches: T -> bool) returns (removed: nat)
      requires Valid()
      modifies this`items, states
      ensures Valid() && items == Filter(Not(matches), old(items)) && removed == |Filter(matches, old(items))|
    {
      var remap, kept := BuildRemap(items, matches);
      removed := |items| - kept;
      CompactedIsFilter(remap, items, matches);
      CompactedLength(remap, items);
      if removed == 0 {
        NothingFiltered(matches, items);
        return;
      }
      SettleStates(states, items, plan);
      ghost var before := items;
      items := CompactInPlace(remap, items, kept);
      CompactStates(states, before, items, remap, kept, plan);
    }

    method UpdateIf(matches: T -> bool, mutate: Option<T -> T>) returns (updated: nat)
      requires Valid()
      modifies this`items, states
      ensures Valid() && items == Mutated(matches, mutate, old(items)) && updated == |Filter(matches, old(items))|
      ensures NoneChanged(states)
    {
      ghost var goal := Mutated(matches, mutate, items);
      updated := 0;
      var n := |items|;
      for slot := 0 to n
        invariant Valid() && Halfway(items, goal, old(items), slot)
        invariant updated == |Filter(matches, old(items)[..slot])|
      {
        FilterPrefix(matches, old(items), slot);
        if matches(items[slot]) {
          UpdateSlot(slot, if mutate.Some? then mutate.value(items[slot]) else items[slot]);
          updated := updated + 1;
        }
      }
      assert old(items)[..n] == old(items);
      assert items == goal;
      RelayoutChangedStates(states, items, plan);
    }

    method UpdateSlot(slot: nat, x: T)
      requires Valid() && slot < |items|
      modifies this`items, states
      ensures Valid() && items == old(items)[slot := x]
    {
      RekeyStates(states, items, items[slot := x], slot, plan);
      items := items[slot := x];
    }

    method Clear()
      requires Valid()
      modifies this`items, states
      ensures Valid() && items == [] && AllFresh(states, items, plan)
    {
      RelayoutStates(states, items, plan, [], plan);
      items := [];
    }

    // --- reads ---------------------------------------------------------------------------------------

    lemma CurrentLength()
      requires Valid()
      ensures |Contents().Current()| == |items|
    {
      if active.Some? {
        var s := states[active.value];
        OkMeans(s, items, plan);
        ViewLength(s.sk, direction, items);
      }
    }

    /** prepare, for the active key. With automatic rebalancing no stale layout is read from. */
    method PrepareActive() returns (s: KeyState<T>)
      requires Valid() && active.Some?
      modifies states
      ensures Valid() && s == states[active.value] && Readable(s, items, plan)
      ensures |Contents().Current()| == |items| && Contents().Current() == View(s.sk, direction, items)
      ensures plan.autoRebalance ==> !s.Overdue(items, plan)
    {
      s := states[active.value];
      PrepareFor(s, items, plan);
      ReadableMeans(s, items, plan);
      ViewLength(s.sk, direction, items);
    }

    method At(p: nat) returns (x: Option<T>)
      requires Valid()
      modifies states
      ensures Valid() && |Contents().Current()| == |items|
      ensures x == if p < |items| then Some(Contents().Current()[p]) else None
    {
      CurrentLength();
      if p >= |items| {
        return None;
      }
      if active.None? {
        return Some(items[p]);
      }
      var s := PrepareActive();
      var found := ReadAt(s, items, plan, direction, p);
      return Some(found);
    }

    method Range(from: nat, to: nat) returns (out: seq<T>)
      requires Valid()
      modifies states
      ensures Valid() && |Contents().Current()| == |items|
      ensures out == var end := Min(to, |items|); if from < end then Contents().Current()[from..end] else []
    {
      CurrentLength();
      var end := Min(to, |items|);
      if from >= end {
        return [];
      }
      if active.None? {
        return items[from..end];
      }
      var s := PrepareActive();
      out := ReadRange(s, items, plan, direction, from, end);
    }

    method FirstPage() returns (out: seq<T>)
      requires Valid()
      modifies states
      ensures Valid() && |Contents().Current()| == |items| && out == Contents().Current()[..Min(plan.pageSize, |items|)]
    {
      out := Range(0, plan.pageSize);
    }

    method PositionIf(matches: T -> bool) returns (p: Option<nat>)
      requires Valid()
      modifies states
      ensures Valid()
      ensures p.None? <==> FirstMatch(matches, items) == |items|
      ensures p.Some? ==> p.value == Contents().PositionOf(FirstMatch(matches, items))
    {
      var slot := FindFirst(matches, items);
      if slot == |items| {
        return None;
      }
      if active.None? {
        return Some(slot);
      }
      var s := PrepareActive();
      var q := FindPosition(s, items, plan, direction, slot);
      return Some(q);
    }

    /** for_each: the elements in the order they are visited. */
    method ForEach() returns (out: seq<T>)
      requires Valid()
      modifies states
      ensures Valid() && out == Contents().Current()
    {
      if active.None? {
        return items;
      }
      var s := PrepareActive();
      out := VisitAll(s, items, plan, direction);
    }

    method SortAll()
      requires Valid()
      modifies states
      ensures Valid()
      ensures active.Some? ==> states[active.value].cache.order == AscendingSlots(states[active.value].sk, items)
    {
      if active.Some? {
        var s := PrepareActive();
        SortEverything(s, items, plan);
      }
    }
  }

  method FindFirst<T>(matches: T -> bool, items: seq<T>) returns (slot: nat)
    ensures slot == FirstMatch(matches, items)
  {
    slot := 0;
    while slot < |items| && !matches(items[slot])
      invariant 0 <= slot <= FirstMatch(matches, items)
    {
      slot := slot + 1;
    }
  }

  /** The first `k` elements are final, the others as they were. */
  ghost predicate Halfway<T>(now: seq<T>, goal: seq<T>, was: seq<T>, k: nat) {
    && |now| == |goal| == |was|
    && forall i :: 0 <= i < |now| ==> now[i] == if i < k then goal[i] else was[i]
  }

  lemma NothingFiltered<T>(p: T -> bool, s: seq<T>)
    requires |Filter(p, s)| == 0
    ensures Filter(Not(p), s) == s
  {
    forall x | x in s ensures Not(p)(x) {
      FilterMember(p, s, x);
      assert x !in Filter(p, s);
    }
    FilterAll(Not(p), s);
  }

  lemma {:induction false} CompactedIsFilter<T>(remap: seq<nat>, items: seq<T>, matches: T -> bool)
    requires |items| <= |remap|
    requires forall i :: 0 <= i < |items| ==> (remap[i] == REMOVED <==> matches(items[i]))
    ensures Compacted(remap, items) == Filter(Not(matches), items)
    ensures KeptBefore(remap, |items|) + |Filter(matches, items)| == |items|
  {
    if items != [] {
      CompactedIsFilter(remap, items[..|items| - 1], matches);
    } else {
      assert KeptBefore(remap, 0) == 0;
    }
  }

  lemma RemovedState<T(!new)>(states: seq<KeyState<T>>, i: nat, left: seq<KeyState<T>>, items: seq<T>, plan: BucketPlan)
    requires i < |states| && left == states[..i] + states[i + 1..] && NoDup(states) && AllOk(states, items, plan)
    ensures |left| == |states| - 1 && NoDup(left) && AllOk(left, items, plan)
    ensures forall s :: s in left ==> s in states
    ensures Keys(left) == Keys(states)[..i] + Keys(states)[i + 1..]
    ensures NamesDiffer(Keys(states)) ==> NamesDiffer(Keys(left))
  {
    forall j | 0 <= j < |left| ensures Ok(left[j], items, plan) {
      assert Ok(states[if j < i then j else j + 1], items, plan);
    }
  }

  /** No two sort keys share a name. */
  ghost predicate NamesDiffer<T>(keys: seq<SortKey<T>>) {
    forall i, j :: 0 <= i < j < |keys| ==> keys[i].name != keys[j].name
  }

  lemma OnlyName<T>(keys: seq<SortKey<T>>, i: nat, j: nat)
    requires NamesDiffer(keys) && i < |keys| && j < |keys|
    ensures keys[j].name == keys[i].name <==> j == i
  {
  }

  /** Unless it is the one removed, the active key stays active, and so does the order it gives. */
  lemma WithoutKeyKeeps<T>(list: List<T>, i: nat)
    requires list.Valid() && i < |list.keys|
    ensures list.active.Some? && list.active.value != i ==>
      && WithoutKey(list, i).active.Some?
      && WithoutKey(list, i).keys[WithoutKey(list, i).active.value] == list.keys[list.active.value]
      && WithoutKey(list, i).Current() == list.Current()
    ensures list.active.None? || list.active.value == i ==>
      WithoutKey(list, i).active.None? && WithoutKey(list, i).Current() == list.items
  {
  }

  lemma NewName<T>(keys: seq<SortKey<T>>, key: SortKey<T>)
    requires NamesDiffer(keys) && FindName(keys, key.name) == |keys|
    ensures NamesDiffer(keys + [key])
  {
  }

  lemma {:induction false} FirstNameIs<T>(keys: seq<SortKey<T>>, name: string, i: nat)
    requires i <= |keys| && (forall j :: 0 <= j < i ==> keys[j].name != name) && (i < |keys| ==> keys[i].name == name)
    ensures FindName(keys, name) == i
  {
    if i > 0 {
      FirstNameIs(keys[1..], name, i - 1);
    }
  }
}
