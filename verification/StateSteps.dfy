/** One operation's effect on one key state, and on all of them; each state stays right about the elements. */
module StateSteps {
  import opened Sequences
  import opened SortKeys
  import opened BucketPlans
  import opened Compaction
  import opened KeyStates

  /**
   A state that is right about `items` and consistent with the plan's staleness rules. The body is
   guarded so that the verifier looks inside only where OkMeans or IsOk is called for.
   */
  ghost predicate Ok<T(!new)>(s: KeyState<T>, items: seq<T>, plan: BucketPlan)
    reads s
  {
    forall u {:trigger Opened(u)} :: Opened(u) ==>
      Consistent(s.sk) && s.Structure(items) && s.Ordered(items) && s.VerdictSound(items, plan)
  }

  lemma OkMeans<T(!new)>(s: KeyState<T>, items: seq<T>, plan: BucketPlan)
    requires Ok(s, items, plan)
    ensures Consistent(s.sk) && s.Structure(items) && s.Ordered(items) && s.VerdictSound(items, plan)
  {
    assert Opened(0);
  }

  lemma IsOk<T(!new)>(s: KeyState<T>, items: seq<T>, plan: BucketPlan)
    requires Consistent(s.sk) && s.Structure(items) && s.Ordered(items) && s.VerdictSound(items, plan)
    ensures Ok(s, items, plan)
  {
  }

  ghost predicate AllOk<T(!new)>(states: seq<KeyState<T>>, items: seq<T>, plan: BucketPlan)
    reads states
  {
    forall i :: 0 <= i < |states| ==> Ok(states[i], items, plan)
  }

  /** States below `i` are right about `after` and `plan'`, the others still about `before` and `plan`. */
  ghost predicate OkUpTo<T(!new)>(states: seq<KeyState<T>>, i: nat, before: seq<T>, plan: BucketPlan, after: seq<T>,
                                  plan': BucketPlan)
    reads states
  {
    forall j :: 0 <= j < |states| ==> if j < i then Ok(states[j], after, plan') else Ok(states[j], before, plan)
  }

  /** With automatic rebalancing, no state has a layout it should have replaced. */
  ghost predicate NoneOverdue<T(!new)>(states: seq<KeyState<T>>, items: seq<T>, plan: BucketPlan)
    reads states
  {
    plan.autoRebalance ==> forall i :: 0 <= i < |states| ==> !states[i].Overdue(items, plan)
  }

  // --- one state, one step -----------------------------------------------------------------------

  method AppendTo<T(!new)>(s: KeyState<T>, ghost items: seq<T>, x: T, ghost plan: BucketPlan)
    requires Ok(s, items, plan) && |items| < REMOVED
    modifies s
    ensures Ok(s, items + [x], plan)
  {
    OkMeans(s, items, plan);
    s.Append(items, x, plan);
    IsOk(s, items + [x], plan);
  }

  /** `items` is `before` with one element changed. Opened only on request. */
  ghost predicate Changed<T>(before: seq<T>, items: seq<T>, slot: nat) {
    forall u {:trigger Opened(u)} :: Opened(u) ==> slot < |before| == |items| && items == before[slot := items[slot]]
  }

  method RekeyTo<T(!new)>(s: KeyState<T>, ghost before: seq<T>, items: seq<T>, slot: nat, ghost plan: BucketPlan)
    requires Ok(s, before, plan) && slot < |items| && Changed(before, items, slot)
    modifies s
    ensures Ok(s, items, plan)
  {
    assert Opened(0);
    OkMeans(s, before, plan);
    s.Rekey(before, items, slot, plan);
    IsOk(s, items, plan);
  }

  /** New layouts, for the same elements or for none. */
  method RelayoutTo<T(!new)>(s: KeyState<T>, ghost before: seq<T>, ghost oldPlan: BucketPlan, items: seq<T>,
                             plan: BucketPlan)
    requires Ok(s, before, oldPlan) && plan.WellFormed() && (items == before || items == [])
    modifies s
    ensures Ok(s, items, plan) && s.Fresh(items, plan)
  {
    OkMeans(s, before, oldPlan);
    s.Relayout(items, if |items| == 0 then [] else s.data.keys, plan);
    IsOk(s, items, plan);
  }

  method AutoRebalance<T(!new)>(s: KeyState<T>, items: seq<T>, plan: BucketPlan)
    requires Ok(s, items, plan) && plan.WellFormed()
    modifies s
    ensures Ok(s, items, plan)
    ensures plan.autoRebalance ==> !s.Overdue(items, plan)
  {
    OkMeans(s, items, plan);
    s.MaybeAutoRebalance(items, plan);
    IsOk(s, items, plan);
  }

  /** Places what is pending, if a grouping is cached at all. */
  method Settle<T(!new)>(s: KeyState<T>, items: seq<T>, ghost plan: BucketPlan)
    requires Ok(s, items, plan)
    modifies s
    ensures Ok(s, items, plan) && Placed(s)
  {
    OkMeans(s, items, plan);
    if s.hasOrder && s.orderStale {
      s.RegroupOrder(items);
    }
    IsOk(s, items, plan);
  }

  /** `items` are the survivors of `before`. Opened only on request. */
  ghost predicate Survivors<T>(remap: seq<nat>, before: seq<T>, items: seq<T>, kept: nat) {
    forall u {:trigger Opened(u)} :: Opened(u) ==>
      && IsRemap(remap) && |remap| == |before| && kept == KeptBefore(remap, |remap|) < |before|
      && items == Compacted(remap, before)
  }

  /** Nothing is pending. */
  ghost predicate Placed<T(!new)>(s: KeyState<T>)
    reads s
  {
    s.hasOrder ==> !s.orderStale
  }

  method CompactTo<T(!new)>(s: KeyState<T>, ghost before: seq<T>, items: seq<T>, remap: seq<nat>, kept: nat,
                            plan: BucketPlan)
    requires Ok(s, before, plan) && Placed(s) && plan.WellFormed() && Survivors(remap, before, items, kept)
    modifies s
    ensures Ok(s, items, plan)
  {
    assert Opened(0);
    OkMeans(s, before, plan);
    s.Compact(before, items, remap, kept, plan);
    IsOk(s, items, plan);
  }

  /** What a read may rely on, established. */
  method PrepareFor<T(!new)>(s: KeyState<T>, items: seq<T>, plan: BucketPlan)
    requires Ok(s, items, plan) && plan.WellFormed()
    modifies s
    ensures Ok(s, items, plan) && s.hasOrder && !s.orderStale
    ensures plan.autoRebalance ==> !s.Overdue(items, plan)
  {
    OkMeans(s, items, plan);
    s.Prepare(items, plan);
    IsOk(s, items, plan);
  }

  // --- all states, one step ------------------------------------------------------------------------

  /** Prepares the i-th state; the others are not touched. */
  method PrepareAt<T(!new)>(states: seq<KeyState<T>>, i: nat, items: seq<T>, plan: BucketPlan)
    requires NoDup(states) && AllOk(states, items, plan) && plan.WellFormed() && i < |states|
    modifies states[i]
    ensures AllOk(states, items, plan) && states[i].hasOrder && !states[i].orderStale
    ensures plan.autoRebalance ==> !states[i].Overdue(items, plan)
  {
    PrepareFor(states[i], items, plan);
    assert forall j :: 0 <= j < |states| && j != i ==> states[j] != states[i];
  }

  method AppendStates<T(!new)>(states: seq<KeyState<T>>, ghost items: seq<T>, x: T, ghost plan: BucketPlan)
    requires NoDup(states) && AllOk(states, items, plan) && |items| < REMOVED
    modifies states
    ensures AllOk(states, items + [x], plan)
  {
    for i := 0 to |states|
      invariant OkUpTo(states, i, items, plan, items + [x], plan)
    {
      assert forall j :: 0 <= j < |states| && j != i ==> states[j] != states[i];
      AppendTo(states[i], items, x, plan);
    }
  }

  method RekeyStates<T(!new)>(states: seq<KeyState<T>>, ghost before: seq<T>, items: seq<T>, slot: nat,
                              ghost plan: BucketPlan)
    requires NoDup(states) && AllOk(states, before, plan) && slot < |items| && Changed(before, items, slot)
    modifies states
    ensures AllOk(states, items, plan)
  {
    for i := 0 to |states|
      invariant OkUpTo(states, i, before, plan, items, plan)
    {
      assert forall j :: 0 <= j < |states| && j != i ==> states[j] != states[i];
      RekeyTo(states[i], before, items, slot, plan);
    }
  }

  /** After a rebalance of everything, a new plan, or clearing. */
  ghost predicate AllFresh<T(!new)>(states: seq<KeyState<T>>, items: seq<T>, plan: BucketPlan)
    reads states
  {
    forall i :: 0 <= i < |states| ==> states[i].Fresh(items, plan)
  }

  method RelayoutStates<T(!new)>(states: seq<KeyState<T>>, ghost before: seq<T>, ghost oldPlan: BucketPlan,
                                 items: seq<T>, plan: BucketPlan)
    requires NoDup(states) && AllOk(states, before, oldPlan) && plan.WellFormed() && (items == before || items == [])
    modifies states
    ensures AllOk(states, items, plan) && AllFresh(states, items, plan)
  {
    for i := 0 to |states|
      invariant OkUpTo(states, i, before, oldPlan, items, plan)
      invariant forall j :: 0 <= j < i ==> states[j].Fresh(items, plan)
    {
      assert forall j :: 0 <= j < |states| && j != i ==> states[j] != states[i];
      RelayoutTo(states[i], before, oldPlan, items, plan);
    }
  }

  /** No layout splits on an element that has changed since. */
  ghost predicate NoneChanged<T(!new)>(states: seq<KeyState<T>>)
    reads states
  {
    forall i :: 0 <= i < |states| ==> !states[i].splitterChanged
  }

  /** Layouts that split on an updated element are made anew. */
  method RelayoutChangedStates<T(!new)>(states: seq<KeyState<T>>, items: seq<T>, plan: BucketPlan)
    requires NoDup(states) && AllOk(states, items, plan) && plan.WellFormed()
    modifies states
    ensures AllOk(states, items, plan) && NoneChanged(states)
  {
    for i := 0 to |states|
      invariant AllOk(states, items, plan) && forall j :: 0 <= j < i ==> !states[j].splitterChanged
    {
      assert forall j :: 0 <= j < |states| && j != i ==> states[j] != states[i];
      if states[i].splitterChanged {
        RelayoutTo(states[i], items, plan, items, plan);
      }
    }
  }

  method AutoRebalanceStates<T(!new)>(states: seq<KeyState<T>>, items: seq<T>, plan: BucketPlan)
    requires NoDup(states) && AllOk(states, items, plan) && plan.WellFormed()
    modifies states
    ensures AllOk(states, items, plan)
    ensures NoneOverdue(states, items, plan)
  {
    for i := 0 to |states|
      invariant forall j :: 0 <= j < |states| ==> Ok(states[j], items, plan)
      invariant plan.autoRebalance ==> forall j :: 0 <= j < i ==> !states[j].Overdue(items, plan)
    {
      assert forall j :: 0 <= j < |states| && j != i ==> states[j] != states[i];
      AutoRebalance(states[i], items, plan);
    }
  }

  method SettleStates<T(!new)>(states: seq<KeyState<T>>, items: seq<T>, ghost plan: BucketPlan)
    requires NoDup(states) && AllOk(states, items, plan)
    modifies states
    ensures AllOk(states, items, plan)
    ensures forall j :: 0 <= j < |states| ==> Placed(states[j])
  {
    for i := 0 to |states|
      invariant forall j :: 0 <= j < |states| ==> Ok(states[j], items, plan) && (j < i ==> Placed(states[j]))
    {
      assert forall j :: 0 <= j < |states| && j != i ==> states[j] != states[i];
      Settle(states[i], items, plan);
    }
  }

  method CompactStates<T(!new)>(states: seq<KeyState<T>>, ghost before: seq<T>, items: seq<T>, remap: seq<nat>,
                                kept: nat, plan: BucketPlan)
    requires NoDup(states) && AllOk(states, before, plan) && plan.WellFormed()
    requires (forall j :: 0 <= j < |states| ==> Placed(states[j])) && Survivors(remap, before, items, kept)
    modifies states
    ensures AllOk(states, items, plan)
  {
    for i := 0 to |states|
      invariant forall j :: 0 <= j < |states| ==>
        if j < i then Ok(states[j], items, plan) else Ok(states[j], before, plan) && Placed(states[j])
    {
      assert forall j :: 0 <= j < |states| && j != i ==> states[j] != states[i];
      CompactTo(states[i], before, items, remap, kept, plan);
    }
  }
}
