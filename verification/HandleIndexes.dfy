/**
 BucketIndex.java: the index over shared mutable elements. Clients may change elements behind its
 back and report the change with updateIf afterwards; bucket ids computed while the report is being
 worked off may come from splitters that are themselves already changed.
 */
module HandleIndexes {
  import opened Sequences
  import opened SortKeys
  import opened Views
  import opened BucketPlans
  import opened Groupings
  import opened Compaction
  import opened Handles
  import opened HandleStates
  import BL = BucketedLists
  import BI = BucketIndexes

  /** The value an element has after an update. */
  function Updated<V>(matches: V -> bool, mutate: Option<V -> V>, v: V): V {
    if matches(v) && mutate.Some? then mutate.value(v) else v
  }

  /** The first `slot` elements are updated and seen, the others as they were. */
  ghost predicate Progress<V>(
    hs: seq<Element<V>>, matches: V -> bool, mutate: Option<V -> V>, slot: nat, now0: map<Element<V>, V>,
        seen0: map<Element<V>, V>,
    now: map<Element<V>, V>, seen: map<Element<V>, V>)
  {
    && Knows(now0, hs) && Knows(seen0, hs) && Knows(now, hs) && Knows(seen, hs)
    && forall i :: 0 <= i < |hs| ==>
         if i < slot && matches(now0[hs[i]]) then now[hs[i]] == seen[hs[i]] == Updated(matches, mutate, now0[hs[i]])
         else now[hs[i]] == now0[hs[i]] && seen[hs[i]] == seen0[hs[i]]
  }

  /** No splitter among the first `slot` slots matched. */
  ghost predicate NoneMatched<V>(slots: seq<nat>, hs: seq<Element<V>>, slot: nat, matches: V -> bool,
                                 now0: map<Element<V>, V>) {
    forall i :: 0 <= i < |slots| && slots[i] < slot && slots[i] < |hs| && hs[slots[i]] in now0 ==>
        !matches(now0[hs[slots[i]]])
  }

  /** A state while an update is under way: once a splitter changed, only relayout can make it right. */
  ghost predicate Midway<V(!new)>(
    s: HandleState<V>, hs: seq<Element<V>>, slot: nat, matches: V -> bool, now0: map<Element<V>, V>,
    now: map<Element<V>, V>, seen: map<Element<V>, V>)
    reads s
  {
    && Consistent(s.sk) && s.Loose(hs, seen) && Knows(now, hs)
    && (!s.splitterChanged ==>
          && NoneMatched(s.splitterSlots, hs, slot, matches, now0)
          && (AgreeAt(s.splitterSlots, hs, seen, now) ==> s.Right(hs, seen)))
  }

  /** The same, opened only by UpdateMeans. */
  ghost predicate InUpdate<V(!new)>(
    s: HandleState<V>, hs: seq<Element<V>>, slot: nat, matches: V -> bool, now0: map<Element<V>, V>,
    now: map<Element<V>, V>, seen: map<Element<V>, V>)
    reads s
  {
    forall u {:trigger Opened(u)} :: Opened(u) ==> Midway(s, hs, slot, matches, now0, now, seen)
  }

  lemma UpdateMeans<V(!new)>(s: HandleState<V>, hs: seq<Element<V>>, slot: nat, matches: V -> bool,
                             now0: map<Element<V>, V>,
                             now: map<Element<V>, V>, seen: map<Element<V>, V>)
    requires InUpdate(s, hs, slot, matches, now0, now, seen)
    ensures Midway(s, hs, slot, matches, now0, now, seen)
  {
    assert Opened(0);
  }

  /** Rekeying keeps a state midway. */
  method RekeyMidway<V(!new)>(
    s: HandleState<V>, hs: seq<Element<V>>, slot: nat, ghost matches: V -> bool, ghost now0: map<Element<V>, V>,
    ghost before: map<Element<V>, V>, ghost now: map<Element<V>, V>, ghost seen: map<Element<V>, V>,
        ghost seen': map<Element<V>, V>)
    requires slot < |hs| && Knows(before, hs) && InUpdate(s, hs, slot, matches, now0, before, seen)
    requires IsNow(now, hs) && now == before[hs[slot] := now[hs[slot]]] && seen' == seen[hs[slot] := now[hs[slot]]]
    modifies s
    ensures InUpdate(s, hs, slot + 1, matches, now0, now, seen')
  {
    UpdateMeans(s, hs, slot, matches, now0, before, seen);
    ghost var slots := s.splitterSlots;
    s.Rekey(hs, slot, seen, now);
    if !s.splitterChanged {
      SplittersUntouched(slots, hs, slot, matches, now0, before, now, seen);
    }
  }

  lemma SplittersUntouched<V>(slots: seq<nat>, hs: seq<Element<V>>, slot: nat, matches: V -> bool,
                              now0: map<Element<V>, V>,
                              before: map<Element<V>, V>, now: map<Element<V>, V>, seen: map<Element<V>, V>)
    requires slot < |hs| && slot !in slots && NoDup(hs) && Knows(before, hs) && Knows(seen, hs) && Knows(now, hs)
    requires now == before[hs[slot] := now[hs[slot]]] && NoneMatched(slots, hs, slot, matches, now0)
    ensures var seen' := seen[hs[slot] := now[hs[slot]]];
      && Knows(seen', hs) && NoneMatched(slots, hs, slot + 1, matches, now0)
      && (AgreeAt(slots, hs, seen', now) ==> AgreeAt(slots, hs, seen, before) && AgreeAt(slots, hs, seen, now))
  {
    var seen' := seen[hs[slot] := now[hs[slot]]];
    forall i | 0 <= i < |slots| && slots[i] < |hs|
      ensures seen'[hs[slots[i]]] == seen[hs[slots[i]]] && now[hs[slots[i]]] == before[hs[slots[i]]]
    {
      assert slots[i] in slots;
      assert hs[slots[i]] != hs[slot];
    }
  }

  /** An element that does not match is passed over. */
  lemma PassedOver<V(!new)>(s: HandleState<V>, hs: seq<Element<V>>, slot: nat, matches: V -> bool,
                            now0: map<Element<V>, V>,
                            now: map<Element<V>, V>, seen: map<Element<V>, V>)
    requires slot < |hs| && InUpdate(s, hs, slot, matches, now0, now, seen)
    requires hs[slot] in now0 && !matches(now0[hs[slot]])
    ensures InUpdate(s, hs, slot + 1, matches, now0, now, seen)
  {
    UpdateMeans(s, hs, slot, matches, now0, now, seen);
  }

  /** At the end: if no splitter matched, none had changed, and every bucket id computed on the way is right. */
  lemma UpdateDone<V(!new)>(s: HandleState<V>, hs: seq<Element<V>>, matches: V -> bool, mutate: Option<V -> V>,
                            now0: map<Element<V>, V>, seen0: map<Element<V>, V>, now: map<Element<V>, V>,
                            seen: map<Element<V>, V>)
    requires Progress(hs, matches, mutate, |hs|, now0, seen0, now, seen)
    requires forall i :: 0 <= i < |hs| && now0[hs[i]] != seen0[hs[i]] ==> matches(now0[hs[i]])
    requires InUpdate(s, hs, |hs|, matches, now0, now, seen)
    ensures Pending(s, hs, seen)
  {
    UpdateMeans(s, hs, |hs|, matches, now0, now, seen);
  }

  lemma ProgressDone<V>(hs: seq<Element<V>>, matches: V -> bool, mutate: Option<V -> V>,
                        now0: map<Element<V>, V>, seen0: map<Element<V>, V>, now: map<Element<V>, V>,
                        seen: map<Element<V>, V>)
    requires Progress(hs, matches, mutate, |hs|, now0, seen0, now, seen)
    requires forall i :: 0 <= i < |hs| && now0[hs[i]] != seen0[hs[i]] ==> matches(now0[hs[i]])
    ensures forall i :: 0 <= i < |hs| ==> now[hs[i]] == seen[hs[i]] == Updated(matches, mutate, now0[hs[i]])
  {
  }

  lemma ProgressStep<V>(hs: seq<Element<V>>, matches: V -> bool, mutate: Option<V -> V>, slot: nat,
                        now0: map<Element<V>, V>, seen0: map<Element<V>, V>, now: map<Element<V>, V>,
                        seen: map<Element<V>, V>)
    requires Progress(hs, matches, mutate, slot, now0, seen0, now, seen) && NoDup(hs) && slot < |hs|
    ensures var h := hs[slot]; var v := Updated(matches, mutate, now0[h]);
      if matches(now0[h]) then Progress(hs, matches, mutate, slot + 1, now0, seen0, now[h := v], seen[h := v])
      else Progress(hs, matches, mutate, slot + 1, now0, seen0, now, seen)
  {
  }

  /** After the loop: right, or about to get a new layout. */
  ghost predicate Pending<V(!new)>(s: HandleState<V>, hs: seq<Element<V>>, seen: map<Element<V>, V>)
    reads s
  {
    forall u {:trigger Opened(u)} :: Opened(u) ==>
      Consistent(s.sk) && s.Loose(hs, seen) && (!s.splitterChanged ==> s.Right(hs, seen))
  }

  // --- all states --------------------------------------------------------------------------------

  ghost predicate Settled<V(!new)>(s: HandleState<V>, hs: seq<Element<V>>, seen: map<Element<V>, V>)
    reads s
  {
    forall u {:trigger Opened(u)} :: Opened(u) ==> Consistent(s.sk) && s.Right(hs, seen) && !s.splitterChanged
  }

  lemma SettledMeans<V(!new)>(s: HandleState<V>, hs: seq<Element<V>>, seen: map<Element<V>, V>)
    requires Settled(s, hs, seen)
    ensures Consistent(s.sk) && s.Right(hs, seen) && !s.splitterChanged
  {
    assert Opened(0);
  }

  ghost predicate AllSettled<V(!new)>(states: seq<HandleState<V>>, hs: seq<Element<V>>, seen: map<Element<V>, V>)
    reads states
  {
    forall i :: 0 <= i < |states| ==> Settled(states[i], hs, seen)
  }

  ghost predicate AllMidway<V(!new)>(
    states: seq<HandleState<V>>, hs: seq<Element<V>>, slot: nat, matches: V -> bool, now0: map<Element<V>, V>,
    now: map<Element<V>, V>, seen: map<Element<V>, V>)
    reads states
  {
    forall i :: 0 <= i < |states| ==> InUpdate(states[i], hs, slot, matches, now0, now, seen)
  }

  /** All states re-read one slot. */
  method RekeyAll<V(!new)>(
    states: seq<HandleState<V>>, hs: seq<Element<V>>, slot: nat, ghost matches: V -> bool, ghost now0: map<Element<V>,
        V>,
    ghost before: map<Element<V>, V>, ghost now: map<Element<V>, V>, ghost seen: map<Element<V>, V>,
        ghost seen': map<Element<V>, V>)
    requires NoDup(states) && slot < |hs| && Knows(before, hs)
    requires AllMidway(states, hs, slot, matches, now0, before, seen)
    requires IsNow(now, hs) && now == before[hs[slot] := now[hs[slot]]] && seen' == seen[hs[slot] := now[hs[slot]]]
    modifies states
    ensures AllMidway(states, hs, slot + 1, matches, now0, now, seen')
  {
    ghost var next := slot + 1;
    for i := 0 to |states|
      invariant forall j :: 0 <= j < |states| ==>
        if j < i then InUpdate(states[j], hs, next, matches, now0, now, seen')
            else InUpdate(states[j], hs, slot, matches, now0, before, seen)
    {
      assert forall j :: 0 <= j < |states| && j != i ==> states[j] != states[i];
      RekeyMidway(states[i], hs, slot, matches, now0, before, now, seen, seen');
    }
  }

  /** One matching element: changed, then re-read by every state. */
  method UpdateElement<V(!new)>(
    states: seq<HandleState<V>>, hs: seq<Element<V>>, slot: nat, ghost matches: V -> bool, mutate: Option<V -> V>,
    ghost now0: map<Element<V>, V>, ghost before: map<Element<V>, V>, ghost seen: map<Element<V>, V>)
    returns (ghost now: map<Element<V>, V>, ghost seen': map<Element<V>, V>)
    requires NoDup(states) && NoDup(hs) && slot < |hs| && IsNow(before, hs)
    requires AllMidway(states, hs, slot, matches, now0, before, seen)
    modifies hs[slot], states
    ensures IsNow(now, hs) && AllMidway(states, hs, slot + 1, matches, now0, now, seen')
    ensures var v := if mutate.Some? then mutate.value(before[hs[slot]]) else before[hs[slot]];
      now == before[hs[slot] := v] && seen' == seen[hs[slot] := v]
  {
    if mutate.Some? {
      hs[slot].value := mutate.value(hs[slot].value);
    }
    now, seen' := before[hs[slot] := hs[slot].value], seen[hs[slot] := hs[slot].value];
    RekeyAll(states, hs, slot, matches, now0, before, now, seen, seen');
  }

  /** Ends an update: states that split on a changed element get new layouts. */
  method RelayoutChanged<V(!new)>(states: seq<HandleState<V>>, hs: seq<Element<V>>, plan: BucketPlan,
                                  ghost now: map<Element<V>, V>)
    requires NoDup(states) && plan.WellFormed() && |hs| <= REMOVED && NoDup(hs) && IsNow(now, hs)
    requires forall i :: 0 <= i < |states| ==> Pending(states[i], hs, now)
    modifies states
    ensures AllSettled(states, hs, now)
  {
    for i := 0 to |states|
      invariant forall j :: 0 <= j < |states| ==>
          if j < i then Settled(states[j], hs, now) else Pending(states[j], hs, now)
    {
      assert forall j :: 0 <= j < |states| && j != i ==> states[j] != states[i];
      Resolve(states[i], hs, plan, now);
    }
  }

  method Resolve<V(!new)>(s: HandleState<V>, hs: seq<Element<V>>, plan: BucketPlan, ghost now: map<Element<V>, V>)
    requires plan.WellFormed() && |hs| <= REMOVED && NoDup(hs) && IsNow(now, hs) && Pending(s, hs, now)
    modifies s
    ensures Settled(s, hs, now)
  {
    assert Opened(0);
    if s.splitterChanged {
      s.Relayout(hs, s.data.keys, plan, now);
    }
  }

  method AppendSettled<V(!new)>(s: HandleState<V>, hs: seq<Element<V>>, h: Element<V>, ghost now: map<Element<V>, V>)
    requires Settled(s, hs, now) && |hs| < REMOVED && h !in hs && IsNow(now, hs + [h])
    modifies s
    ensures Settled(s, hs + [h], now)
  {
    SettledMeans(s, hs, now);
    s.Append(hs, h, now);
  }

  method AppendAll<V(!new)>(states: seq<HandleState<V>>, hs: seq<Element<V>>, h: Element<V>,
                            ghost now: map<Element<V>, V>)
    requires NoDup(states) && AllSettled(states, hs, now) && |hs| < REMOVED && h !in hs && IsNow(now, hs + [h])
    modifies states
    ensures AllSettled(states, hs + [h], now)
  {
    for i := 0 to |states|
      invariant forall j :: 0 <= j < |states| ==>
          if j < i then Settled(states[j], hs + [h], now) else Settled(states[j], hs, now)
    {
      assert forall j :: 0 <= j < |states| && j != i ==> states[j] != states[i];
      AppendSettled(states[i], hs, h, now);
    }
  }

  method GroupSettled<V(!new)>(s: HandleState<V>, hs: seq<Element<V>>, ghost seen: map<Element<V>, V>)
    requires Settled(s, hs, seen)
    modifies s
    ensures Settled(s, hs, seen)
  {
    SettledMeans(s, hs, seen);
    s.Group(hs, seen);
  }

  method ReadSettled<V(!new)>(s: HandleState<V>, hs: seq<Element<V>>, direction: Direction, p: nat,
                              ghost now: map<Element<V>, V>)
    returns (slot: nat)
    requires Settled(s, hs, now) && Knows(now, hs) && IsNow(now, hs) && p < |hs|
    modifies s
    ensures Settled(s, hs, now) && slot < |hs|
    ensures p < |View(s.sk, direction, Seen(hs, now))| && now[hs[slot]] == View(s.sk, direction, Seen(hs, now))[p]
    ensures IsSlotAt(s.sk, direction, Seen(hs, now), p, slot)
  {
    SettledMeans(s, hs, now);
    slot := s.SlotAtPosition(hs, direction, p, now);
  }

  /** removeIf, one state: pending slots are placed first, then everything is filtered. */
  method PlacePending<V(!new)>(s: HandleState<V>, hs: seq<Element<V>>, ghost seen: map<Element<V>, V>)
    requires Settled(s, hs, seen)
    modifies s
    ensures Settled(s, hs, seen) && (s.hasOrder ==> !s.orderStale)
  {
    SettledMeans(s, hs, seen);
    if s.hasOrder && s.orderStale {
      s.Group(hs, seen);
    }
  }

  method CompactSettled<V(!new)>(s: HandleState<V>, hs: seq<Element<V>>, left: seq<Element<V>>, remap: seq<nat>,
                                 kept: nat,
                                 plan: BucketPlan, ghost seen: map<Element<V>, V>)
    requires Settled(s, hs, seen) && (s.hasOrder ==> !s.orderStale) && plan.WellFormed() && IsNow(seen, left)
    requires IsRemap(remap) && |remap| == |hs| && kept == KeptBefore(remap, |remap|) && left == Compacted(remap, hs)
    modifies s
    ensures Settled(s, left, seen)
  {
    SettledMeans(s, hs, seen);
    s.Compact(hs, left, remap, kept, plan, seen);
  }

  method CompactAll<V(!new)>(states: seq<HandleState<V>>, hs: seq<Element<V>>, left: seq<Element<V>>, remap: seq<nat>,
                             kept: nat,
                             plan: BucketPlan, ghost seen: map<Element<V>, V>)
    requires NoDup(states) && AllSettled(states, hs, seen) && plan.WellFormed() && IsNow(seen, left)
    requires forall i :: 0 <= i < |states| && states[i].hasOrder ==> !states[i].orderStale
    requires IsRemap(remap) && |remap| == |hs| && kept == KeptBefore(remap, |remap|) && left == Compacted(remap, hs)
    modifies states
    ensures AllSettled(states, left, seen)
  {
    for i := 0 to |states|
      invariant forall j :: 0 <= j < |states| ==>
        if j < i then Settled(states[j], left, seen)
        else Settled(states[j], hs, seen) && (states[j].hasOrder ==> !states[j].orderStale)
    {
      assert forall j :: 0 <= j < |states| && j != i ==> states[j] != states[i];
      CompactSettled(states[i], hs, left, remap, kept, plan, seen);
    }
  }

  method PlaceAllPending<V(!new)>(states: seq<HandleState<V>>, hs: seq<Element<V>>, ghost seen: map<Element<V>, V>)
    requires NoDup(states) && AllSettled(states, hs, seen)
    modifies states
    ensures AllSettled(states, hs, seen)
    ensures forall i :: 0 <= i < |states| && states[i].hasOrder ==> !states[i].orderStale
  {
    for i := 0 to |states|
      invariant AllSettled(states, hs, seen)
      invariant forall j :: 0 <= j < i && states[j].hasOrder ==> !states[j].orderStale
    {
      assert forall j :: 0 <= j < |states| && j != i ==> states[j] != states[i];
      PlacePending(states[i], hs, seen);
    }
  }

  /** The loop of updateIf. */
  method UpdateMatching<V(!new)>(
    states: seq<HandleState<V>>, hs: seq<Element<V>>, matches: V -> bool, mutate: Option<V -> V>,
    ghost now0: map<Element<V>, V>, ghost seen0: map<Element<V>, V>)
    returns (updated: nat, ghost now: map<Element<V>, V>, ghost seen: map<Element<V>, V>)
    requires NoDup(states) && NoDup(hs) && Knows(seen0, hs) && IsNow(now0, hs)
    requires AllMidway(states, hs, 0, matches, now0, now0, seen0)
    modifies hs, states
    ensures IsNow(now, hs) && Progress(hs, matches, mutate, |hs|, now0, seen0, now, seen)
    ensures AllMidway(states, hs, |hs|, matches, now0, now, seen)
    ensures updated == |Filter(Matching(matches, now0), hs)|
  {
    updated, now, seen := 0, now0, seen0;
    for slot := 0 to |hs|
      invariant IsNow(now, hs) && AllMidway(states, hs, slot, matches, now0, now, seen)
      invariant Progress(hs, matches, mutate, slot, now0, seen0, now, seen)
      invariant updated == |Filter(Matching(matches, now0), hs[..slot])|
    {
      FilterPrefix(Matching(matches, now0), hs, slot);
      ProgressStep(hs, matches, mutate, slot, now0, seen0, now, seen);
      assert hs[slot].value == now[hs[slot]] == now0[hs[slot]];
      if matches(hs[slot].value) {
        now, seen := UpdateElement(states, hs, slot, matches, mutate, now0, now, seen);
        updated := updated + 1;
      } else {
        AllPassedOver(states, hs, slot, matches, now0, now, seen);
      }
    }
    assert hs[..|hs|] == hs;
  }

  lemma AllPassedOver<V(!new)>(states: seq<HandleState<V>>, hs: seq<Element<V>>, slot: nat, matches: V -> bool,
                               now0: map<Element<V>, V>,
                               now: map<Element<V>, V>, seen: map<Element<V>, V>)
    requires slot < |hs| && AllMidway(states, hs, slot, matches, now0, now, seen)
    requires hs[slot] in now0 && !matches(now0[hs[slot]])
    ensures AllMidway(states, hs, slot + 1, matches, now0, now, seen)
  {
    forall i | 0 <= i < |states| ensures InUpdate(states[i], hs, slot + 1, matches, now0, now, seen) {
      PassedOver(states[i], hs, slot, matches, now0, now, seen);
    }
  }

  lemma UpdateStarts<V(!new)>(states: seq<HandleState<V>>, hs: seq<Element<V>>, matches: V -> bool,
                              now0: map<Element<V>, V>, seen: map<Element<V>, V>)
    requires AllSettled(states, hs, seen) && Knows(now0, hs)
    ensures AllMidway(states, hs, 0, matches, now0, now0, seen)
  {
    forall i | 0 <= i < |states| ensures InUpdate(states[i], hs, 0, matches, now0, now0, seen) {
      SettledMeans(states[i], hs, seen);
    }
  }

  /** updateIf: the loop, then new layouts where a splitter changed. */
  method UpdateElements<V(!new)>(
    states: seq<HandleState<V>>, hs: seq<Element<V>>, matches: V -> bool, mutate: Option<V -> V>, plan: BucketPlan,
        ghost seen0: map<Element<V>, V>)
    returns (updated: nat, ghost seen: map<Element<V>, V>)
    requires NoDup(states) && |hs| <= REMOVED && NoDup(hs) && plan.WellFormed() && Knows(seen0, hs)
    requires AllSettled(states, hs, seen0)
    requires forall i :: 0 <= i < |hs| && hs[i].value != seen0[hs[i]] ==> matches(hs[i].value)
    modifies hs, states
    ensures IsNow(seen, hs) && AllSettled(states, hs, seen)
    ensures forall i :: 0 <= i < |hs| ==> hs[i].value == Updated(matches, mutate, old(hs[i].value))
    ensures updated == |Filter(Matching(matches, old(Snapshot(hs))), hs)|
  {
    ghost var now0 := Snapshot(hs);
    ghost var now;
    UpdateStarts(states, hs, matches, now0, seen0);
    updated, now, seen := UpdateMatching(states, hs, matches, mutate, now0, seen0);
    ProgressDone(hs, matches, mutate, now0, seen0, now, seen);
    forall i | 0 <= i < |states| ensures Pending(states[i], hs, seen) {
      UpdateDone(states[i], hs, matches, mutate, now0, seen0, now, seen);
    }
    RelayoutChanged(states, hs, plan, seen);
  }

  /** The renumbering a removal calls for. */
  method PlanRemoval<V(!new)>(hs: seq<Element<V>>, matches: V -> bool, ghost seen: map<Element<V>, V>)
    returns (remap: seq<nat>, kept: nat)
    requires |hs| <= REMOVED && NoDup(hs) && Knows(seen, hs)
    requires forall i :: 0 <= i < |hs| && hs[i].value != seen[hs[i]] ==> matches(hs[i].value)
    ensures IsRemap(remap) && |remap| == |hs| && kept == KeptBefore(remap, |remap|)
    ensures Planned(hs, matches, Snapshot(hs), remap, kept) && IsNow(seen, Compacted(remap, hs))
  {
    ghost var now := Snapshot(hs);
    var values := ReadValues(hs, now);
    remap, kept := BuildRemap(values, matches);
    RemovalPlan(hs, matches, now, seen, remap, kept);
  }

  /** What the renumbering leaves and removes. Opened only on request. */
  ghost predicate Planned<V>(hs: seq<Element<V>>, matches: V -> bool, now: map<Element<V>, V>, remap: seq<nat>,
                             kept: nat)
    requires |remap| == |hs|
  {
    forall u {:trigger Opened(u)} :: Opened(u) ==>
      var left := Compacted(remap, hs);
      && |left| == kept <= |hs| && NoDup(left) && left == Filter(BL.Not(Matching(matches, now)), hs)
      && (kept == |hs| ==> left == hs) && |hs| - kept == |Filter(Matching(matches, now), hs)|
  }

  /** removeIf: elements changed since the last report are all removed, so what is left is in sync. */
  method RemoveElements<V(!new)>(states: seq<HandleState<V>>, hs: seq<Element<V>>, matches: V -> bool,
                                 plan: BucketPlan, ghost seen: map<Element<V>, V>)
    returns (left: seq<Element<V>>, removed: nat)
    requires NoDup(states) && |hs| <= REMOVED && NoDup(hs) && plan.WellFormed() && Knows(seen, hs)
    requires AllSettled(states, hs, seen)
    requires forall i :: 0 <= i < |hs| && hs[i].value != seen[hs[i]] ==> matches(hs[i].value)
    modifies states
    ensures |left| <= |hs| && NoDup(left) && IsNow(seen, left) && AllSettled(states, left, seen)
    ensures left == Filter(BL.Not(Matching(matches, old(Snapshot(hs)))), hs)
    ensures removed == |Filter(Matching(matches, old(Snapshot(hs))), hs)|
  {
    ghost var now := Snapshot(hs);
    var remap, kept := PlanRemoval(hs, matches, seen);
    left := ApplyRemoval(states, hs, plan, seen, remap, kept, matches, now);
    PlanMeans(hs, matches, now, remap, kept);
    removed := |hs| - kept;
  }

  lemma PlanMeans<V>(hs: seq<Element<V>>, matches: V -> bool, now: map<Element<V>, V>, remap: seq<nat>, kept: nat)
    requires |remap| == |hs| && Planned(hs, matches, now, remap, kept)
    ensures var left := Compacted(remap, hs);
      && |left| == kept <= |hs| && NoDup(left) && left == Filter(BL.Not(Matching(matches, now)), hs)
      && (kept == |hs| ==> left == hs) && |hs| - kept == |Filter(Matching(matches, now), hs)|
  {
    assert Opened(0);
  }

  /** Every state carries the removal out, unless nothing is removed. */
  method ApplyRemoval<V(!new)>(states: seq<HandleState<V>>, hs: seq<Element<V>>, plan: BucketPlan,
                               ghost seen: map<Element<V>, V>, remap: seq<nat>, kept: nat, ghost matches: V -> bool,
                               ghost now: map<Element<V>, V>)
    returns (left: seq<Element<V>>)
    requires NoDup(states) && plan.WellFormed() && AllSettled(states, hs, seen)
    requires IsRemap(remap) && |remap| == |hs| && kept == KeptBefore(remap, |remap|)
    requires Planned(hs, matches, now, remap, kept) && IsNow(seen, Compacted(remap, hs))
    modifies states
    ensures left == Compacted(remap, hs) && IsNow(seen, left) && AllSettled(states, left, seen)
  {
    if kept == |hs| {
      PlanMeans(hs, matches, now, remap, kept);
      return hs;
    }
    PlaceAllPending(states, hs, seen);
    left := CompactInPlace(remap, hs, kept);
    CompactAll(states, hs, left, remap, kept, plan, seen);
  }

  /** Everything about a removal that does not depend on the states. */
  lemma RemovalPlan<V>(hs: seq<Element<V>>, matches: V -> bool, now: map<Element<V>, V>, seen: map<Element<V>, V>,
                       remap: seq<nat>, kept: nat)
    requires NoDup(hs) && Knows(seen, hs) && IsNow(now, hs) && Knows(now, hs)
    requires forall i :: 0 <= i < |hs| && hs[i].value != seen[hs[i]] ==> matches(hs[i].value)
    requires |remap| == |hs| && kept == KeptBefore(remap, |remap|)
    requires forall i :: 0 <= i < |hs| ==> (remap[i] == REMOVED <==> matches(now[hs[i]]))
    ensures var left := Compacted(remap, hs);
      && |left| == kept <= |hs| && NoDup(left) && IsNow(seen, left)
      && left == Filter(BL.Not(Matching(matches, now)), hs) && (kept == |hs| ==> left == hs)
    ensures |hs| - kept == |Filter(Matching(matches, now), hs)|
  {
    var m := Matching(matches, now);
    forall i | 0 <= i < |hs| ensures remap[i] == REMOVED <==> m(hs[i]) {
      assert hs[i] in now;
    }
    BI.CompactedIsFilter(remap, hs, m);
    SurvivorsKnown(remap, hs, seen);
    SurvivorsInSync(hs, matches, now, seen, Compacted(remap, hs));
    if kept == |hs| {
      BI.NothingFiltered(m, hs);
    }
  }

  lemma SurvivorsInSync<V>(hs: seq<Element<V>>, matches: V -> bool, now: map<Element<V>, V>, seen: map<Element<V>, V>,
                           left: seq<Element<V>>)
    requires Knows(seen, hs) && IsNow(now, hs) && left == Filter(BL.Not(Matching(matches, now)), hs)
    requires forall i :: 0 <= i < |hs| && hs[i].value != seen[hs[i]] ==> matches(hs[i].value)
    ensures IsNow(seen, left)
  {
    forall i | 0 <= i < |left| ensures left[i] in seen && seen[left[i]] == left[i].value {
      var k := FilterOrigin(BL.Not(Matching(matches, now)), hs, i);
      assert hs[k] == left[i] && now[hs[k]] == hs[k].value;
    }
  }

  // --- the index ------------------------------------------------------------------------------------

  class HandleIndex<V(!new)> {
    var plan: BucketPlan
    var hs: seq<Element<V>>              // elements in insertion order, all distinct
    var states: seq<HandleState<V>>
    var active: Option<nat>              // index into states
    var direction: Direction
    ghost var seen: map<Element<V>, V>   // the value of each element when the index last read it

    /** Holds whatever clients do to the elements: it speaks of the values seen, not of those they have. */
    ghost predicate Valid()
      reads this, states
    {
      plan.WellFormed() && |hs| <= REMOVED && NoDup(hs) && Knows(seen, hs) && NoDup(states)
          && AllSettled(states, hs, seen)
      && (active.Some? ==> active.value < |states|)
    }

    /** Nothing has changed since. */
    ghost predicate InSync()
      reads this, hs
    {
      IsNow(seen, hs)
    }

    constructor (plan: BucketPlan)
      requires plan.WellFormed()
      ensures Valid() && InSync() && hs == [] && states == []
    {
      this.plan, hs, states, seen := plan, [], [], map[];
      active, direction := None, AscendingOrder;
    }

    method AddSortKey(key: SortKey<V>) returns (ok: bool)
      requires Valid() && InSync() && WellFormed(key) && Consistent(key)
      modifies this
      ensures Valid() && InSync() && hs == old(hs)
      ensures ok <==> forall i :: 0 <= i < |old(states)| ==> old(states)[i].sk.name != key.name
      ensures if ok then |states| == |old(states)| + 1 && states[..|old(states)|] == old(states)
          && states[|old(states)|].sk == key
              else states == old(states)
    {
      ok := forall i :: 0 <= i < |states| ==> states[i].sk.name != key.name;
      if !ok {
        return;
      }
      var state := new HandleState(key, hs, plan, seen);
      states := states + [state];
    }

    method Add(h: Element<V>)
      requires Valid() && InSync() && h !in hs && |hs| < REMOVED
      modifies this, states
      ensures Valid() && InSync() && hs == old(hs) + [h]
    {
      ghost var now := seen[h := h.value];
      SettledElsewhere(states, hs, seen, now);
      AppendAll(states, hs, h, now);
      hs := hs + [h];
      seen := now;
    }

    /**
     Changes made since the last report must be among the elements that match. Afterwards the index has
     seen every element as it is, every stored bucket id is the one the current layouts assign, and
     every splitter is an element of the collection.
     */
    method UpdateIf(matches: V -> bool, mutate: Option<V -> V>) returns (updated: nat)
      requires Valid() && forall i :: 0 <= i < |hs| && hs[i].value != seen[hs[i]] ==> matches(hs[i].value)
      modifies this`seen, hs, states
      ensures Valid() && InSync()
      ensures forall i :: 0 <= i < |hs| ==> hs[i].value == Updated(matches, mutate, old(hs[i].value))
      ensures updated == |Filter(Matching(matches, old(Snapshot(hs))), hs)|
    {
      ghost var now;
      updated, now := UpdateElements(states, hs, matches, mutate, plan, seen);
      seen := now;
    }

    method SortBy(name: string, direction: Direction) returns (ok: bool)
      requires Valid()
      modifies this`active, this`direction, states
      ensures Valid() && (ok <==> exists i :: 0 <= i < |states| && states[i].sk.name == name)
      ensures ok ==> active.Some? && states[active.value].sk.name == name && this.direction == direction
      ensures !ok ==> active == old(active) && this.direction == old(this.direction)
    {
      for i := 0 to |states|
        invariant forall j :: 0 <= j < i ==> states[j].sk.name != name
      {
        if states[i].sk.name == name {
          active, this.direction := Some(i), direction;
          GroupSettled(states[i], hs, seen);
          return true;
        }
      }
      return false;
    }

    /** The order a reader sees: that of the values the elements have. */
    ghost function Current(): seq<V>
      requires Valid()
      reads this, states
    {
      if active.None? then Seen(hs, seen) else View(states[active.value].sk, direction, Seen(hs, seen))
    }

    /** Slot `slot` is the one at position `p` of the current order, ties in insertion order. */
    ghost predicate AtSlot(p: nat, slot: nat)
      requires Valid()
      reads this, states
    {
      if active.None? then slot == p else IsSlotAt(states[active.value].sk, direction, Seen(hs, seen), p, slot)
    }

    /** at: the element whose value the sorted list of current values has at `p`. */
    method At(p: nat) returns (h: Option<Element<V>>)
      requires Valid() && InSync()
      modifies states
      ensures Valid() && InSync() && |Current()| == |hs| && (h.Some? <==> p < |hs|)
      ensures h.Some? ==> h.value in hs && h.value.value == Current()[p]
      ensures h.Some? ==> exists slot :: 0 <= slot < |hs| && h.value == hs[slot] && AtSlot(p, slot)
    {
      CurrentLength();
      if p >= |hs| {
        return None;
      }
      if active.None? {
        assert AtSlot(p, p);
        return Some(hs[p]);
      }
      var slot := ReadSettled(states[active.value], hs, direction, p, seen);
      assert AtSlot(p, slot);
      return Some(hs[slot]);
    }

    lemma CurrentLength()
      requires Valid()
      ensures |Current()| == |hs|
    {
      if active.Some? {
        SettledMeans(states[active.value], hs, seen);
        ViewLength(states[active.value].sk, direction, Seen(hs, seen));
      }
    }

    /** As for UpdateIf, changes made since the last report must be among the elements that match. */
    method RemoveIf(matches: V -> bool) returns (removed: nat)
      requires Valid() && forall i :: 0 <= i < |hs| && hs[i].value != seen[hs[i]] ==> matches(hs[i].value)
      modifies this`hs, states
      ensures Valid() && InSync()
      ensures hs == Filter(BL.Not(Matching(matches, old(Snapshot(hs)))), old(hs))
      ensures removed == |Filter(Matching(matches, old(Snapshot(hs))), old(hs))|
    {
      hs, removed := RemoveElements(states, hs, matches, plan, seen);
    }
  }

  ghost function Matching<V>(matches: V -> bool, m: map<Element<V>, V>): Element<V> -> bool {
    h => h in m && matches(m[h])
  }

  ghost function Snapshot<V>(hs: seq<Element<V>>): (m: map<Element<V>, V>)
    reads hs
    ensures IsNow(m, hs)
  {
    map h | h in hs :: h.value
  }

  /** A state depends only on the values of the collection's own elements. */
  lemma SettledElsewhere<V(!new)>(states: seq<HandleState<V>>, hs: seq<Element<V>>, seen: map<Element<V>, V>,
                                  now: map<Element<V>, V>)
    requires AllSettled(states, hs, seen) && Knows(seen, hs) && forall i :: 0 <= i < |hs| ==>
        hs[i] in now && now[hs[i]] == seen[hs[i]]
    ensures AllSettled(states, hs, now)
  {
    forall i | 0 <= i < |states| ensures Settled(states[i], hs, now) {
      SettledMeans(states[i], hs, seen);
      AgreeingLayouts(states[i].data.layouts, hs, states[i].splitterSlots, seen, now);
      assert Seen(hs, seen) == Seen(hs, now);
    }
  }
}
