/** sort_key.hpp: sort criteria, and why their comparison is consistent. */
module SortKeys {
  import opened Sequences
  import opened Orders

  /** Normalized 64-bit keys, compared as unsigned integers. */
  type Key64 = k: int | 0 <= k < 0x1_0000_0000_0000_0000

  const MAX_GROUPS := 256

  datatype Direction = AscendingOrder | DescendingOrder

  /**
   Three criteria, of which a missing one never distinguishes: the group, the key, and `ties`. Without
   a key, `ties` does all the work inside a group.
   */
  datatype SortKey<!T> = SortKey(
    name: string, key: Option<T -> Key64>, ties: Option<Comparator<T>>, groups: nat, groupOf: Option<T -> nat>)
  {
    function Group(x: T): nat {
      if groupOf.None? then 0 else groupOf.value(x)
    }

    function Key(x: T): Key64 {
      if key.None? then 0 else key.value(x)
    }

    function TieBreak(x: T, y: T): int {
      if ties.None? then 0 else ties.value(x, y)
    }

    /** The first criterion that distinguishes decides. */
    function Compare(x: T, y: T): int {
      if Group(x) != Group(y) then if Group(x) < Group(y) then -1 else 1
      else if Key(x) != Key(y) then if Key(x) < Key(y) then -1 else 1
      else TieBreak(x, y)
    }

    /** The order the layout of one group is cut by: as Compare, but keyed sort keys skip the group. */
    function Within(x: T, y: T): int {
      if key.None? then Compare(x, y)
      else if Key(x) != Key(y) then if Key(x) < Key(y) then -1 else 1
      else TieBreak(x, y)
    }

    function WithinOrder(): Comparator<T> {
      (x, y) => Within(x, y)
    }

    function Order(): Comparator<T> {
      (x, y) => Compare(x, y)
    }
  }

  /** What the constructors guarantee and the group function must respect. */
  ghost predicate WellFormed<T(!new)>(sk: SortKey<T>) {
    && 1 <= sk.groups <= MAX_GROUPS
    && (sk.groupOf.None? ==> sk.groups == 1)
    && (forall x :: sk.Group(x) < sk.groups)
    && (sk.key.Some? || sk.ties.Some?)
  }

  /** The tie-breaker is a consistent three-way comparator. */
  ghost predicate Consistent<T(!new)>(sk: SortKey<T>) {
    TotalPreorder((x, y) => sk.TieBreak(x, y))
  }

  lemma WithinIsPreorder<T(!new)>(sk: SortKey<T>)
    requires Consistent(sk)
    ensures TotalPreorder(sk.WithinOrder())
  {
    var t, w := (x, y) => sk.TieBreak(x, y), sk.WithinOrder();
    CompareIsPreorder(sk);
    forall x, y ensures w(x, y) < 0 <==> w(y, x) > 0 {
      assert t(x, y) < 0 <==> t(y, x) > 0;
      assert t(y, x) < 0 <==> t(x, y) > 0;
      assert sk.Order()(x, y) < 0 <==> sk.Order()(y, x) > 0;
    }
    forall x, y, z ensures Chains(w, x, y, z) {
      assert Chains(t, x, y, z) && Chains(sk.Order(), x, y, z);
    }
  }

  /** Group, key and tie-breaker together order the elements consistently whenever the tie-breaker does. */
  lemma CompareIsPreorder<T(!new)>(sk: SortKey<T>)
    requires Consistent(sk)
    ensures TotalPreorder(sk.Order())
  {
    var t := (x, y) => sk.TieBreak(x, y);
    forall x, y ensures sk.Compare(x, y) < 0 <==> sk.Compare(y, x) > 0 {
      assert t(x, y) < 0 <==> t(y, x) > 0;
      assert t(y, x) < 0 <==> t(x, y) > 0;
    }
    forall x, y, z ensures Chains(sk.Order(), x, y, z) {
      assert Chains(t, x, y, z);
    }
  }
}
