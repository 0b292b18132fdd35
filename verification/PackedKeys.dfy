/** keys.hpp and Keys.java: prefixes of strings packed into 64-bit keys that never contradict the string order. */
module PackedKeys {
  import opened Sequences
  import opened Orders
  import opened SortKeys
  import opened Lexicographic

  // --- leading bytes as a number ----------------------------------------------------------------

  function Padded(s: seq<Byte>, i: nat): Byte {
    if i < |s| then s[i] else 0
  }

  /** The first `n` bytes, big-endian; shorter input is padded with zeros. */
  function Packed(s: seq<Byte>, n: nat): nat {
    if n == 0 then 0 else 256 * Packed(s, n - 1) + Padded(s, n - 1)
  }

  function Pow256(n: nat): nat {
    if n == 0 then 1 else 256 * Pow256(n - 1)
  }

  lemma {:induction false} PackedBound(s: seq<Byte>, n: nat)
    ensures Packed(s, n) < Pow256(n)
  {
    if n > 0 {
      PackedBound(s, n - 1);
    }
  }

  lemma EightBytes(s: seq<Byte>)
    ensures Packed(s, 8) < 0x1_0000_0000_0000_0000
  {
    PackedBound(s, 8);
    assert Pow256(4) == 0x1_0000_0000 && Pow256(6) == 0x1_0000_0000_0000;
  }

  /** Equal numbers come from equal bytes. */
  lemma {:induction false} PackedEqual(s: seq<Byte>, t: seq<Byte>, n: nat, i: nat)
    requires Packed(s, n) == Packed(t, n) && i < n
    ensures Padded(s, i) == Padded(t, i)
  {
    if i < n - 1 {
      PackedEqual(s, t, n - 1, i);
    }
  }

  /** Among the first `n` bytes, zeros standing in for missing ones, the first difference is in favour of `s`. */
  ghost predicate PrefixBefore(s: seq<Byte>, t: seq<Byte>, n: nat) {
    exists i: nat :: i < n && Padded(s, i) < Padded(t, i) && forall k: nat :: k < i ==> Padded(s, k) == Padded(t, k)
  }

  /** The numbers compare exactly as those bytes do: nothing of the prefix is lost. */
  lemma {:induction false} PackedOrders(s: seq<Byte>, t: seq<Byte>, n: nat)
    ensures Packed(s, n) < Packed(t, n) <==> PrefixBefore(s, t, n)
  {
    if i: nat :| DiffersFirst(s, t, n, i) {
      PackedDiffers(s, t, n, i);
    } else {
      PackedSame(s, t, n);
    }
  }

  ghost predicate DiffersFirst(s: seq<Byte>, t: seq<Byte>, n: nat, i: nat) {
    i < n && Padded(s, i) != Padded(t, i) && forall k: nat :: k < i ==> Padded(s, k) == Padded(t, k)
  }

  lemma {:induction false} PackedDiffers(s: seq<Byte>, t: seq<Byte>, n: nat, i: nat)
    requires DiffersFirst(s, t, n, i)
    ensures Packed(s, n) < Packed(t, n) <==> Padded(s, i) < Padded(t, i)
    ensures Packed(s, n) != Packed(t, n)
  {
    if i < n - 1 {
      PackedDiffers(s, t, n - 1, i);
    } else {
      PackedSame(s, t, i);
    }
  }

  lemma {:induction false} PackedSame(s: seq<Byte>, t: seq<Byte>, n: nat)
    requires forall i: nat :: !DiffersFirst(s, t, n, i)
    ensures Packed(s, n) == Packed(t, n) && forall k: nat :: k < n ==> Padded(s, k) == Padded(t, k)
  {
    if n > 0 {
      var m := n - 1;
      forall i: nat ensures !DiffersFirst(s, t, m, i) {
        assert !DiffersFirst(s, t, n, i);
      }
      PackedSame(s, t, m);
      assert !DiffersFirst(s, t, n, m);
    }
  }

  /** A smaller number means a smaller string, NULs and all. */
  lemma {:induction false} PackedFollowsBytes(s: seq<Byte>, t: seq<Byte>, n: nat)
    requires Packed(s, n) < Packed(t, n)
    ensures CompareBytes(s, t) < 0
  {
    if Packed(s, n - 1) < Packed(t, n - 1) {
      PackedFollowsBytes(s, t, n - 1);
    } else {
      assert Packed(s, n - 1) == Packed(t, n - 1);
      var i := Min(n - 1, |s|);
      forall k | 0 <= k < i ensures k < |t| ==> s[k] == t[k] {
        PackedEqual(s, t, n - 1, k);
      }
      FirstDifference(ByteOrder(), s, t, i);
    }
  }

  /** The converse, as far as a prefix can tell. */
  lemma PackedNeverContradicts(s: seq<Byte>, t: seq<Byte>, n: nat)
    ensures Packed(s, n) < Packed(t, n) ==> CompareBytes(s, t) < 0
    ensures CompareBytes(s, t) < 0 ==> Packed(s, n) <= Packed(t, n)
    ensures CompareBytes(s, t) == 0 ==> Packed(s, n) == Packed(t, n)
  {
    LexMirrors(ByteOrder(), s, t);
    LexMirrors(ByteOrder(), t, s);
    if Packed(s, n) < Packed(t, n) {
      PackedFollowsBytes(s, t, n);
    } else if Packed(t, n) < Packed(s, n) {
      PackedFollowsBytes(t, s, n);
    }
  }

  /** from_bytes. */
  method FromBytes(bytes: seq<Byte>) returns (key: Key64)
    ensures key == PrefixKey(bytes)
  {
    var k: nat := 0;
    for i := 0 to 8
      invariant k == Packed(bytes, i)
    {
      k := k * 256;
      if i < |bytes| {
        k := k + bytes[i];
      }
    }
    EightBytes(bytes);
    key := k;
  }

  // --- SortKey::of on strings --------------------------------------------------------------------

  function PrefixKey(s: seq<Byte>): Key64 {
    EightBytes(s);
    Packed(s, 8)
  }

  /** The keys compare exactly as the first eight bytes do. */
  lemma PrefixKeyOrders(s: seq<Byte>, t: seq<Byte>)
    ensures PrefixKey(s) < PrefixKey(t) <==> PrefixBefore(s, t, 8)
  {
    PackedOrders(s, t, 8);
  }

  /** The sort key made from a projection to a string: prefix key, full comparison on ties. */
  function StringKey<T>(name: string, projection: T -> seq<Byte>): SortKey<T> {
    SortKey(name, Some(x => PrefixKey(projection(x))), Some((x, y) => CompareBytes(projection(x), projection(y))), 1,
        None)
  }

  /** It orders elements exactly as their strings compare byte by byte. */
  lemma StringKeyIsExact<T(!new)>(name: string, projection: T -> seq<Byte>)
    ensures WellFormed(StringKey(name, projection)) && Consistent(StringKey(name, projection))
    ensures forall x, y :: StringKey(name, projection).Compare(x, y) == CompareBytes(projection(x), projection(y))
  {
    var sk := StringKey(name, projection);
    CompareBytesIsOrder();
    ByIsPreorder(projection, LexOrder(ByteOrder()));
    forall x, y ensures sk.Compare(x, y) == CompareBytes(projection(x), projection(y)) {
      PackedNeverContradicts(projection(x), projection(y), 8);
      PackedNeverContradicts(projection(y), projection(x), 8);
      LexMirrors(ByteOrder(), projection(x), projection(y));
      LexMirrors(ByteOrder(), projection(y), projection(x));
      LexRange(projection(x), projection(y));
    }
    var t, c := (x, y) => sk.TieBreak(x, y), By(projection, LexOrder(ByteOrder()));
    forall x, y ensures t(x, y) < 0 <==> t(y, x) > 0 {
      Mirrors(c, x, y);
    }
    forall x, y, z ensures Chains(t, x, y, z) {
      assert Chains(c, x, y, z);
    }
  }

  lemma {:induction false} LexRange(s: seq<Byte>, t: seq<Byte>)
    ensures -1 <= CompareBytes(s, t) <= 1
  {
    if s != [] && t != [] {
      LexRange(s[1..], t[1..]);
    }
  }
}
