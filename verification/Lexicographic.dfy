/** Comparators built from comparators: by number, by image, one after the other, and element by element. */
module Lexicographic {
  import opened Orders

  type Byte = b: int | 0 <= b < 256

  /** Numbers, as -1, 0 or 1. */
  function ByNumber(x: int, y: int): int {
    if x < y then -1 else if x > y then 1 else 0
  }

  function IntOrder(): Comparator<int> {
    (x: int, y: int) => ByNumber(x, y)
  }

  /** First `c`, then `d` on ties. */
  function Then<X>(c: Comparator<X>, d: Comparator<X>): Comparator<X> {
    (x, y) => if c(x, y) != 0 then c(x, y) else d(x, y)
  }

  /** Compares what `f` makes of the arguments. */
  function By<X, Y>(f: X -> Y, c: Comparator<Y>): Comparator<X> {
    (x, y) => c(f(x), f(y))
  }

  /** The first difference decides; a prefix comes first. */
  function Lex<X>(c: Comparator<X>, s: seq<X>, t: seq<X>): int {
    if s == [] then if t == [] then 0 else -1
    else if t == [] then 1
    else if c(s[0], t[0]) != 0 then c(s[0], t[0])
    else Lex(c, s[1..], t[1..])
  }

  function LexOrder<X>(c: Comparator<X>): Comparator<seq<X>> {
    (s, t) => Lex(c, s, t)
  }

  lemma ThenIsPreorder<X(!new)>(c: Comparator<X>, d: Comparator<X>)
    requires TotalPreorder(c) && TotalPreorder(d)
    ensures TotalPreorder(Then(c, d))
  {
    var e := Then(c, d);
    forall x, y ensures e(x, y) < 0 <==> e(y, x) > 0 {
      Mirrors(c, x, y);
      Mirrors(d, x, y);
    }
    forall x, y, z ensures Chains(e, x, y, z) {
      if e(x, y) <= 0 && e(y, z) <= 0 {
        StrictChain(c, x, y, z);
        ZeroChain(c, x, y, z);
        assert Chains(d, x, y, z);
      }
    }
  }

  /** Ties chain to a tie. */
  lemma ZeroChain<X(!new)>(c: Comparator<X>, x: X, y: X, z: X)
    requires TotalPreorder(c)
    ensures c(x, y) == 0 && c(y, z) == 0 ==> c(x, z) == 0
  {
    assert Chains(c, x, y, z) && Chains(c, z, y, x);
    Mirrors(c, x, y);
    Mirrors(c, y, z);
    Mirrors(c, x, z);
  }

  lemma ByIsPreorder<X(!new), Y(!new)>(f: X -> Y, c: Comparator<Y>)
    requires TotalPreorder(c)
    ensures TotalPreorder(By(f, c))
  {
    forall x, y, z ensures Chains(By(f, c), x, y, z) {
      assert Chains(c, f(x), f(y), f(z));
    }
    forall x, y ensures By(f, c)(x, y) < 0 <==> By(f, c)(y, x) > 0 {
      Mirrors(c, f(x), f(y));
    }
  }

  lemma {:induction false} LexMirrors<X(!new)>(c: Comparator<X>, s: seq<X>, t: seq<X>)
    requires TotalPreorder(c)
    ensures Lex(c, s, t) < 0 <==> Lex(c, t, s) > 0
  {
    if s != [] && t != [] {
      Mirrors(c, s[0], t[0]);
      LexMirrors(c, s[1..], t[1..]);
    }
  }

  lemma {:induction false} LexChains<X(!new)>(c: Comparator<X>, s: seq<X>, t: seq<X>, u: seq<X>)
    requires TotalPreorder(c)
    ensures Lex(c, s, t) <= 0 && Lex(c, t, u) <= 0 ==> Lex(c, s, u) <= 0
  {
    if s != [] && t != [] && u != [] && c(s[0], t[0]) <= 0 && c(t[0], u[0]) <= 0 {
      StrictChain(c, s[0], t[0], u[0]);
      ZeroChain(c, s[0], t[0], u[0]);
      LexChains(c, s[1..], t[1..], u[1..]);
    }
  }

  /** Comparing element by element is consistent if comparing elements is. */
  lemma LexIsPreorder<X(!new)>(c: Comparator<X>)
    requires TotalPreorder(c)
    ensures TotalPreorder(LexOrder(c))
  {
    var d := LexOrder(c);
    forall s, t ensures d(s, t) < 0 <==> d(t, s) > 0 {
      LexMirrors(c, s, t);
    }
    forall s, t, u ensures Chains(d, s, t, u) {
      LexChains(c, s, t, u);
    }
  }

  /** Distinguishing elements, it distinguishes sequences. */
  lemma {:induction false} LexSeparates<X>(c: Comparator<X>, s: seq<X>, t: seq<X>)
    requires forall x, y :: x in s && y in t && c(x, y) == 0 ==> x == y
    requires forall x :: x in s ==> c(x, x) == 0
    ensures Lex(c, s, t) == 0 <==> s == t
  {
    if s != [] && t != [] {
      assert s[0] in s && t[0] in t;
      LexSeparates(c, s[1..], t[1..]);
      assert s == [s[0]] + s[1..] && t == [t[0]] + t[1..];
    }
  }

  // --- bytes ------------------------------------------------------------------------------------

  function ByteOrder(): Comparator<Byte> {
    (x: Byte, y: Byte) => ByNumber(x, y)
  }

  /** memcmp and std::string_view::compare: unsigned bytes, shorter first. */
  function CompareBytes(s: seq<Byte>, t: seq<Byte>): int {
    Lex(ByteOrder(), s, t)
  }

  lemma CompareBytesIsOrder()
    ensures TotalPreorder(LexOrder(ByteOrder()))
    ensures forall s: seq<Byte>, t: seq<Byte> :: CompareBytes(s, t) == 0 <==> s == t
  {
    LexIsPreorder(ByteOrder());
    forall s: seq<Byte>, t: seq<Byte> ensures CompareBytes(s, t) == 0 <==> s == t {
      LexSeparates(ByteOrder(), s, t);
    }
  }

  /** Where two sequences first differ decides. */
  lemma {:induction false} FirstDifference<X>(c: Comparator<X>, s: seq<X>, t: seq<X>, i: nat)
    requires i <= |s| && i <= |t| && (forall k :: 0 <= k < i ==> c(s[k], t[k]) == 0)
    ensures Lex(c, s, t) == Lex(c, s[i..], t[i..])
  {
    if i > 0 {
      FirstDifference(c, s[1..], t[1..], i - 1);
      assert s[1..][i - 1..] == s[i..] && t[1..][i - 1..] == t[i..];
    }
  }
}
