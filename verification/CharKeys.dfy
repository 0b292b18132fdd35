/**
 Keys.java, packChars: an encoding of code units in the manner of section 3 of RFC 3629, except that a
 surrogate is encoded like any other unit of its size; the key is what fits into eight bytes of it.
 */
module CharKeys {
  import opened Sequences
  import opened Orders
  import opened SortKeys
  import opened Lexicographic
  import opened PackedKeys

  type CodeUnit = c: int | 0 <= c < 0x1_0000

  function UnitOrder(): Comparator<CodeUnit> {
    (x: CodeUnit, y: CodeUnit) => ByNumber(x, y)
  }

  /** String.compareTo: code unit by code unit, shorter first. */
  function CompareUnits(s: seq<CodeUnit>, t: seq<CodeUnit>): int {
    Lex(UnitOrder(), s, t)
  }

  /** One code unit as bytes. */
  function Bytes(c: CodeUnit): seq<Byte> {
    if c < 0x80 then [c]
    else if c < 0x800 then [0xC0 + c / 64, 0x80 + c % 64]
    else [0xE0 + c / 4096, 0x80 + c / 64 % 64, 0x80 + c % 64]
  }

  function Encoded(s: seq<CodeUnit>): seq<Byte> {
    if s == [] then [] else Encoded(s[..|s| - 1]) + Bytes(s[|s| - 1])
  }

  lemma {:induction false} EncodedHead(s: seq<CodeUnit>)
    requires s != []
    ensures Encoded(s) == Bytes(s[0]) + Encoded(s[1..])
  {
    var n := |s| - 1;
    if n == 0 {
      assert s[..0] == [] && s[1..] == [];
    } else {
      var front, tail := s[..n], s[1..];
      EncodedHead(front);
      assert front[1..] == tail[..n - 1] && tail[n - 1] == s[n];
      Associate(Bytes(s[0]), Encoded(tail[..n - 1]), Bytes(s[n]));
    }
  }

  lemma Associate<X>(a: seq<X>, b: seq<X>, c: seq<X>)
    ensures (a + b) + c == a + (b + c)
  {
  }

  /** Smaller code units have smaller bytes, and neither encoding is a prefix of the other. */
  lemma BytesDiffer(c: CodeUnit, d: CodeUnit) returns (k: nat)
    requires c < d
    ensures k < |Bytes(c)| && k < |Bytes(d)| && Bytes(c)[k] < Bytes(d)[k]
    ensures forall i :: 0 <= i < k ==> Bytes(c)[i] == Bytes(d)[i]
  {
    if |Bytes(c)| < |Bytes(d)| || c < 0x80 {
      LeadingByte(c);
      LeadingByte(d);
      k := 0;
    } else if c < 0x800 {
      k := if c / 64 < d / 64 then 0 else 1;
      Digits64(c);
      Digits64(d);
    } else {
      Digits64(c);
      Digits64(d);
      k := if c / 4096 < d / 4096 then 0 else if c / 64 % 64 < d / 64 % 64 then 1 else 2;
    }
  }

  /** The first byte tells the length. */
  lemma LeadingByte(c: CodeUnit)
    ensures |Bytes(c)| == 1 ==> Bytes(c)[0] == c < 0x80
    ensures |Bytes(c)| == 2 ==> 0xC0 <= Bytes(c)[0] < 0xE0
    ensures |Bytes(c)| == 3 ==> 0xE0 <= Bytes(c)[0]
  {
  }

  lemma Digits64(c: CodeUnit)
    ensures c == 64 * (c / 64) + c % 64 && c / 64 == 64 * (c / 4096) + c / 64 % 64
    ensures 0 <= c % 64 < 64 && 0 <= c / 64 % 64 < 64
  {
  }

  lemma SmallerBytes(c: CodeUnit, x: seq<Byte>, d: CodeUnit, y: seq<Byte>)
    requires c < d
    ensures CompareBytes(Bytes(c) + x, Bytes(d) + y) == -1 && CompareBytes(Bytes(d) + y, Bytes(c) + x) == 1
  {
    var k := BytesDiffer(c, d);
    var s, t := Bytes(c) + x, Bytes(d) + y;
    assert s[k] == Bytes(c)[k] && t[k] == Bytes(d)[k];
    assert forall i :: 0 <= i < k ==> s[i] == t[i];
    FirstDifference(ByteOrder(), s, t, k);
    FirstDifference(ByteOrder(), t, s, k);
  }

  lemma SameBytes(p: seq<Byte>, x: seq<Byte>, y: seq<Byte>)
    ensures CompareBytes(p + x, p + y) == CompareBytes(x, y)
  {
    FirstDifference(ByteOrder(), p + x, p + y, |p|);
    assert (p + x)[|p|..] == x && (p + y)[|p|..] == y;
  }

  /** Encoding keeps the order, surrogates included. */
  lemma {:induction false} EncodedOrder(s: seq<CodeUnit>, t: seq<CodeUnit>)
    ensures CompareBytes(Encoded(s), Encoded(t)) == CompareUnits(s, t)
  {
    if s != [] {
      EncodedHead(s);
    }
    if t != [] {
      EncodedHead(t);
    }
    if s != [] && t != [] {
      if s[0] < t[0] {
        SmallerBytes(s[0], Encoded(s[1..]), t[0], Encoded(t[1..]));
      } else if t[0] < s[0] {
        SmallerBytes(t[0], Encoded(t[1..]), s[0], Encoded(s[1..]));
      } else {
        EncodedOrder(s[1..], t[1..]);
        SameBytes(Bytes(s[0]), Encoded(s[1..]), Encoded(t[1..]));
      }
    }
  }

  /** The key of a string: the first eight bytes of its encoding, even if that cuts a code unit. */
  function UnitsKey(s: seq<CodeUnit>): nat {
    Packed(Encoded(s), 8)
  }

  /** Keys never contradict the order of the strings, for all strings. */
  lemma KeyNeverContradicts(s: seq<CodeUnit>, t: seq<CodeUnit>)
    ensures UnitsKey(s) < UnitsKey(t) ==> CompareUnits(s, t) < 0
    ensures CompareUnits(s, t) < 0 ==> UnitsKey(s) <= UnitsKey(t)
    ensures CompareUnits(s, t) == 0 ==> UnitsKey(s) == UnitsKey(t)
  {
    PackedNeverContradicts(Encoded(s), Encoded(t), 8);
    EncodedOrder(s, t);
  }

  /** The keys compare exactly as the first eight bytes of the encodings do. */
  lemma KeyOrders(s: seq<CodeUnit>, t: seq<CodeUnit>)
    ensures UnitsKey(s) < UnitsKey(t) <==> PrefixBefore(Encoded(s), Encoded(t), 8)
  {
    PackedOrders(Encoded(s), Encoded(t), 8);
  }

  // --- packing in a loop ------------------------------------------------------------------------------

  /** Only the first `n` bytes count. */
  lemma {:induction false} PackedPrefix(s: seq<Byte>, t: seq<Byte>, n: nat)
    requires n <= |s|
    ensures Packed(s + t, n) == Packed(s, n)
  {
    if n > 0 {
      PackedPrefix(s, t, n - 1);
    }
  }

  /** A number shifted left by whole bytes. */
  function ShiftedLeft(k: nat, bytes: nat): nat {
    if bytes == 0 then k else 256 * ShiftedLeft(k, bytes - 1)
  }

  /** Padding shifts. */
  lemma {:induction false} PackedPads(s: seq<Byte>, n: nat, m: nat)
    requires |s| <= n <= m
    ensures Packed(s, m) == ShiftedLeft(Packed(s, n), m - n)
  {
    if n < m {
      PackedPads(s, n, m - 1);
    }
  }

  /** The code unit as one number, its bytes big-endian. */
  function Combined(c: CodeUnit): nat {
    if c < 0x80 then c
    else if c < 0x800 then (0xC0 + c / 64) * 0x100 + (0x80 + c % 64)
    else (0xE0 + c / 4096) * 0x1_0000 + (0x80 + c / 64 % 64) * 0x100 + (0x80 + c % 64)
  }

  /** Byte `b` from the right. */
  function Extracted(e: nat, b: nat): Byte
    requires b < 3
  {
    if b == 0 then e % 0x100 else Extracted(e / 0x100, b - 1)
  }

  lemma ExtractedIsByte(c: CodeUnit, b: nat)
    requires b < |Bytes(c)|
    ensures Extracted(Combined(c), b) == Bytes(c)[|Bytes(c)| - 1 - b]
  {
    var s := Bytes(c);
    if |s| == 1 {
      ExtractedFrom(0, 0, s[0], b);
    } else if |s| == 2 {
      ExtractedFrom(0, s[0], s[1], b);
    } else {
      ExtractedFrom(s[0], s[1], s[2], b);
    }
  }

  lemma ExtractedFrom(x: Byte, y: Byte, z: Byte, b: nat)
    requires b < 3
    ensures Extracted(x * 0x1_0000 + y * 0x100 + z, b) == if b == 0 then z else if b == 1 then y else x
  {
    var e := x * 0x1_0000 + y * 0x100 + z;
    LowByte(x * 0x100 + y, z);
    LowByte(x, y);
    LowByte(0, x);
    assert e == 0x100 * (x * 0x100 + y) + z;
    assert e / 0x100 == 0x100 * x + y && e / 0x100 / 0x100 == x;
    if b == 2 {
      assert Extracted(e, 2) == Extracted(e / 0x100, 1) == Extracted(x, 0);
    }
  }

  lemma LowByte(q: nat, r: Byte)
    ensures (0x100 * q + r) / 0x100 == q && (0x100 * q + r) % 0x100 == r
  {
  }

  ghost predicate Filling(key: nat, used: nat, e: seq<Byte>) {
    used == Min(8, |e|) && key == Packed(e, used)
  }

  /** Appends the bytes of one code unit while there is room. */
  method PackOne(key0: nat, used0: nat, c: CodeUnit, ghost e: seq<Byte>) returns (key: nat, used: nat)
    requires Filling(key0, used0, e) && used0 < 8
    ensures Filling(key, used, e + Bytes(c))
  {
    key, used := key0, used0;
    var length := if c < 0x80 then 1 else if c < 0x800 then 2 else 3;
    var encoded := Combined(c);
    var b := length;
    ghost var all := e + Bytes(c);
    PackedPrefix(e, Bytes(c), used);
    while b > 0 && used < 8
      invariant 0 <= b <= length && used == |e| + (length - b) <= 8 && key == Packed(all, used)
    {
      b := b - 1;
      ExtractedIsByte(c, b);
      assert all[used] == Bytes(c)[length - 1 - b];
      key := key * 256 + Extracted(encoded, b);
      used := used + 1;
    }
  }

  method PackChars(text: seq<CodeUnit>, fold: CodeUnit -> CodeUnit) returns (key: Key64)
    ensures key == UnitsKey(Folded(fold, text))
  {
    var k: nat, used: nat, i: nat := 0, 0, 0;
    ghost var units := Folded(fold, text);
    while i < |text| && used < 8
      invariant 0 <= i <= |text| && Filling(k, used, Encoded(units[..i]))
    {
      k, used := PackOne(k, used, fold(text[i]), Encoded(units[..i]));
      assert units[..i + 1][..i] == units[..i];
      i := i + 1;
    }
    Packing(units, i, k, used);
    key := if used == 0 then 0 else ShiftedLeft(k, 8 - used);
  }

  /** At the end of the loop, shifting to the left edge leaves the key. */
  lemma Packing(units: seq<CodeUnit>, i: nat, k: nat, used: nat)
    requires i <= |units| && Filling(k, used, Encoded(units[..i])) && (i < |units| ==> used == 8)
    ensures ShiftedLeft(k, 8 - used) == UnitsKey(units) < 0x1_0000_0000_0000_0000
    ensures used == 0 ==> UnitsKey(units) == 0
  {
    EncodedCut(units, i, used);
    if used < 8 {
      PackedPads(Encoded(units[..i]), used, 8);
    }
    EightBytes(Encoded(units));
  }

  function Folded(fold: CodeUnit -> CodeUnit, s: seq<CodeUnit>): (r: seq<CodeUnit>)
    ensures |r| == |s| && forall i :: 0 <= i < |s| ==> r[i] == fold(s[i])
  {
    seq(|s|, i requires 0 <= i < |s| => fold(s[i]))
  }

  lemma {:induction false} EncodedConcat(s: seq<CodeUnit>, t: seq<CodeUnit>)
    ensures Encoded(s + t) == Encoded(s) + Encoded(t)
  {
    if t == [] {
      assert s + t == s;
    } else {
      var u := t[..|t| - 1];
      EncodedConcat(s, u);
      assert (s + t)[..|s + t| - 1] == s + u;
      Associate(Encoded(s), Encoded(u), Bytes(t[|t| - 1]));
    }
  }

  /** What does not fit any more does not matter. */
  lemma EncodedCut(units: seq<CodeUnit>, i: nat, used: nat)
    requires i <= |units| && used == Min(8, |Encoded(units[..i])|) && (i < |units| ==> used == 8)
    ensures Packed(Encoded(units), 8) == Packed(Encoded(units[..i]), 8)
  {
    assert units == units[..i] + units[i..];
    EncodedConcat(units[..i], units[i..]);
    if i < |units| {
      PackedPrefix(Encoded(units[..i]), Encoded(units[i..]), 8);
    } else {
      assert units[..i] == units;
    }
  }

  /** compareIgnoreCase: code unit by code unit after folding. */
  method CompareFolded(a: seq<CodeUnit>, b: seq<CodeUnit>, fold: CodeUnit -> CodeUnit) returns (r: int)
    ensures ByNumber(r, 0) == CompareUnits(Folded(fold, a), Folded(fold, b))
  {
    ghost var x, y := Folded(fold, a), Folded(fold, b);
    var length := Min(|a|, |b|);
    for i := 0 to length
      invariant forall k :: 0 <= k < i ==> x[k] == y[k]
    {
      if fold(a[i]) != fold(b[i]) {
        FirstDifference(UnitOrder(), x, y, i);
        return fold(a[i]) - fold(b[i]);
      }
    }
    FirstDifference(UnitOrder(), x, y, length);
    return |a| - |b|;
  }
}
