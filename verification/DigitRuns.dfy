/** Runs of decimal digits and the integers they stand for. */
module DigitRuns {
  import opened Lexicographic

  predicate IsDigit(b: Byte) {
    48 <= b <= 57
  }

  predicate AllDigits(s: seq<Byte>) {
    forall i :: 0 <= i < |s| ==> IsDigit(s[i])
  }

  /** The integer a run of digits stands for, however long. */
  function Value(s: seq<Byte>): nat
    requires AllDigits(s)
  {
    if s == [] then 0 else 10 * Value(s[..|s| - 1]) + (s[|s| - 1] - 48)
  }

  function Pow10(n: nat): nat {
    if n == 0 then 1 else 10 * Pow10(n - 1)
  }

  /** The first digit counts most. */
  lemma {:induction false} ValueHead(s: seq<Byte>)
    requires AllDigits(s) && s != []
    ensures Value(s) == (s[0] - 48) * Pow10(|s| - 1) + Value(s[1..])
  {
    if |s| == 1 {
      assert s[..0] == [] && s[1..] == [];
    } else {
      var t, n := s[..|s| - 1], |s| - 1;
      ValueHead(t);
      assert s[1..][..n - 1] == t[1..];
      assert 10 * ((s[0] - 48) * Pow10(n - 1)) == (s[0] - 48) * Pow10(n);
    }
  }

  lemma {:induction false} ValueBelow(s: seq<Byte>)
    requires AllDigits(s)
    ensures Value(s) < Pow10(|s|)
  {
    if s != [] {
      ValueBelow(s[..|s| - 1]);
    }
  }

  /** Without leading zeros a run is at least the power of its length. */
  lemma ValueAbove(s: seq<Byte>)
    requires AllDigits(s) && s != [] && s[0] != 48
    ensures Pow10(|s| - 1) <= Value(s)
  {
    ValueHead(s);
    ProductAtLeast(s[0] - 48, Pow10(|s| - 1));
  }

  lemma ProductAtLeast(d: nat, p: nat)
    requires d >= 1
    ensures p <= d * p
  {
  }

  lemma {:induction false} Pow10Grows(m: nat, n: nat)
    requires m <= n
    ensures Pow10(m) <= Pow10(n)
  {
    if m < n {
      Pow10Grows(m, n - 1);
    }
  }

  predicate Stripped(s: seq<Byte>) {
    s == [] || s[0] != 48
  }

  /** Of two runs without leading zeros the shorter is smaller. */
  lemma ShorterIsSmaller(s: seq<Byte>, t: seq<Byte>)
    requires AllDigits(s) && AllDigits(t) && Stripped(t) && |s| < |t|
    ensures Value(s) < Value(t)
  {
    ValueBelow(s);
    ValueAbove(t);
    Pow10Grows(|s|, |t| - 1);
  }

  /** Runs of the same length compare as bytes the way they compare as integers. */
  lemma {:induction false} SameLengthAsBytes(s: seq<Byte>, t: seq<Byte>)
    requires AllDigits(s) && AllDigits(t) && |s| == |t|
    ensures CompareBytes(s, t) == ByNumber(Value(s), Value(t))
  {
    if s != [] {
      SameLengthAsBytes(s[1..], t[1..]);
      ValueHead(s);
      ValueHead(t);
      ValueBelow(s[1..]);
      ValueBelow(t[1..]);
      var p := Pow10(|s| - 1);
      if s[0] < t[0] {
        LeadingDigits(s[0] - 48, t[0] - 48, p);
      } else if t[0] < s[0] {
        LeadingDigits(t[0] - 48, s[0] - 48, p);
      }
    }
  }

  lemma LeadingDigits(a: nat, b: nat, p: nat)
    requires a < b
    ensures a * p + p <= b * p
  {
    assert b * p == a * p + (b - a) * p;
    ProductAtLeast(b - a, p);
  }

  /** Zeros in front add nothing to the value. */
  lemma {:induction false} LeadingZeros(s: seq<Byte>, k: nat)
    requires AllDigits(s) && k <= |s| && forall i :: 0 <= i < k ==> s[i] == 48
    ensures Value(s[k..]) == Value(s)
  {
    if k > 0 {
      ValueHead(s);
      LeadingZeros(s[1..], k - 1);
      assert s[1..][k - 1..] == s[k..];
    } else {
      assert s[0..] == s;
    }
  }

  /** Runs with leading zeros removed: by length, then as bytes, is by value. */
  lemma ComparedByValue(s: seq<Byte>, t: seq<Byte>)
    requires AllDigits(s) && AllDigits(t) && Stripped(s) && Stripped(t)
    ensures ByNumber(Value(s), Value(t)) == if |s| != |t| then ByNumber(|s|, |t|) else CompareBytes(s, t)
  {
    if |s| < |t| {
      ShorterIsSmaller(s, t);
    } else if |t| < |s| {
      ShorterIsSmaller(t, s);
    } else {
      SameLengthAsBytes(s, t);
    }
  }

  // --- where runs end -------------------------------------------------------------------------------

  /** The end of the digit run at `i`; `i` itself if there is none. */
  function DigitsEnd(s: seq<Byte>, i: nat): (e: nat)
    requires i <= |s|
    ensures i <= e <= |s| && AllDigits(s[i..e]) && (e < |s| ==> !IsDigit(s[e]))
    decreases |s| - i
  {
    if i < |s| && IsDigit(s[i]) then
      var e := DigitsEnd(s, i + 1);
      assert s[i..e] == [s[i]] + s[i + 1..e];
      e
    else i
  }

  /** Wherever a scan through digits stops, the run ends. */
  lemma {:induction false} RunEndsAt(s: seq<Byte>, i: nat, e: nat)
    requires i <= e <= |s| && (forall k :: i <= k < e ==> IsDigit(s[k])) && (e < |s| ==> !IsDigit(s[e]))
    ensures DigitsEnd(s, i) == e
    decreases e - i
  {
    if i < e {
      RunEndsAt(s, i + 1, e);
    }
  }
}
