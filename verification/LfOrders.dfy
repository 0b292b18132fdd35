/**
 terminal_family_sort.h, lf's natural_cmp, and the key made for it in benchmark_terminal_family.cpp,
 on names already normalized. Both rest on digit runs that fit a signed 64-bit integer.
 */
module LfOrders {
  import opened Sequences
  import opened Orders
  import opened SortKeys
  import opened Lexicographic
  import opened DigitRuns
  import opened PackedKeys

  const LIMIT: nat := 0x8000_0000_0000_0000      // 2^63: the first value that does not fit

  // --- runs ---------------------------------------------------------------------------------------

  /** Where the bytes from `i` on stop being digits, or stop not being digits. */
  function RunEnd(s: seq<Byte>, i: nat, digits: bool): (e: nat)
    requires i <= |s|
    ensures i <= e <= |s| && forall k :: i <= k < e ==> IsDigit(s[k]) == digits
    decreases |s| - i
  {
    if i < |s| && IsDigit(s[i]) == digits then RunEnd(s, i + 1, digits) else i
  }

  /** A name as its runs. */
  function Runs(s: seq<Byte>, i: nat): seq<seq<Byte>>
    requires i <= |s|
    decreases |s| - i
  {
    if i == |s| then []
    else
      var e := RunEnd(s, i, IsDigit(s[i]));
      [s[i..e]] + Runs(s, e)
  }

  predicate IsNumber(t: seq<Byte>) {
    t != [] && AllDigits(t)
  }

  /** Parsing fails on overflow. */
  function Parsed(t: seq<Byte>): Option<nat>
    requires AllDigits(t)
  {
    if Value(t) < LIMIT then Some(Value(t)) else None
  }

  /** One run against another: numbers that parse by value, then length; anything else by its bytes. */
  function RunOrder(): Comparator<seq<Byte>> {
    (t: seq<Byte>, u: seq<Byte>) =>
      if IsNumber(t) && IsNumber(u) && Parsed(t).Some? && Parsed(u).Some? then
        if Value(t) != Value(u) then ByNumber(Value(t), Value(u))
        else if |t| != |u| then ByNumber(|t|, |u|)
        else CompareBytes(t, u)
      else CompareBytes(t, u)
  }

  /** natural_cmp: run by run. */
  function LfOrder(): Comparator<seq<Byte>> {
    (a: seq<Byte>, b: seq<Byte>) => Lex(RunOrder(), Runs(a, 0), Runs(b, 0))
  }

  // --- the loops ------------------------------------------------------------------------------------

  lemma {:induction false} PrefixValue(t: seq<Byte>, i: nat)
    requires AllDigits(t) && i <= |t|
    ensures AllDigits(t[..i]) && Value(t[..i]) <= Value(t)
    decreases |t| - i
  {
    if i < |t| {
      PrefixValue(t, i + 1);
      assert t[..i + 1][..i] == t[..i];
    } else {
      assert t[..i] == t;
    }
  }

  /** atoi: stops before the value would pass the largest 64-bit integer. */
  method Atoi(t: seq<Byte>) returns (r: Option<nat>)
    requires AllDigits(t)
    ensures r == Parsed(t)
  {
    var v := 0;
    for i := 0 to |t|
      invariant AllDigits(t[..i]) && v == Value(t[..i]) && 0 <= v < LIMIT
    {
      var d := t[i] - 48;
      assert t[..i + 1][..i] == t[..i];
      PrefixValue(t, i + 1);
      if v > (LIMIT - 1 - d) / 10 {
        return None;
      }
      v := v * 10 + d;
    }
    assert t[..|t|] == t;
    return Some(v);
  }

  method ScanRun(s: seq<Byte>, lo: nat) returns (hi: nat)
    requires lo < |s|
    ensures hi == RunEnd(s, lo, IsDigit(s[lo])) && lo < hi <= |s|
  {
    hi := lo;
    ghost var digits := IsDigit(s[lo]);
    while hi < |s| && IsDigit(s[hi]) == IsDigit(s[lo])
      invariant lo <= hi <= |s| && RunEnd(s, lo, digits) == RunEnd(s, hi, digits) && (hi == lo ==> hi < |s|)
    {
      hi := hi + 1;
    }
  }

  method CompareRuns(t: seq<Byte>, u: seq<Byte>) returns (r: int)
    requires t != [] && u != [] && (IsDigit(t[0]) ==> AllDigits(t)) && (IsDigit(u[0]) ==> AllDigits(u))
    ensures r == RunOrder()(t, u)
  {
    if IsDigit(t[0]) && IsDigit(u[0]) {
      var n := Atoi(t);
      var m := Atoi(u);
      if n.Some? && m.Some? {
        if n.value != m.value {
          return if n.value < m.value then -1 else 1;
        } else if |t| != |u| {
          return if |t| < |u| then -1 else 1;
        }
      }
    }
    if t != u {
      CompareBytesIsOrder();
      LexRange(t, u);
      return if CompareBytes(t, u) < 0 then -1 else 1;
    }
    CompareBytesIsOrder();
    return 0;
  }

  method NaturalCmp(a: seq<Byte>, b: seq<Byte>) returns (r: int)
    ensures r == LfOrder()(a, b)
  {
    var i, j := 0, 0;
    while true
      invariant i <= |a| && j <= |b| && LfOrder()(a, b) == Lex(RunOrder(), Runs(a, i), Runs(b, j))
      decreases |a| - i
    {
      if i >= |a| && j >= |b| {
        return 0;
      }
      if i >= |a| {
        return -1;
      }
      if j >= |b| {
        return 1;
      }
      var e := ScanRun(a, i);
      var f := ScanRun(b, j);
      RunsHead(a, i);
      RunsHead(b, j);
      var c := CompareRuns(a[i..e], b[j..f]);
      if c != 0 {
        return c;
      }
      i, j := e, f;
    }
  }

  lemma RunsHead(s: seq<Byte>, i: nat)
    requires i < |s|
    ensures var e := RunEnd(s, i, IsDigit(s[i]));
      && i < e && Runs(s, i)[0] == s[i..e] && Runs(s, i)[1..] == Runs(s, e)
      && s[i..e] != [] && s[i..e][0] == s[i] && (IsDigit(s[i]) ==> AllDigits(s[i..e]))
      && (!IsDigit(s[i]) ==> forall k :: 0 <= k < e - i ==> !IsDigit(s[i..e][k]))
  {
  }

  // --- runs that fit -----------------------------------------------------------------------------------

  /** Every digit run stands for less than `bound`. */
  ghost predicate RunsBelow(s: seq<Byte>, bound: nat) {
    forall t :: t in Runs(s, 0) && IsNumber(t) ==> Value(t) < bound
  }

  /** A run is all digits or has none. */
  ghost predicate IsRun(t: seq<Byte>) {
    t != [] && (AllDigits(t) || forall k :: 0 <= k < |t| ==> !IsDigit(t[k]))
  }

  lemma {:induction false} RunsAreRuns(s: seq<Byte>, i: nat)
    requires i <= |s|
    ensures forall t :: t in Runs(s, i) ==> IsRun(t)
    decreases |s| - i
  {
    if i < |s| {
      RunsHead(s, i);
      RunsAreRuns(s, RunEnd(s, i, IsDigit(s[i])));
    }
  }

  // --- what the order means for the bytes ------------------------------------------------------------

  /** After `p` the name has the complete run `t` and then `s`; or it has ended. */
  ghost predicate NextRun(p: seq<Byte>, t: seq<Byte>, s: seq<Byte>) {
    if t == [] then s == []
    else
      && IsRun(t) && (p != [] ==> IsDigit(p[|p| - 1]) != IsDigit(t[0]))
      && (s != [] ==> IsDigit(s[0]) != IsDigit(t[0]))
  }

  predicate FitsInteger(t: seq<Byte>) {
    IsNumber(t) && Value(t) < LIMIT
  }

  /**
   The first run in which two names differ decides: two numbers below 2^63 by value, then the shorter one first;
   anything else by its bytes. A name that ends there comes first.
   */
  lemma FirstRunDecides(p: seq<Byte>, t: seq<Byte>, s: seq<Byte>, u: seq<Byte>, v: seq<Byte>)
    requires NextRun(p, t, s) && NextRun(p, u, v) && t != u
    ensures var r := LfOrder()(p + t + s, p + u + v);
      && (t == [] ==> r == -1) && (u == [] ==> r == 1)
      && (FitsInteger(t) && FitsInteger(u) ==>
            && (Value(t) < Value(u) ==> r == -1) && (Value(u) < Value(t) ==> r == 1)
            && (Value(t) == Value(u) ==> |t| != |u| && r == if |t| < |u| then -1 else 1))
      && (t != [] && u != [] && !(FitsInteger(t) && FitsInteger(u)) ==> r == CompareBytes(t, u) != 0)
  {
    if t != [] && u != [] {
      RunsCompared(t, u);
    }
    HeadsCompared(p, t, s, u, v);
  }

  lemma RunsCompared(t: seq<Byte>, u: seq<Byte>)
    requires IsRun(t) && IsRun(u) && t != u
    ensures var r := RunOrder()(t, u);
      if FitsInteger(t) && FitsInteger(u) then
        && (Value(t) < Value(u) ==> r == -1) && (Value(u) < Value(t) ==> r == 1)
        && (Value(t) == Value(u) ==> |t| != |u| && r == if |t| < |u| then -1 else 1)
      else r == CompareBytes(t, u) != 0
  {
    CompareBytesIsOrder();
    if FitsInteger(t) && FitsInteger(u) && |t| == |u| {
      SameLengthAsBytes(t, u);
    }
  }

  lemma HeadsCompared(p: seq<Byte>, t: seq<Byte>, s: seq<Byte>, u: seq<Byte>, v: seq<Byte>)
    requires NextRun(p, t, s) && NextRun(p, u, v) && t != u && (t != [] && u != [] ==> RunOrder()(t, u) != 0)
    ensures LfOrder()(p + t + s, p + u + v) == if t == [] then -1 else if u == [] then 1 else RunOrder()(t, u)
  {
    var a, b := p + t + s, p + u + v;
    Regroup(p, t, s);
    Regroup(p, u, v);
    SkipsRuns(p, t + s, u + v, 0);
    TailRuns(p, t, s);
    TailRuns(p, u, v);
    if t != [] && u != [] {
      LexHeads(t, Runs(a, |p + t|), u, Runs(b, |p + u|));
    }
  }

  lemma Regroup(p: seq<Byte>, t: seq<Byte>, s: seq<Byte>)
    ensures p + t + s == p + (t + s)
  {
  }

  lemma LexHeads(t: seq<Byte>, ts: seq<seq<Byte>>, u: seq<Byte>, us: seq<seq<Byte>>)
    requires RunOrder()(t, u) != 0
    ensures Lex(RunOrder(), [t] + ts, [u] + us) == RunOrder()(t, u)
  {
  }

  lemma {:induction false} RunEndsHere(s: seq<Byte>, i: nat, e: nat, digits: bool)
    requires i <= e <= |s| && (forall k :: i <= k < e ==> IsDigit(s[k]) == digits)
    requires e < |s| ==> IsDigit(s[e]) != digits
    ensures RunEnd(s, i, digits) == e
    decreases e - i
  {
    if i < e {
      RunEndsHere(s, i + 1, e, digits);
    }
  }

  lemma TailRuns(p: seq<Byte>, t: seq<Byte>, s: seq<Byte>)
    requires NextRun(p, t, s)
    ensures var a := p + t + s;
      Runs(a, |p|) == if t == [] then [] else [t] + Runs(a, |p + t|)
  {
    if t != [] {
      var a, e := p + t + s, |p + t|;
      assert forall k :: |p| <= k < e ==> a[k] == t[k - |p|];
      assert s != [] ==> a[e] == s[0];
      RunEndsHere(a, |p|, e, IsDigit(t[0]));
      assert a[|p|..e] == t;
    }
  }

  /** Up to a place where a new run starts in both, the same bytes are the same runs. */
  lemma {:induction false} SkipsRuns(p: seq<Byte>, x: seq<Byte>, y: seq<Byte>, i: nat)
    requires i <= |p|
    requires p != [] && x != [] ==> IsDigit(p[|p| - 1]) != IsDigit(x[0])
    requires p != [] && y != [] ==> IsDigit(p[|p| - 1]) != IsDigit(y[0])
    ensures Lex(RunOrder(), Runs(p + x, i), Runs(p + y, i)) == Lex(RunOrder(), Runs(p + x, |p|), Runs(p + y, |p|))
    decreases |p| - i
  {
    if i < |p| {
      var a, b, d := p + x, p + y, IsDigit(p[i]);
      var e := RunEnd(p, i, d);
      RunEndMaximal(p, i, d);
      RunEndsHere(a, i, e, d);
      RunEndsHere(b, i, e, d);
      assert a[i..e] == b[i..e];
      SameRunsTie(a[i..e], Runs(a, e), Runs(b, e));
      SkipsRuns(p, x, y, e);
    }
  }

  lemma {:induction false} RunEndMaximal(s: seq<Byte>, i: nat, digits: bool)
    requires i <= |s|
    ensures RunEnd(s, i, digits) < |s| ==> IsDigit(s[RunEnd(s, i, digits)]) != digits
    ensures i < |s| && IsDigit(s[i]) == digits ==> i < RunEnd(s, i, digits)
    decreases |s| - i
  {
    if i < |s| && IsDigit(s[i]) == digits {
      RunEndMaximal(s, i + 1, digits);
    }
  }

  lemma SameRunsTie(t: seq<Byte>, ts: seq<seq<Byte>>, us: seq<seq<Byte>>)
    ensures Lex(RunOrder(), [t] + ts, [t] + us) == Lex(RunOrder(), ts, us)
  {
    CompareBytesIsOrder();
    assert ([t] + ts)[1..] == ts && ([t] + us)[1..] == us;
  }

  lemma SameNameTies(a: seq<Byte>)
    ensures LfOrder()(a, a) == 0
  {
    assert a + [] == a;
    SkipsRuns(a, [], [], 0);
  }

  /** Any two different names have such a run. */
  lemma {:induction false} FirstRunApart(a: seq<Byte>, b: seq<Byte>, i: nat)
    returns (p: seq<Byte>, t: seq<Byte>, s: seq<Byte>, u: seq<Byte>, v: seq<Byte>)
    requires a != b && i <= |a| && i <= |b| && a[..i] == b[..i]
    requires 0 < i < |a| ==> IsDigit(a[i - 1]) != IsDigit(a[i])
    requires 0 < i < |b| ==> IsDigit(b[i - 1]) != IsDigit(b[i])
    ensures a == p + t + s && b == p + u + v && t != u && NextRun(p, t, s) && NextRun(p, u, v)
    decreases |a| - i
  {
    t, s := RunAfter(a, i);
    u, v := RunAfter(b, i);
    p := a[..i];
    if t == u {
      assert t == [] ==> a == p == b;
      assert a[..i + |t|] == p + t == b[..i + |t|];
      p, t, s, u, v := FirstRunApart(a, b, i + |t|);
    }
  }

  lemma RunAfter(a: seq<Byte>, i: nat) returns (t: seq<Byte>, s: seq<Byte>)
    requires i <= |a| && (0 < i < |a| ==> IsDigit(a[i - 1]) != IsDigit(a[i]))
    ensures a == a[..i] + t + s && NextRun(a[..i], t, s) && i + |t| <= |a| && a[i..i + |t|] == t
    ensures 0 < |t| && i + |t| < |a| ==> IsDigit(a[i + |t| - 1]) != IsDigit(a[i + |t|])
  {
    t, s := [], [];
    if i < |a| {
      var e := RunEnd(a, i, IsDigit(a[i]));
      RunEndMaximal(a, i, IsDigit(a[i]));
      t, s := a[i..e], a[e..];
      assert forall k :: 0 <= k < |t| ==> t[k] == a[i + k];
    }
  }

  function Joined(runs: seq<seq<Byte>>): seq<Byte> {
    if runs == [] then [] else runs[0] + Joined(runs[1..])
  }

  lemma {:induction false} RunsJoin(s: seq<Byte>, i: nat)
    requires i <= |s|
    ensures Joined(Runs(s, i)) == s[i..]
    decreases |s| - i
  {
    if i < |s| {
      var e := RunEnd(s, i, IsDigit(s[i]));
      RunsHead(s, i);
      RunsJoin(s, e);
      SliceJoins(s, i, e);
    }
  }

  lemma SliceJoins<X>(s: seq<X>, i: nat, e: nat)
    requires i <= e <= |s|
    ensures s[i..e] + s[e..] == s[i..]
  {
  }

  /** Before the digits, among them, or after them. */
  function Class(t: seq<Byte>): int {
    if t == [] || t[0] < 48 then 0 else if IsDigit(t[0]) then 1 else 2
  }

  function NumberOf(t: seq<Byte>): int {
    if IsNumber(t) then Value(t) else 0
  }

  function LengthOf(t: seq<Byte>): int {
    if IsNumber(t) then |t| else 0
  }

  function ByInt(f: seq<Byte> -> int): Comparator<seq<Byte>> {
    By(f, IntOrder())
  }

  /** Class, value, length, bytes: consistent on all byte strings. */
  function FitOrder(): Comparator<seq<Byte>> {
    Then(ByInt(t => Class(t)), Then(ByInt(t => NumberOf(t)), Then(ByInt(t => LengthOf(t)), LexOrder(ByteOrder()))))
  }

  lemma FitOrderIsTotal()
    ensures TotalPreorder(FitOrder()) && forall t: seq<Byte>, u: seq<Byte> :: FitOrder()(t, u) == 0 <==> t == u
  {
    CompareBytesIsOrder();
    ByIsPreorder((t: seq<Byte>) => LengthOf(t), IntOrder());
    ThenIsPreorder(ByInt(t => LengthOf(t)), LexOrder(ByteOrder()));
    ByIsPreorder((t: seq<Byte>) => NumberOf(t), IntOrder());
    ThenIsPreorder(ByInt(t => NumberOf(t)), Then(ByInt(t => LengthOf(t)), LexOrder(ByteOrder())));
    ByIsPreorder((t: seq<Byte>) => Class(t), IntOrder());
    ThenIsPreorder(ByInt(t => Class(t)),
        Then(ByInt(t => NumberOf(t)), Then(ByInt(t => LengthOf(t)), LexOrder(ByteOrder()))));
    forall t: seq<Byte>, u: seq<Byte> ensures FitOrder()(t, u) == 0 <==> t == u {
      assert CompareBytes(t, u) == 0 <==> t == u;
    }
  }

  /** On runs that fit, the code's comparison is that one. */
  lemma RunOrderFits(t: seq<Byte>, u: seq<Byte>)
    requires IsRun(t) && IsRun(u) && (IsNumber(t) ==> Value(t) < LIMIT) && (IsNumber(u) ==> Value(u) < LIMIT)
    ensures RunOrder()(t, u) == FitOrder()(t, u)
  {
    assert IsDigit(t[0]) <==> IsNumber(t);
    assert IsDigit(u[0]) <==> IsNumber(u);
    if Class(t) != Class(u) {
      assert CompareBytes(t, u) == ByNumber(t[0], u[0]) == ByNumber(Class(t), Class(u));
    }
  }

  lemma {:induction false} LexSame<X>(c: Comparator<X>, d: Comparator<X>, s: seq<X>, t: seq<X>)
    requires forall x, y :: x in s && y in t ==> c(x, y) == d(x, y)
    ensures Lex(c, s, t) == Lex(d, s, t)
  {
    if s != [] && t != [] {
      assert s[0] in s && t[0] in t;
      LexSame(c, d, s[1..], t[1..]);
    }
  }

  lemma LfOrderFits(a: seq<Byte>, b: seq<Byte>)
    requires RunsBelow(a, LIMIT) && RunsBelow(b, LIMIT)
    ensures LfOrder()(a, b) == Lex(FitOrder(), Runs(a, 0), Runs(b, 0))
  {
    RunsAreRuns(a, 0);
    RunsAreRuns(b, 0);
    forall t, u | t in Runs(a, 0) && u in Runs(b, 0) ensures RunOrder()(t, u) == FitOrder()(t, u) {
      RunOrderFits(t, u);
    }
    LexSame(RunOrder(), FitOrder(), Runs(a, 0), Runs(b, 0));
  }

  /** A strict total order at one triple: signs mirror, "not greater" chains, only equal names tie. */
  ghost predicate TotalAt(c: Comparator<seq<Byte>>, a: seq<Byte>, b: seq<Byte>, d: seq<Byte>) {
    (c(a, b) < 0 <==> c(b, a) > 0) && Chains(c, a, b, d) && (c(a, b) == 0 <==> a == b)
  }

  /** A strict total order on the names whose digit runs stay below `bound`. */
  ghost predicate TotalBelow(c: Comparator<seq<Byte>>, bound: nat) {
    forall a: seq<Byte>, b: seq<Byte>, d: seq<Byte> ::
      RunsBelow(a, bound) && RunsBelow(b, bound) && RunsBelow(d, bound) ==> TotalAt(c, a, b, d)
  }

  lemma FitsIsTotal(a: seq<Byte>, b: seq<Byte>, d: seq<Byte>)
    requires RunsBelow(a, LIMIT) && RunsBelow(b, LIMIT) && RunsBelow(d, LIMIT)
    ensures TotalAt(LfOrder(), a, b, d)
  {
    var c := FitOrder();
    FitOrderIsTotal();
    LfOrderFits(a, b);
    LfOrderFits(b, a);
    LfOrderFits(b, d);
    LfOrderFits(a, d);
    LexMirrors(c, Runs(a, 0), Runs(b, 0));
    LexChains(c, Runs(a, 0), Runs(b, 0), Runs(d, 0));
    LexSeparates(c, Runs(a, 0), Runs(b, 0));
    RunsJoin(a, 0);
    RunsJoin(b, 0);
    assert a[0..] == a && b[0..] == b;
  }

  // --- the bound is exact -----------------------------------------------------------------------------------

  const NINETY_THREE: seq<Byte> := [57, 51]
  const HUNDRED: seq<Byte> := [49, 48, 48]
  /** 9223372036854775808, that is 2^63. */
  const FIRST_OVERFLOW: seq<Byte> := [57, 50, 50, 51, 51, 55, 50, 48, 51, 54, 56, 53, 52, 55, 55, 53, 56, 48, 56]

  lemma SingleRun(t: seq<Byte>)
    requires IsNumber(t)
    ensures Runs(t, 0) == [t]
  {
    WholeRun(t, 0);
    assert t[0..|t|] == t;
  }

  lemma {:induction false} WholeRun(t: seq<Byte>, i: nat)
    requires AllDigits(t) && i <= |t|
    ensures RunEnd(t, i, true) == |t|
    decreases |t| - i
  {
    if i < |t| {
      WholeRun(t, i + 1);
    }
  }

  lemma ValueAppend(s: seq<Byte>, t: seq<Byte>, d: Byte)
    requires AllDigits(s) && IsDigit(d) && t == s + [d]
    ensures AllDigits(t) && Value(t) == 10 * Value(s) + (d - 48)
  {
    assert t[..|t| - 1] == s;
  }

  lemma SmallValues()
    ensures IsNumber(NINETY_THREE) && Value(NINETY_THREE) == 93
    ensures IsNumber(HUNDRED) && Value(HUNDRED) == 100
  {
    assert Value([57]) == 9 by { ValueAppend([], [57], 57); }
    ValueAppend([57], NINETY_THREE, 51);
    assert Value([49]) == 1 by { ValueAppend([], [49], 49); }
    ValueAppend([49], [49, 48], 48);
    ValueAppend([49, 48], HUNDRED, 48);
  }

  lemma PrefixStep(t: seq<Byte>, i: nat)
    requires AllDigits(t) && i < |t|
    ensures Value(t[..i + 1]) == 10 * Value(t[..i]) + (t[i] - 48)
  {
    ValueAppend(t[..i], t[..i + 1], t[i]);
  }

  lemma FirstTen(t: seq<Byte>)
    requires AllDigits(t) && |t| == 19
    requires t[0] == 57 && t[1] == 50 && t[2] == 50 && t[3] == 51 && t[4] == 51
    requires t[5] == 55 && t[6] == 50 && t[7] == 48 && t[8] == 51 && t[9] == 54
    ensures Value(t[..10]) == 9223372036
  {
    FirstFive(t);
    PrefixStep(t, 5); PrefixStep(t, 6); PrefixStep(t, 7); PrefixStep(t, 8); PrefixStep(t, 9);
  }

  lemma FirstFive(t: seq<Byte>)
    requires AllDigits(t) && |t| == 19 && t[0] == 57 && t[1] == 50 && t[2] == 50 && t[3] == 51 && t[4] == 51
    ensures Value(t[..5]) == 92233
  {
    PrefixStep(t, 0); PrefixStep(t, 1); PrefixStep(t, 2); PrefixStep(t, 3); PrefixStep(t, 4);
  }

  lemma LastNine(t: seq<Byte>)
    requires AllDigits(t) && |t| == 19 && Value(t[..10]) == 9223372036
    requires t[10] == 56 && t[11] == 53 && t[12] == 52 && t[13] == 55 && t[14] == 55
    requires t[15] == 53 && t[16] == 56 && t[17] == 48 && t[18] == 56
    ensures Value(t) == LIMIT
  {
    PrefixStep(t, 10); PrefixStep(t, 11); PrefixStep(t, 12); PrefixStep(t, 13); PrefixStep(t, 14);
    PrefixStep(t, 15); PrefixStep(t, 16); PrefixStep(t, 17); PrefixStep(t, 18);
    assert t[..19] == t;
  }

  lemma OverflowValue()
    ensures IsNumber(FIRST_OVERFLOW) && Value(FIRST_OVERFLOW) == LIMIT
  {
    FirstTen(FIRST_OVERFLOW);
    LastNine(FIRST_OVERFLOW);
  }

  /** 93 < 100 as numbers, 100 < 2^63 as bytes, 2^63 < 93 as bytes. */
  lemma Cycle()
    ensures LfOrder()(NINETY_THREE, HUNDRED) < 0 && LfOrder()(HUNDRED, FIRST_OVERFLOW) < 0
    ensures LfOrder()(FIRST_OVERFLOW, NINETY_THREE) < 0 && LfOrder()(NINETY_THREE, FIRST_OVERFLOW) > 0
  {
    SmallValues();
    OverflowValue();
    SingleRun(NINETY_THREE);
    SingleRun(HUNDRED);
    SingleRun(FIRST_OVERFLOW);
    var x, y, z := NINETY_THREE, HUNDRED, FIRST_OVERFLOW;
    assert CompareBytes(y, z) == -1;
    FirstDifference(ByteOrder(), z, x, 1);
    FirstDifference(ByteOrder(), x, z, 1);
    assert CompareBytes(z, x) == -1 && CompareBytes(x, z) == 1;
    LexOfSingles(x, y);
    LexOfSingles(y, z);
    LexOfSingles(z, x);
    LexOfSingles(x, z);
  }

  lemma LexOfSingles(t: seq<Byte>, u: seq<Byte>)
    ensures Lex(RunOrder(), [t], [u]) == RunOrder()(t, u)
  {
    assert [t][1..] == [] && [u][1..] == [];
  }

  lemma BelowBound(t: seq<Byte>, bound: nat)
    requires IsNumber(t) && Value(t) < bound
    ensures RunsBelow(t, bound)
  {
    SingleRun(t);
  }

  lemma BelowLess(s: seq<Byte>, bound: nat, limit: nat)
    requires RunsBelow(s, bound) && bound <= limit
    ensures RunsBelow(s, limit)
  {
  }

  /**
   natural_cmp is a strict total order on the names whose digit runs stay below a bound exactly if the bound is at most
   2^63.
   */
  lemma TotalExactlyBelow(bound: nat)
    ensures TotalBelow(LfOrder(), bound) <==> bound <= LIMIT
  {
    if bound <= LIMIT {
      forall a: seq<Byte>, b: seq<Byte>, d: seq<Byte> | RunsBelow(a, bound) && RunsBelow(b, bound)
          && RunsBelow(d, bound)
        ensures TotalAt(LfOrder(), a, b, d)
      {
        BelowLess(a, bound, LIMIT);
        BelowLess(b, bound, LIMIT);
        BelowLess(d, bound, LIMIT);
        FitsIsTotal(a, b, d);
      }
    } else {
      SmallValues();
      OverflowValue();
      BelowBound(NINETY_THREE, bound);
      BelowBound(HUNDRED, bound);
      BelowBound(FIRST_OVERFLOW, bound);
      Cycle();
      assert !TotalAt(LfOrder(), NINETY_THREE, HUNDRED, FIRST_OVERFLOW);
    }
  }

  // --- lf_name_key --------------------------------------------------------------------------------------------

  const VALUE_CAP: nat := 0x3FFF_FFFF_FFFF_FFFF      // 2^62 - 1
  const CLASS_UNIT: nat := 0x4000_0000_0000_0000     // 2^62

  function Capped(v: nat): nat {
    if v < VALUE_CAP then v else VALUE_CAP
  }

  lemma SevenBytes(t: seq<Byte>)
    ensures Packed(t, 7) < 0x100_0000_0000_0000
  {
    PackedBound(t, 7);
    assert Pow256(3) == 0x100_0000 && Pow256(5) == 0x100_0000_0000;
  }

  /** The class of the first run, then its value or its first seven bytes. */
  function NameKey(s: seq<Byte>): nat {
    if s == [] then 0
    else
      RunKey(Runs(s, 0)[0])
  }

  function RunKey(t: seq<Byte>): nat {
    if IsNumber(t) then CLASS_UNIT + (if Parsed(t).Some? then Capped(Value(t)) else VALUE_CAP)
    else Class(t) * CLASS_UNIT + Packed(t, 7)
  }

  method LfNameKey(s: seq<Byte>) returns (key: Key64)
    ensures key == NameKey(s)
  {
    if s == [] {
      return 0;
    }
    var hi := ScanRun(s, 0);
    RunsHead(s, 0);
    var token := s[0..hi];
    if IsDigit(s[0]) {
      var v := Atoi(token);
      return CLASS_UNIT + (if v.Some? then Capped(v.value) else VALUE_CAP);
    }
    var prefix: nat := 0;
    for i := 0 to 7
      invariant prefix == Packed(token, i)
    {
      prefix := prefix * 256 + Padded(token, i);
    }
    SevenBytes(token);
    return (if token[0] < 48 then 0 else 2) * CLASS_UNIT + prefix;
  }

  lemma {:induction false} FirstRunsDecide(a: seq<Byte>, b: seq<Byte>)
    requires a != [] && b != [] && RunOrder()(Runs(a, 0)[0], Runs(b, 0)[0]) < 0
    ensures LfOrder()(a, b) < 0
  {
  }

  /**
   When two names get different keys: by the class of their first runs; numbers by value up to the cap, one that does
   not parse counting as the cap; other runs by their first seven bytes.
   */
  lemma NameKeySeparates(t: seq<Byte>, s: seq<Byte>, u: seq<Byte>, v: seq<Byte>)
    requires NextRun([], t, s) && NextRun([], u, v)
    ensures t == [] ==> NameKey(t + s) == 0
    ensures t != [] && u != [] && t[0] < 48 <= u[0] ==> NameKey(t + s) < NameKey(u + v)
    ensures t != [] && u != [] && IsDigit(t[0]) && 57 < u[0] ==> NameKey(t + s) < NameKey(u + v)
    ensures IsNumber(t) && IsNumber(u) ==>
      (NameKey(t + s) < NameKey(u + v) <==> Value(t) < Value(u) && Value(t) < VALUE_CAP)
    ensures t != [] && u != [] && ((t[0] < 48 && u[0] < 48) || (57 < t[0] && 57 < u[0])) ==>
      (NameKey(t + s) < NameKey(u + v) <==> PrefixBefore(t, u, 7))
  {
    FirstRunKey(t, s);
    FirstRunKey(u, v);
    if t != [] && u != [] {
      RunKeysSeparate(t, u);
    }
  }

  lemma RunKeysSeparate(t: seq<Byte>, u: seq<Byte>)
    requires IsRun(t) && IsRun(u)
    ensures t[0] < 48 <= u[0] ==> RunKey(t) < RunKey(u)
    ensures IsDigit(t[0]) && 57 < u[0] ==> RunKey(t) < RunKey(u)
    ensures IsNumber(t) && IsNumber(u) ==> (RunKey(t) < RunKey(u) <==> Value(t) < Value(u) && Value(t) < VALUE_CAP)
    ensures (t[0] < 48 && u[0] < 48) || (57 < t[0] && 57 < u[0]) ==>
      (RunKey(t) < RunKey(u) <==> PrefixBefore(t, u, 7))
  {
    SevenBytes(t);
    SevenBytes(u);
    PackedOrders(t, u, 7);
  }

  lemma FirstRunKey(t: seq<Byte>, s: seq<Byte>)
    requires NextRun([], t, s)
    ensures NameKey(t + s) == if t == [] then 0 else RunKey(t)
  {
    TailRuns([], t, s);
    assert [] + t + s == t + s;
  }

  /** A smaller key means a smaller name, for names that fit. */
  lemma NameKeyFollows(a: seq<Byte>, b: seq<Byte>)
    requires RunsBelow(a, LIMIT) && RunsBelow(b, LIMIT) && NameKey(a) < NameKey(b)
    ensures LfOrder()(a, b) < 0
  {
    if a != [] {
      RunsHead(a, 0);
      RunsHead(b, 0);
      var t, u := Runs(a, 0)[0], Runs(b, 0)[0];
      assert t in Runs(a, 0) && u in Runs(b, 0);
      SevenBytes(t);
      SevenBytes(u);
      RunOrderFits(t, u);
      if Class(t) == Class(u) && !IsNumber(t) {
        PackedNeverContradicts(t, u, 7);
      }
      FirstRunsDecide(a, b);
    }
  }

  ghost predicate KeyAgreesAt(a: seq<Byte>, b: seq<Byte>) {
    NameKey(a) < NameKey(b) ==> LfOrder()(a, b) < 0
  }

  /** The key never contradicts the order exactly for the same bounds. */
  lemma KeyAgreesExactlyBelow(bound: nat)
    ensures (forall a: seq<Byte>, b: seq<Byte> :: RunsBelow(a, bound) && RunsBelow(b, bound) ==>
        KeyAgreesAt(a, b)) <==> bound <= LIMIT
  {
    if bound <= LIMIT {
      forall a: seq<Byte>, b: seq<Byte> | RunsBelow(a, bound) && RunsBelow(b, bound) ensures KeyAgreesAt(a, b) {
        BelowLess(a, bound, LIMIT);
        BelowLess(b, bound, LIMIT);
        if NameKey(a) < NameKey(b) {
          NameKeyFollows(a, b);
        }
      }
    } else {
      SmallValues();
      OverflowValue();
      BelowBound(NINETY_THREE, bound);
      BelowBound(FIRST_OVERFLOW, bound);
      SingleRun(NINETY_THREE);
      SingleRun(FIRST_OVERFLOW);
      Cycle();
      assert !KeyAgreesAt(NINETY_THREE, FIRST_OVERFLOW);
    }
  }
}
