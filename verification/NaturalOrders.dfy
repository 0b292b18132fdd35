/** file_browser.cpp, natural_compare: "file2" before "file10", case-insensitive, and a total order. */
module NaturalOrders {
  import opened Orders
  import opened Lexicographic
  import opened DigitRuns

  /** std::tolower in the C locale. */
  function Lower(b: Byte): Byte {
    if 65 <= b <= 90 then b + 32 else b
  }

  /** A number ranks where the digits do among the characters; all numbers rank there, by value. */
  datatype Token = Token(place: int, number: nat)

  /** Digit runs as numbers, every other byte as itself in lower case. */
  function Tokens(s: seq<Byte>, i: nat): seq<Token>
    requires i <= |s|
    decreases |s| - i
  {
    if i == |s| then []
    else if IsDigit(s[i]) then [Token(48, Value(s[i..DigitsEnd(s, i)]))] + Tokens(s, DigitsEnd(s, i))
    else [Token(Lower(s[i]), 0)] + Tokens(s, i + 1)
  }

  function Place(): Token -> int {
    (t: Token) => t.place
  }

  function Number(): Token -> int {
    (t: Token) => t.number
  }

  function TokenOrder(): Comparator<Token> {
    Then(By(Place(), IntOrder()), By(Number(), IntOrder()))
  }

  function AllTokens(): seq<Byte> -> seq<Token> {
    (s: seq<Byte>) => Tokens(s, 0)
  }

  /** Token by token; strings with the same tokens by their bytes. */
  function NaturalOrder(): Comparator<seq<Byte>> {
    Then(By(AllTokens(), LexOrder(TokenOrder())), LexOrder(ByteOrder()))
  }

  /** A total order on all byte strings: consistent, and only equal strings compare equal. */
  lemma NaturalOrderIsTotal()
    ensures TotalPreorder(NaturalOrder())
    ensures forall a: seq<Byte>, b: seq<Byte> :: NaturalOrder()(a, b) == 0 <==> a == b
  {
    ByIsPreorder(Place(), IntOrder());
    ByIsPreorder(Number(), IntOrder());
    ThenIsPreorder(By(Place(), IntOrder()), By(Number(), IntOrder()));
    LexIsPreorder(TokenOrder());
    ByIsPreorder(AllTokens(), LexOrder(TokenOrder()));
    CompareBytesIsOrder();
    ThenIsPreorder(By(AllTokens(), LexOrder(TokenOrder())), LexOrder(ByteOrder()));
    forall a: seq<Byte>, b: seq<Byte> ensures NaturalOrder()(a, b) == 0 <==> a == b {
      assert CompareBytes(a, b) == 0 <==> a == b;
      Mirrors(By(AllTokens(), LexOrder(TokenOrder())), a, a);
    }
  }

  /** What is still to be compared. */
  function Rest(a: seq<Byte>, i: nat, b: seq<Byte>, j: nat): int
    requires i <= |a| && j <= |b|
  {
    Lex(TokenOrder(), Tokens(a, i), Tokens(b, j))
  }

  lemma HeadsDecide(t: Token, ts: seq<Token>, u: Token, us: seq<Token>)
    ensures Lex(TokenOrder(), [t] + ts, [u] + us) ==
            if t.place != u.place then ByNumber(t.place, u.place)
            else if t.number != u.number then ByNumber(t.number, u.number)
            else Lex(TokenOrder(), ts, us)
  {
    assert ([t] + ts)[1..] == ts && ([u] + us)[1..] == us;
  }

  /** Where both strings have a number: the integers decide, else the rest does. */
  lemma RunsDecide(a: seq<Byte>, i: nat, b: seq<Byte>, j: nat)
    requires i < |a| && j < |b| && IsDigit(a[i]) && IsDigit(b[j])
    ensures var ei, ej := DigitsEnd(a, i), DigitsEnd(b, j);
      var v, w := Value(a[i..ei]), Value(b[j..ej]);
      Rest(a, i, b, j) == if v != w then ByNumber(v, w) else Rest(a, ei, b, ej)
  {
    var ei, ej := DigitsEnd(a, i), DigitsEnd(b, j);
    HeadsDecide(Token(48, Value(a[i..ei])), Tokens(a, ei), Token(48, Value(b[j..ej])), Tokens(b, ej));
  }

  /** Otherwise: by the lower-case characters, which differ if just one of them is a digit. */
  lemma CharactersDecide(a: seq<Byte>, i: nat, b: seq<Byte>, j: nat)
    requires i < |a| && j < |b| && !(IsDigit(a[i]) && IsDigit(b[j]))
    ensures Rest(a, i, b, j) == if Lower(a[i]) != Lower(b[j]) then ByNumber(Lower(a[i]), Lower(b[j]))
        else Rest(a, i + 1, b, j + 1)
  {
    var ta, ra := TokenAt(a, i);
    var tb, rb := TokenAt(b, j);
    HeadsDecide(ta, ra, tb, rb);
  }

  lemma TokenAt(s: seq<Byte>, i: nat) returns (t: Token, rest: seq<Token>)
    requires i < |s|
    ensures Tokens(s, i) == [t] + rest
    ensures if IsDigit(s[i]) then t.place == 48 else t == Token(Lower(s[i]), 0) && rest == Tokens(s, i + 1)
  {
    if IsDigit(s[i]) {
      t, rest := Token(48, Value(s[i..DigitsEnd(s, i)])), Tokens(s, DigitsEnd(s, i));
    } else {
      t, rest := Token(Lower(s[i]), 0), Tokens(s, i + 1);
    }
  }

  /** After the same beginning, digit runs of any length compare by the integers they stand for. */
  lemma NumbersByValue(p: seq<Byte>, x: seq<Byte>, y: seq<Byte>)
    requires (p == [] || !IsDigit(p[|p| - 1])) && x != [] && y != [] && AllDigits(x) && AllDigits(y)
    requires Value(x) != Value(y)
    ensures NaturalOrder()(p + x, p + y) == ByNumber(Value(x), Value(y))
  {
    var a, b := p + x, p + y;
    SkipsCommon(p, x, y, 0);
    RunEndsAt(a, |p|, |a|);
    RunEndsAt(b, |p|, |b|);
    assert a[|p|..|a|] == x && b[|p|..|b|] == y;
    RunsDecide(a, |p|, b, |p|);
  }

  lemma {:induction false} SkipsCommon(p: seq<Byte>, x: seq<Byte>, y: seq<Byte>, i: nat)
    requires i <= |p| && (p == [] || !IsDigit(p[|p| - 1]))
    ensures Rest(p + x, i, p + y, i) == Rest(p + x, |p|, p + y, |p|)
    decreases |p| - i
  {
    var a, b := p + x, p + y;
    if i < |p| {
      if IsDigit(p[i]) {
        var e := DigitsEnd(p, i);
        assert forall k :: i <= k < e ==> IsDigit(p[i..e][k - i]) && p[i..e][k - i] == p[k];
        assert e < |p|;
        RunEndsAt(a, i, e);
        RunEndsAt(b, i, e);
        assert a[i..e] == b[i..e];
        RunsDecide(a, i, b, i);
        SkipsCommon(p, x, y, e);
      } else {
        CharactersDecide(a, i, b, i);
        SkipsCommon(p, x, y, i + 1);
      }
    }
  }

  // --- what the order means for the bytes ------------------------------------------------------

  /** The same byte, or an upper-case letter (65 to 90) and its lower-case form 32 above. */
  predicate SameLetter(x: Byte, y: Byte) {
    x == y || (65 <= x <= 90 && y == x + 32) || (65 <= y <= 90 && x == y + 32)
  }

  /** By number, upper-case letters counting as their lower-case forms. */
  predicate LetterBefore(x: Byte, y: Byte) {
    (if 65 <= x <= 90 then x + 32 else x) < (if 65 <= y <= 90 then y + 32 else y)
  }

  /** From `i` and `j` up to `e` and `f`: digit runs of equal value, else bytes equal up to the case of letters. */
  ghost predicate Alike(a: seq<Byte>, i: nat, e: nat, b: seq<Byte>, j: nat, f: nat)
    decreases |a| - i
  {
    && i <= e <= |a| && j <= f <= |b|
    && if i == e || j == f then i == e && j == f
       else if IsDigit(a[i]) && IsDigit(b[j]) then
         && Value(a[i..DigitsEnd(a, i)]) == Value(b[j..DigitsEnd(b, j)])
         && Alike(a, DigitsEnd(a, i), e, b, DigitsEnd(b, j), f)
       else SameLetter(a[i], b[j]) && Alike(a, i + 1, e, b, j + 1, f)
  }

  lemma {:induction false} AlikeSkips(a: seq<Byte>, i: nat, e: nat, b: seq<Byte>, j: nat, f: nat)
    requires Alike(a, i, e, b, j, f)
    ensures Rest(a, i, b, j) == Rest(a, e, b, f)
    decreases |a| - i
  {
    if i < e && j < f {
      if IsDigit(a[i]) && IsDigit(b[j]) {
        RunsDecide(a, i, b, j);
        AlikeSkips(a, DigitsEnd(a, i), e, b, DigitsEnd(b, j), f);
      } else {
        CharactersDecide(a, i, b, j);
        AlikeSkips(a, i + 1, e, b, j + 1, f);
      }
    }
  }

  /**
   The first place where two strings are no longer alike decides: two numbers by value, any other bytes regardless of
   case, and a string that ends there comes first. Strings alike to their ends compare as their bytes do.
   */
  lemma FirstPlaceDecides(a: seq<Byte>, e: nat, b: seq<Byte>, f: nat)
    requires Alike(a, 0, e, b, 0, f)
    ensures e == |a| && f == |b| ==> NaturalOrder()(a, b) == CompareBytes(a, b)
    ensures e == |a| && f < |b| ==> NaturalOrder()(a, b) == -1
    ensures e < |a| && f == |b| ==> NaturalOrder()(a, b) == 1
    ensures e < |a| && f < |b| && IsDigit(a[e]) && IsDigit(b[f]) ==>
        var v, w := Value(a[e..DigitsEnd(a, e)]), Value(b[f..DigitsEnd(b, f)]);
        (v < w ==> NaturalOrder()(a, b) == -1) && (v > w ==> NaturalOrder()(a, b) == 1)
    ensures e < |a| && f < |b| && !(IsDigit(a[e]) && IsDigit(b[f])) ==>
        (LetterBefore(a[e], b[f]) ==> NaturalOrder()(a, b) == -1)
        && (LetterBefore(b[f], a[e]) ==> NaturalOrder()(a, b) == 1)
  {
    AlikeSkips(a, 0, e, b, 0, f);
    if e < |a| && f < |b| {
      if IsDigit(a[e]) && IsDigit(b[f]) {
        RunsDecide(a, e, b, f);
      } else {
        CharactersDecide(a, e, b, f);
      }
    } else if e < |a| || f < |b| {
      LeftoverDecides(a, e, b, f);
    }
  }

  /** Every two strings have such a place: they are alike to it, and not across it. */
  lemma {:induction false} FirstPlace(a: seq<Byte>, i: nat, b: seq<Byte>, j: nat) returns (e: nat, f: nat)
    requires i <= |a| && j <= |b|
    ensures Alike(a, i, e, b, j, f)
    ensures e < |a| && f < |b| ==>
        if IsDigit(a[e]) && IsDigit(b[f])
        then Value(a[e..DigitsEnd(a, e)]) != Value(b[f..DigitsEnd(b, f)])
        else LetterBefore(a[e], b[f]) || LetterBefore(b[f], a[e])
    decreases |a| - i
  {
    e, f := i, j;
    if i < |a| && j < |b| {
      if IsDigit(a[i]) && IsDigit(b[j]) {
        if Value(a[i..DigitsEnd(a, i)]) == Value(b[j..DigitsEnd(b, j)]) {
          e, f := FirstPlace(a, DigitsEnd(a, i), b, DigitsEnd(b, j));
        }
      } else if SameLetter(a[i], b[j]) {
        e, f := FirstPlace(a, i + 1, b, j + 1);
      }
    }
  }

  /** Strings that differ in nothing but the case of letters compare as their bytes do. */
  lemma CaseAlone(a: seq<Byte>, b: seq<Byte>)
    requires |a| == |b| && forall k :: 0 <= k < |a| ==> SameLetter(a[k], b[k])
    ensures NaturalOrder()(a, b) == CompareBytes(a, b)
  {
    SameLettersAlike(a, b, 0);
    FirstPlaceDecides(a, |a|, b, |b|);
  }

  lemma {:induction false} SameLettersAlike(a: seq<Byte>, b: seq<Byte>, i: nat)
    requires i <= |a| == |b| && forall k :: 0 <= k < |a| ==> SameLetter(a[k], b[k])
    ensures Alike(a, i, |a|, b, i, |b|)
    decreases |a| - i
  {
    if i < |a| {
      if IsDigit(a[i]) && IsDigit(b[i]) {
        var e := DigitsEnd(a, i);
        assert forall k :: i <= k < e ==> IsDigit(a[i..e][k - i]) && a[i..e][k - i] == a[k];
        RunEndsAt(b, i, e);
        assert a[i..e] == b[i..e];
        SameLettersAlike(a, b, e);
      } else {
        SameLettersAlike(a, b, i + 1);
      }
    }
  }

  // --- the loop ----------------------------------------------------------------------------------

  /** Skips leading zeros, then the other digits. */
  method ScanRun(s: seq<Byte>, i: nat) returns (start: nat, end: nat)
    requires i < |s| && IsDigit(s[i])
    ensures i <= start <= end <= |s| && end == DigitsEnd(s, i) && i < end
    ensures AllDigits(s[start..end]) && Stripped(s[start..end]) && AllDigits(s[i..end])
    ensures Value(s[start..end]) == Value(s[i..end])
  {
    start := i;
    while start < |s| && s[start] == 48
      invariant i <= start <= |s| && forall k :: i <= k < start ==> s[k] == 48
    {
      start := start + 1;
    }
    end := start;
    while end < |s| && IsDigit(s[end])
      invariant start <= end <= |s| && (forall k :: start <= k < end ==> IsDigit(s[k]))
    {
      end := end + 1;
    }
    RunEndsAt(s, i, end);
    LeadingZeros(s[i..end], start - i);
    assert s[i..end][start - i..] == s[start..end];
  }

  /** The loop over both strings; decides exactly as the order above. */
  method NaturalCompare(a: seq<Byte>, b: seq<Byte>) returns (r: int)
    ensures r == NaturalOrder()(a, b)
  {
    var i, j := 0, 0;
    while i < |a| && j < |b|
      invariant i <= |a| && j <= |b| && Rest(a, 0, b, 0) == Rest(a, i, b, j)
      decreases |a| - i + |b| - j
    {
      if IsDigit(a[i]) && IsDigit(b[j]) {
        var si, ei := ScanRun(a, i);
        var sj, ej := ScanRun(b, j);
        RunsDecide(a, i, b, j);
        ComparedByValue(a[si..ei], b[sj..ej]);
        if ei - si != ej - sj {
          return if ei - si < ej - sj then -1 else 1;
        }
        var c := CompareBytes(a[si..ei], b[sj..ej]);
        if c != 0 {
          return if c < 0 then -1 else 1;
        }
        i, j := ei, ej;
      } else {
        CharactersDecide(a, i, b, j);
        var ca, cb := Lower(a[i]), Lower(b[j]);
        if ca != cb {
          return if ca < cb then -1 else 1;
        }
        i, j := i + 1, j + 1;
      }
    }
    if |a| - i != |b| - j {
      LeftoverDecides(a, i, b, j);
      return if |a| - i < |b| - j then -1 else 1;
    }
    r := CompareBytes(a, b);
  }

  /** When one string is used up, the other one is the longer. */
  lemma LeftoverDecides(a: seq<Byte>, i: nat, b: seq<Byte>, j: nat)
    requires i <= |a| && j <= |b| && (i == |a| || j == |b|) && |a| - i != |b| - j
    ensures Rest(a, i, b, j) == if |a| - i < |b| - j then -1 else 1
  {
    if i < |a| {
      var t, rest := TokenAt(a, i);
    } else {
      var t, rest := TokenAt(b, j);
    }
  }
}
