/**
 * The java.lang.String and java.lang.Integer operations the planner relies on, restricted to
 * ASCII text: lower-casing, trim, substring search, Integer.parseInt and String.split with a
 * literal separator.
 */
module Strings {
  import opened Wrappers

  const MinInt32: int := -0x8000_0000
  const MaxInt32: int := 0x7fff_ffff

  /** A Java `int`. */
  type Int32 = x: int | MinInt32 <= x <= MaxInt32

  // ---------------------------------------------------------------------------------------------
  // Case

  /** String.toLowerCase on one ASCII character. */
  function LowerChar(c: char): char {
    if 'A' <= c <= 'Z' then (c as int - 'A' as int + 'a' as int) as char else c
  }

  /** String.toLowerCase, ASCII only. */
  function Lower(s: string): string {
    seq(|s|, i requires 0 <= i < |s| => LowerChar(s[i]))
  }

  lemma LowerAppend(a: string, b: string)
    ensures Lower(a + b) == Lower(a) + Lower(b)
  {
    assert forall i | 0 <= i < |a + b| :: Lower(a + b)[i] == (Lower(a) + Lower(b))[i];
  }

  /** Lower-casing twice is lower-casing once. */
  lemma LowerIdempotent(s: string)
    ensures Lower(Lower(s)) == Lower(s)
  {
    assert forall i | 0 <= i < |s| :: Lower(Lower(s))[i] == Lower(s)[i];
  }

  // ---------------------------------------------------------------------------------------------
  // Trim: String.trim removes every leading and trailing character whose code is at most U+0020.

  predicate IsTrimmable(c: char) {
    c <= ' '
  }

  /** A string that `Trim` leaves as it is. */
  predicate IsTrimmed(s: string) {
    s == [] || (!IsTrimmable(s[0]) && !IsTrimmable(s[|s| - 1]))
  }

  function TrimStart(s: string): (r: string)
    ensures |r| <= |s| && r == s[|s| - |r|..]
    ensures r == [] || !IsTrimmable(r[0])
    ensures forall k :: 0 <= k < |s| - |r| ==> IsTrimmable(s[k])
    decreases |s|
  {
    if |s| > 0 && IsTrimmable(s[0]) then TrimStart(s[1..]) else s
  }

  function TrimEnd(s: string): (r: string)
    ensures |r| <= |s| && r == s[..|r|]
    ensures r == [] || !IsTrimmable(r[|r| - 1])
    ensures forall k :: |r| <= k < |s| ==> IsTrimmable(s[k])
    decreases |s|
  {
    if |s| > 0 && IsTrimmable(s[|s| - 1]) then TrimEnd(s[..|s| - 1]) else s
  }

  /**
   * String.trim: the result is a trimmed slice of the input, everything cut from either end is
   * blank, and a trimmed input is kept whole.
   */
  function Trim(s: string): (r: string)
    ensures IsTrimmed(r)
    ensures exists i, j ::
      (0 <= i <= j <= |s| && r == s[i..j]
       && (forall k :: 0 <= k < i ==> IsTrimmable(s[k]))
       && (forall k :: j <= k < |s| ==> IsTrimmable(s[k])))
    ensures IsTrimmed(s) ==> r == s
  {
    var i := |s| - |TrimStart(s)|;
    var r := TrimEnd(TrimStart(s));
    assert r == s[i..i + |r|];
    r
  }

  /** `s.trim().isEmpty()`. */
  predicate IsBlank(s: string) {
    Trim(s) == []
  }

  // ---------------------------------------------------------------------------------------------
  // Substrings

  /** `tok` occurs in `s` starting at index `j`. */
  predicate MatchAt(s: string, tok: string, j: int) {
    0 <= j && j + |tok| <= |s| && s[j..j + |tok|] == tok
  }

  /** String.contains. */
  predicate Contains(s: string, t: string) {
    exists j | 0 <= j <= |s| :: MatchAt(s, t, j)
  }

  /** The first index at which `tok` occurs in `s` (the leftmost match of a literal pattern). */
  function Find(s: string, tok: string): (r: Option<nat>)
    requires |tok| > 0
    ensures r.Some? ==> MatchAt(s, tok, r.value)
    ensures r.Some? ==> forall j :: 0 <= j < r.value ==> !MatchAt(s, tok, j)
    ensures r.None? ==> forall j :: !MatchAt(s, tok, j)
    decreases |s|
  {
    if |s| < |tok| then None
    else if s[..|tok|] == tok then Some(0)
    else
      MatchAtTail(s, tok);
      match Find(s[1..], tok)
      case None => None
      case Some(i) => Some(i + 1)
  }

  /** A match past the first index is a match in the tail, one index earlier. */
  lemma MatchAtTail(s: string, tok: string)
    requires |s| > 0
    ensures forall j :: j > 0 ==> (MatchAt(s, tok, j) <==> MatchAt(s[1..], tok, j - 1))
  {
    forall j | j > 0
      ensures MatchAt(s, tok, j) <==> MatchAt(s[1..], tok, j - 1)
    {
      if j + |tok| <= |s| {
        assert s[1..][j - 1..j - 1 + |tok|] == s[j..j + |tok|];
      }
    }
  }

  /** The first-match property pins `Find` down. */
  lemma FindIs(s: string, tok: string, k: nat)
    requires |tok| > 0 && MatchAt(s, tok, k)
    requires forall j :: 0 <= j < k ==> !MatchAt(s, tok, j)
    ensures Find(s, tok) == Some(k)
  {
  }

  // ---------------------------------------------------------------------------------------------
  // Split

  /** Every piece between occurrences of `tok`, empty pieces included. */
  function SplitAll(s: string, tok: string): (r: seq<string>)
    requires |tok| > 0
    ensures |r| > 0
    decreases |s|
  {
    match Find(s, tok)
    case None => [s]
    case Some(i) => [s[..i]] + SplitAll(s[i + |tok|..], tok)
  }

  function DropTrailingEmpty(pieces: seq<string>): (r: seq<string>)
    ensures |r| <= |pieces| && r == pieces[..|r|]
    ensures r == [] || r[|r| - 1] != []
    ensures forall k :: |r| <= k < |pieces| ==> pieces[k] == []
  {
    if |pieces| > 0 && pieces[|pieces| - 1] == [] then DropTrailingEmpty(pieces[..|pieces| - 1])
    else pieces
  }

  /**
   * String.split(tok) for a pattern that matches only the literal `tok`: without a match the result
   * is the whole string; otherwise the pieces between matches, trailing empty pieces removed.
   */
  function Split(s: string, tok: string): seq<string>
    requires |tok| > 0
  {
    if Find(s, tok).None? then [s] else DropTrailingEmpty(SplitAll(s, tok))
  }

  /** String.join: the inverse of `SplitAll`. */
  function Join(pieces: seq<string>, tok: string): string {
    if |pieces| == 0 then []
    else if |pieces| == 1 then pieces[0]
    else pieces[0] + tok + Join(pieces[1..], tok)
  }

  /** Joining the pieces back with the separator restores the string. */
  lemma {:induction false} JoinSplitAll(s: string, tok: string)
    requires |tok| > 0
    ensures Join(SplitAll(s, tok), tok) == s
    decreases |s|
  {
    match Find(s, tok)
    case None =>
    case Some(i) =>
      var rest := s[i + |tok|..];
      JoinSplitAll(rest, tok);
      assert s == s[..i] + tok + rest;
  }

  /** No piece of a split contains the separator. */
  lemma {:induction false} SplitAllPiecesAreTokenFree(s: string, tok: string)
    requires |tok| > 0
    ensures forall k :: 0 <= k < |SplitAll(s, tok)| ==> !Contains(SplitAll(s, tok)[k], tok)
    decreases |s|
  {
    match Find(s, tok)
    case None =>
    case Some(i) =>
      var rest := s[i + |tok|..];
      SplitAllPiecesAreTokenFree(rest, tok);
      forall j | MatchAt(s[..i], tok, j)
        ensures false
      {
        assert s[..i][j..j + |tok|] == s[j..j + |tok|];
        assert MatchAt(s, tok, j);
      }
  }

  /** Around a one-character separator, the first match lies in the left part or is the separator. */
  lemma FindAround(a: string, c: char, b: string)
    ensures Find(a, [c]).None? ==> Find(a + [c] + b, [c]) == Some(|a|)
    ensures Find(a, [c]).Some? ==> Find(a + [c] + b, [c]) == Find(a, [c])
  {
    var s := a + [c] + b;
    forall j | 0 <= j < |a|
      ensures MatchAt(s, [c], j) <==> MatchAt(a, [c], j)
    {
      assert s[j..j + 1] == [s[j]] && a[j..j + 1] == [a[j]];
    }
    match Find(a, [c])
    case None =>
      assert s[|a|..|a| + 1] == [c];
      FindIs(s, [c], |a|);
    case Some(i) =>
      FindIs(s, [c], i);
  }

  /** One step of `SplitAll` at the first match. */
  lemma SplitAllAt(s: string, tok: string, i: nat)
    requires |tok| > 0 && Find(s, tok) == Some(i)
    ensures SplitAll(s, tok) == [s[..i]] + SplitAll(s[i + |tok|..], tok)
  {
    var rest := s[i + |tok|..];
    assert SplitAll(s, tok) == [s[..i]] + SplitAll(rest, tok);
  }

  /** Splitting on a one-character separator distributes over a join at that separator. */
  lemma {:induction false} SplitAllAround(a: string, c: char, b: string)
    ensures SplitAll(a + [c] + b, [c]) == SplitAll(a, [c]) + SplitAll(b, [c])
    decreases |a|
  {
    FindAround(a, c, b);
    if Find(a, [c]).None? {
      SplitAllAroundFirst(a, c, b);
    } else {
      var i := Find(a, [c]).value;
      var a' := a[i + 1..];
      SplitAllAroundLater(a, c, b, i);
      SplitAllAround(a', c, b);
      var head, x, y := [a[..i]], SplitAll(a', [c]), SplitAll(b, [c]);
      assert head + (x + y) == (head + x) + y;
    }
  }

  /** The separator itself is the first match. */
  lemma SplitAllAroundFirst(a: string, c: char, b: string)
    requires Find(a, [c]).None? && Find(a + [c] + b, [c]) == Some(|a|)
    ensures SplitAll(a + [c] + b, [c]) == SplitAll(a, [c]) + SplitAll(b, [c])
  {
    var s := a + [c] + b;
    SplitAllAt(s, [c], |a|);
    assert s[..|a|] == a && s[|a| + 1..] == b;
    assert SplitAll(a, [c]) == [a];
  }

  /** A match inside the left part comes first, and the split continues after it. */
  lemma SplitAllAroundLater(a: string, c: char, b: string, i: nat)
    requires Find(a, [c]) == Some(i) && Find(a + [c] + b, [c]) == Some(i)
    ensures SplitAll(a + [c] + b, [c]) == [a[..i]] + SplitAll(a[i + 1..] + [c] + b, [c])
    ensures SplitAll(a, [c]) == [a[..i]] + SplitAll(a[i + 1..], [c])
  {
    var s := a + [c] + b;
    SplitAllAt(s, [c], i);
    SplitAllAt(a, [c], i);
    assert s[..i] == a[..i];
    assert s[i + 1..] == a[i + 1..] + [c] + b;
  }

  // ---------------------------------------------------------------------------------------------
  // Decimal integers

  predicate IsDigit(c: char) {
    '0' <= c <= '9'
  }

  predicate AllDigits(s: string) {
    forall i :: 0 <= i < |s| ==> IsDigit(s[i])
  }

  /** The pattern `\d+`. */
  predicate IsDigits(s: string) {
    |s| > 0 && AllDigits(s)
  }

  function DigitsValue(s: string): nat
    requires AllDigits(s)
  {
    if |s| == 0 then 0 else 10 * DigitsValue(s[..|s| - 1]) + (s[|s| - 1] as int - '0' as int)
  }

  /** The shortest decimal numeral of `n`. */
  function Decimal(n: nat): (r: string)
    ensures IsDigits(r) && DigitsValue(r) == n
    ensures r[0] != '-' && r[0] != '+'
  {
    var last := [(n % 10 + '0' as int) as char];
    if n < 10 then last
    else
      var r := Decimal(n / 10) + last;
      assert r[..|r| - 1] == Decimal(n / 10);
      r
  }

  /**
   * Integer.parseInt(s, 10): an optional sign followed by at least one digit, whose value fits in
   * a Java int. Anything else throws NumberFormatException, modelled as None.
   */
  function ParseInt(s: string): (r: Option<Int32>)
    ensures r.Some? ==> IsDigits(s) || (|s| > 1 && (s[0] == '-' || s[0] == '+') && IsDigits(s[1..]))
    ensures IsDigits(s) ==> r == if DigitsValue(s) <= MaxInt32 then Some(DigitsValue(s)) else None
    ensures |s| > 1 && s[0] == '+' && IsDigits(s[1..]) ==>
      r == if DigitsValue(s[1..]) <= MaxInt32 then Some(DigitsValue(s[1..])) else None
    ensures |s| > 1 && s[0] == '-' && IsDigits(s[1..]) ==>
      if DigitsValue(s[1..]) <= -MinInt32 then r.Some? && r.value == -(DigitsValue(s[1..]) as int) else r.None?
  {
    if |s| > 0 && (s[0] == '-' || s[0] == '+') then
      var digits := s[1..];
      if !IsDigits(digits) then None
      else
        var magnitude: int := DigitsValue(digits);
        if s[0] == '-' && magnitude <= -MinInt32 then Some(-magnitude)
        else if s[0] == '+' && magnitude <= MaxInt32 then Some(magnitude)
        else None
    else if IsDigits(s) && DigitsValue(s) <= MaxInt32 then Some(DigitsValue(s))
    else None
  }

  /** Integer.toString: its partner for the round trip. */
  function FormatInt(n: Int32): string {
    if n < 0 then "-" + Decimal(-(n as int)) else Decimal(n)
  }

  /** Every Java int written in decimal parses back to itself. */
  lemma ParseFormattedInt(n: Int32)
    ensures ParseInt(FormatInt(n)) == Some(n)
  {
    if n < 0 {
      var digits := Decimal(-(n as int));
      assert FormatInt(n)[1..] == digits;
      assert FormatInt(n)[0] == '-';
    } else {
      assert FormatInt(n) == Decimal(n);
    }
  }

  /** A string that holds a letter never parses. */
  lemma ParseIntRejectsLetter(s: string, k: nat)
    requires k < |s| && ('a' <= s[k] <= 'z' || 'A' <= s[k] <= 'Z')
    ensures ParseInt(s) == None
  {
    if |s| > 0 && (s[0] == '-' || s[0] == '+') {
      assert k > 0 && s[1..][k - 1] == s[k];
    }
  }
}
