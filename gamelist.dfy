/**
 * The user's game list (GameList.java): a set of games, and the selection tokens that add games to
 * it from a filtered stream or remove games from it. A token is `all`, a 1-based index, a 1-based
 * inclusive range `a-b`, or a case-insensitive name, each resolved against the candidates sorted by
 * case-insensitive name.
 */
module GameLists {
  import opened Wrappers
  import opened Strings
  import opened Games
  import opened Comparators

  /** IGameList.ADD_ALL. */
  const AddAll: string := "all"

  /** The exceptions addToList and removeFromList let through. */
  datatype SelectError =
    | EmptyInput        // "Input string cannot be empty!"
    | IndexOutOfBounds  // "Index out of bounds!"
    | InvalidRange      // "Index range!"
    | NotFound          // "Game not found!"
    | NumberFormat      // Integer.parseInt on a digit string beyond the int range
    | ListIndexFault    // List.get past the end of the shrinking copy in the range-removal loop

  /** What a token selects; positions are the 1-based numbers the user typed. */
  datatype Selector =
    | SelectAll
    | SelectIndex(position: int)
    | SelectRange(first: int, last: int)
    | SelectName(name: string)

  // ---------------------------------------------------------------------------------------------
  // Tokens

  /** The pattern `\d+-\d+`. */
  predicate IsRangeText(t: string) {
    exists i | 0 <= i < |t| :: t[i] == '-' && IsDigits(t[..i]) && IsDigits(t[i + 1..])
  }

  /** The two numerals of a range token, found at its first dash. */
  function RangeParts(t: string): Option<(string, string)> {
    match Find(t, "-")
    case None => None
    case Some(i) => if IsDigits(t[..i]) && IsDigits(t[i + 1..]) then Some((t[..i], t[i + 1..])) else None
  }

  /** A digit string holds no dash. */
  lemma NoDashInDigits(s: string)
    requires AllDigits(s)
    ensures Find(s, "-").None?
  {
    forall j | 0 <= j < |s|
      ensures !MatchAt(s, "-", j)
    {
      assert s[j..j + 1][0] == s[j];
    }
  }

  /** `RangeParts` recognises exactly `\d+-\d+`, and its parts are those of `split("-")`. */
  lemma RangePartsMatchesPattern(t: string)
    ensures RangeParts(t).Some? <==> IsRangeText(t)
    ensures RangeParts(t).Some? ==> Split(t, "-") == [RangeParts(t).value.0, RangeParts(t).value.1]
  {
    if i :| 0 <= i < |t| && t[i] == '-' && IsDigits(t[..i]) && IsDigits(t[i + 1..]) {
      forall j | 0 <= j < i
        ensures !MatchAt(t, "-", j)
      {
        assert t[..i][j] == t[j];
        assert t[j..j + 1][0] == t[j];
      }
      assert t[i..i + 1] == "-";
      FindIs(t, "-", i);
    }
    match Find(t, "-")
    case None =>
    case Some(i) =>
      if IsDigits(t[..i]) && IsDigits(t[i + 1..]) {
        assert t[i..i + 1] == "-";
        NoDashInDigits(t[i + 1..]);
        assert SplitAll(t[i + 1..], "-") == [t[i + 1..]];
        assert SplitAll(t, "-") == [t[..i], t[i + 1..]];
      }
  }

  /**
   * The token handling shared by addToList and removeFromList: blank input is refused, and the
   * trimmed, lower-cased token is read by `SelectorOf`.
   */
  function ParseSelector(token: string): (r: Result<Selector, SelectError>)
    ensures r == Failure(EmptyInput) <==> IsBlank(token)
    ensures r.Success? && r.value.SelectName? ==> r.value.name == Lower(Trim(token))
  {
    if IsBlank(token) then Failure(EmptyInput) else SelectorOf(Lower(Trim(token)))
  }

  /** A normalised token: `all`, a number, two numbers around a dash, or else a name. */
  function SelectorOf(t: string): (r: Result<Selector, SelectError>)
    ensures r != Failure(EmptyInput)
    ensures r.Success? && r.value.SelectName? ==> r.value.name == t
  {
    if t == AddAll then Success(SelectAll)
    else if IsDigits(t) then
      match ParseInt(t)
      case None => Failure(NumberFormat)
      case Some(n) => Success(SelectIndex(n))
    else
      match RangeParts(t)
      case None => Success(SelectName(t))
      case Some((first, last)) =>
        match (ParseInt(first), ParseInt(last))
        case (Some(a), Some(b)) => Success(SelectRange(a, b))
        case _ => Failure(NumberFormat)
  }

  /** Lower-casing keeps a trimmed string trimmed. */
  lemma LowerKeepsTrimmed(s: string)
    requires IsTrimmed(s)
    ensures IsTrimmed(Lower(s))
  {
  }

  /** The trimmed, lower-cased token is already trimmed. */
  lemma NormalFormIsTrimmed(token: string)
    ensures Trim(Lower(Trim(token))) == Lower(Trim(token))
  {
    LowerKeepsTrimmed(Trim(token));
  }

  /** The trimmed, lower-cased token is blank exactly when the token is. */
  lemma NormalFormKeepsBlankness(token: string)
    ensures IsBlank(Lower(Trim(token))) <==> IsBlank(token)
  {
    NormalFormIsTrimmed(token);
    assert |Lower(Trim(token))| == |Trim(token)|;
  }

  /** Normalising a normalised token changes nothing. */
  lemma NormalFormIsFixed(token: string)
    ensures Lower(Trim(Lower(Trim(token)))) == Lower(Trim(token))
  {
    NormalFormIsTrimmed(token);
    LowerIdempotent(Trim(token));
  }

  /** Tokens are read without regard to surrounding white space or letter case. */
  lemma ParseSelectorNormalises(token: string)
    ensures ParseSelector(token) == ParseSelector(Lower(Trim(token)))
  {
    NormalFormKeepsBlankness(token);
    NormalFormIsFixed(token);
  }

  /** A decimal numeral is already trimmed and lower-case. */
  lemma NumeralIsNormal(s: string)
    requires IsDigits(s)
    ensures Trim(s) == s && Lower(s) == s && !IsBlank(s)
  {
    assert IsTrimmed(s) by {
      assert IsDigit(s[0]) && IsDigit(s[|s| - 1]);
    }
    NumeralIsLower(s);
  }

  lemma NumeralIsLower(s: string)
    requires AllDigits(s)
    ensures Lower(s) == s
  {
    assert forall k | 0 <= k < |s| :: Lower(s)[k] == s[k];
  }

  /** The value of a numeral is what Integer.parseInt reads, when it fits. */
  lemma ParseDecimal(n: nat)
    requires n <= MaxInt32
    ensures ParseInt(Decimal(n)) == Some(n)
  {
  }

  /** Writing a position in decimal gives a token that selects that position. */
  lemma IndexTokenRoundTrip(n: nat)
    requires n <= MaxInt32
    ensures ParseSelector(Decimal(n)) == Success(SelectIndex(n))
  {
    NumeralIsNormal(Decimal(n));
    ParseDecimal(n);
    assert Decimal(n) != AddAll by {
      assert IsDigit(Decimal(n)[0]);
    }
  }

  /** Two numerals around a dash are already trimmed and lower-case. */
  lemma DashedNumeralsAreNormal(da: string, db: string)
    requires IsDigits(da) && IsDigits(db)
    ensures var t := da + "-" + db; Lower(Trim(t)) == t && !IsBlank(t)
  {
    var t := da + "-" + db;
    assert IsTrimmed(t);
    assert Trim(t) == t;
    assert forall k | 0 <= k < |t| :: Lower(t)[k] == t[k];
  }

  /** Two numerals around a dash are split at that dash. */
  lemma DashedNumeralsParts(da: string, db: string)
    requires IsDigits(da) && IsDigits(db)
    ensures RangeParts(da + "-" + db) == Some((da, db))
  {
    var t := da + "-" + db;
    NoDashInDigits(da);
    FindAround(da, '-', db);
    assert Find(t, "-") == Some(|da|);
    assert t[..|da|] == da && t[|da| + 1..] == db;
  }

  /** `Decimal(a) + "-" + Decimal(b)` is a range token whose parts are the two numerals. */
  lemma RangeTokenParts(a: nat, b: nat)
    ensures var t := Decimal(a) + "-" + Decimal(b);
      Lower(Trim(t)) == t && !IsBlank(t) && t != AddAll && !IsDigits(t)
      && RangeParts(t) == Some((Decimal(a), Decimal(b)))
  {
    var da, db := Decimal(a), Decimal(b);
    var t := da + "-" + db;
    DashedNumeralsAreNormal(da, db);
    DashedNumeralsParts(da, db);
    assert t[|da|] == '-';
    assert t != AddAll by {
      assert IsDigit(t[0]);
    }
  }

  /** Writing two positions around a dash gives a token that selects that range. */
  lemma RangeTokenRoundTrip(a: nat, b: nat)
    requires a <= MaxInt32 && b <= MaxInt32
    ensures ParseSelector(Decimal(a) + "-" + Decimal(b)) == Success(SelectRange(a, b))
  {
    RangeTokenParts(a, b);
    ParseDecimal(a);
    ParseDecimal(b);
  }

  /** A numeral token selects its value as a position, or fails as a number when it exceeds a Java int. */
  lemma NumeralToken(token: string)
    requires IsDigits(Lower(Trim(token)))
    ensures var t := Lower(Trim(token));
      ParseSelector(token) ==
        if DigitsValue(t) <= MaxInt32 then Success(SelectIndex(DigitsValue(t))) else Failure(NumberFormat)
  {
    var t := Lower(Trim(token));
    NormalFormKeepsBlankness(token);
    NumeralIsNormal(t);
    assert t != AddAll by {
      assert IsDigit(t[0]);
    }
  }

  /** Exactly the tokens that are not blank, not `all`, not `\d+` and not `\d+-\d+` are names. */
  lemma NameToken(token: string)
    ensures var t := Lower(Trim(token));
      !IsBlank(token) && t != AddAll && !IsDigits(t) && !IsRangeText(t) ==>
        ParseSelector(token) == Success(SelectName(t))
    ensures var t := Lower(Trim(token));
      ParseSelector(token).Success? && ParseSelector(token).value.SelectName? ==>
        !IsBlank(token) && t != AddAll && !IsDigits(t) && !IsRangeText(t)
  {
    RangePartsMatchesPattern(Lower(Trim(token)));
  }

  // ---------------------------------------------------------------------------------------------
  // Selecting among sorted candidates

  function Elements(s: seq<Game>): set<Game> {
    set g | g in s
  }

  /** Extending a slice by one position adds that position's game. */
  lemma ElementsOfLongerSlice(s: seq<Game>, lo: int, i: int)
    requires 0 <= lo <= i < |s|
    ensures Elements(s[lo..i + 1]) == Elements(s[lo..i]) + {s[i]}
  {
    assert s[lo..i + 1] == s[lo..i] + [s[i]];
  }

  /** The range check of both methods, on 1-based positions: 1 <= first <= last <= size. */
  predicate ValidRange(first: int, last: int, size: int) {
    !(first - 1 < 0 || first - 1 > last - 1 || last - 1 >= size)
  }

  /** The position of the first candidate whose lower-cased name is `name`. */
  function FirstNamedIndex(s: seq<Game>, name: string): (r: Option<nat>)
    ensures r.Some? ==> r.value < |s| && Lower(s[r.value].name) == name
    ensures r.Some? ==> forall k :: 0 <= k < r.value ==> Lower(s[k].name) != name
    ensures r.None? ==> forall k :: 0 <= k < |s| ==> Lower(s[k].name) != name
  {
    if s == [] then None
    else if Lower(s[0].name) == name then Some(0)
    else
      match FirstNamedIndex(s[1..], name)
      case None => None
      case Some(k) => Some(k + 1)
  }

  /** The games a selector picks out of the sorted candidates, or why it picks none. */
  function Pick(candidates: seq<Game>, sel: Selector): (r: Result<set<Game>, SelectError>)
    ensures r.Success? ==> r.value <= Elements(candidates)
  {
    match sel
    case SelectAll => Success(Elements(candidates))
    case SelectIndex(k) =>
      if 1 <= k <= |candidates| then Success({candidates[k - 1]}) else Failure(IndexOutOfBounds)
    case SelectRange(a, b) =>
      if ValidRange(a, b, |candidates|) then Success(Elements(candidates[a - 1..b])) else Failure(InvalidRange)
    case SelectName(n) =>
      match FirstNamedIndex(candidates, n)
      case None => Failure(NotFound)
      case Some(k) => Success({candidates[k]})
  }

  /** A range picks exactly the games that the indices inside it pick one by one. */
  lemma RangeIsUnionOfIndices(candidates: seq<Game>, a: int, b: int)
    requires ValidRange(a, b, |candidates|)
    ensures Pick(candidates, SelectRange(a, b)).Success?
    ensures forall g :: g in Pick(candidates, SelectRange(a, b)).value <==>
      exists k :: a <= k <= b && Pick(candidates, SelectIndex(k)) == Success({g})
  {
    var slice := candidates[a - 1..b];
    assert Pick(candidates, SelectRange(a, b)) == Success(Elements(slice));
    forall g
      ensures g in Elements(slice) <==> exists k :: a <= k <= b && Pick(candidates, SelectIndex(k)) == Success({g})
    {
      if g in Elements(slice) {
        var i :| 0 <= i < |slice| && slice[i] == g;
        assert Pick(candidates, SelectIndex(a + i)) == Success({g});
      }
      if k :| a <= k <= b && Pick(candidates, SelectIndex(k)) == Success({g}) {
        assert slice[k - a] == candidates[k - 1] == g;
      }
    }
  }

  /** A name selects a game with exactly that lower-cased name, the first in order; NotFound when none has it. */
  lemma NameSelectsFirstMatch(candidates: seq<Game>, name: string)
    ensures Pick(candidates, SelectName(name)).Failure? <==> forall g :: g in candidates ==> Lower(g.name) != name
    ensures Pick(candidates, SelectName(name)).Success? ==>
      exists k :: 0 <= k < |candidates| && Pick(candidates, SelectName(name)).value == {candidates[k]}
        && Lower(candidates[k].name) == name
        && forall j :: 0 <= j < k ==> Lower(candidates[j].name) != name
  {
  }

  // ---------------------------------------------------------------------------------------------
  // Adding

  /** Sorting keeps the number of candidates. */
  lemma SortKeepsLength(s: seq<Game>, column: GameData, ascending: bool)
    ensures |SortBy(s, column, ascending)| == |s|
  {
    assert |multiset(SortBy(s, column, ascending))| == |multiset(s)|;
  }

  /** Sorting keeps the candidates and their number. */
  lemma SortKeepsElements(s: seq<Game>, column: GameData, ascending: bool)
    ensures |SortBy(s, column, ascending)| == |s|
    ensures Elements(SortBy(s, column, ascending)) == Elements(s)
  {
    var sorted := SortBy(s, column, ascending);
    SortKeepsLength(s, column, ascending);
    assert forall g :: g in sorted <==> g in multiset(sorted);
    assert forall g :: g in s <==> g in multiset(s);
  }

  /**
   * GameList.addToList(token, filtered) as the new set: a parse failure is thrown, any selector adds
   * what `AddSelected` gives.
   */
  function AddSpec(games: set<Game>, token: string, filtered: seq<Game>): (r: Result<set<Game>, SelectError>)
    ensures r.Success? ==> games <= r.value <= games + Elements(filtered)
  {
    match ParseSelector(token)
    case Failure(e) => Failure(e)
    case Success(sel) => AddSelected(games, sel, filtered)
  }

  /** `all` adds every candidate; any other selector adds what it picks from the candidates in name order. */
  function AddSelected(games: set<Game>, sel: Selector, filtered: seq<Game>): (r: Result<set<Game>, SelectError>)
    ensures r.Success? ==> games <= r.value <= games + Elements(filtered)
  {
    if sel == SelectAll then Success(games + Elements(filtered))
    else
      SortKeepsElements(filtered, Name, true);
      AddPicked(games, Pick(SortBy(filtered, Name, true), sel))
  }

  /** Adds what a selector picked, or passes its exception on. */
  function AddPicked(games: set<Game>, picked: Result<set<Game>, SelectError>): (r: Result<set<Game>, SelectError>)
    ensures r.Success? <==> picked.Success?
    ensures r.Success? ==> r.value == games + picked.value
    ensures r.Failure? ==> r.error == picked.error
  {
    match picked
    case Failure(e) => Failure(e)
    case Success(p) => Success(games + p)
  }

  lemma AddSpecOfSelector(games: set<Game>, token: string, filtered: seq<Game>, sel: Selector)
    requires ParseSelector(token) == Success(sel)
    ensures AddSpec(games, token, filtered) == AddSelected(games, sel, filtered)
  {
  }

  /** `all`, in any letter case and with any padding, adds every candidate. */
  lemma AddAllInsertsEvery(games: set<Game>, token: string, filtered: seq<Game>)
    requires Lower(Trim(token)) == AddAll
    ensures AddSpec(games, token, filtered) == Success(games + Elements(filtered))
  {
    assert |Trim(token)| == 3;
  }

  /** An index k adds the k-th candidate in name order, and fails exactly when k is not in 1..n. */
  lemma AddIndexInsertsKth(games: set<Game>, token: string, filtered: seq<Game>, k: int)
    requires ParseSelector(token) == Success(SelectIndex(k))
    ensures AddSpec(games, token, filtered).Failure? <==> k < 1 || k > |filtered|
    ensures AddSpec(games, token, filtered).Success? ==>
      AddSpec(games, token, filtered).value == games + {SortBy(filtered, Name, true)[k - 1]}
  {
    AddSpecOfSelector(games, token, filtered, SelectIndex(k));
    if 1 <= k <= |filtered| {
      AddSelectedIndexIn(games, filtered, k);
    } else {
      AddSelectedIndexOut(games, filtered, k);
    }
  }

  lemma AddSelectedIndexIn(games: set<Game>, filtered: seq<Game>, k: int)
    requires 1 <= k <= |filtered|
    ensures |SortBy(filtered, Name, true)| == |filtered|
    ensures AddSelected(games, SelectIndex(k), filtered) == Success(games + {SortBy(filtered, Name, true)[k - 1]})
  {
    SortKeepsLength(filtered, Name, true);
    AddPickedIndex(games, SortBy(filtered, Name, true), k);
  }

  /** An index inside the candidates adds the game at that position. */
  lemma AddPickedIndex(games: set<Game>, candidates: seq<Game>, k: int)
    requires 1 <= k <= |candidates|
    ensures AddPicked(games, Pick(candidates, SelectIndex(k))) == Success(games + {candidates[k - 1]})
  {
  }

  lemma AddSelectedIndexOut(games: set<Game>, filtered: seq<Game>, k: int)
    requires k < 1 || k > |filtered|
    ensures AddSelected(games, SelectIndex(k), filtered) == Failure(IndexOutOfBounds)
  {
    var sorted := SortBy(filtered, Name, true);
    SortKeepsLength(filtered, Name, true);
    assert Pick(sorted, SelectIndex(k)) == Failure(IndexOutOfBounds);
  }

  /** A range a-b fails exactly when a < 1, a > b or b > n, and otherwise adds candidates a..b in name order. */
  lemma AddRangeInsertsSlice(games: set<Game>, token: string, filtered: seq<Game>, a: int, b: int)
    requires ParseSelector(token) == Success(SelectRange(a, b))
    ensures AddSpec(games, token, filtered).Failure? <==> a < 1 || a > b || b > |filtered|
    ensures AddSpec(games, token, filtered).Success? ==>
      AddSpec(games, token, filtered).value == games + Elements(SortBy(filtered, Name, true)[a - 1..b])
  {
    AddSpecOfSelector(games, token, filtered, SelectRange(a, b));
    AddSelectedRange(games, filtered, a, b);
  }

  lemma AddSelectedRange(games: set<Game>, filtered: seq<Game>, a: int, b: int)
    ensures AddSelected(games, SelectRange(a, b), filtered).Failure? <==> a < 1 || a > b || b > |filtered|
    ensures AddSelected(games, SelectRange(a, b), filtered).Success? ==>
      AddSelected(games, SelectRange(a, b), filtered).value == games + Elements(SortBy(filtered, Name, true)[a - 1..b])
  {
    var sorted := SortBy(filtered, Name, true);
    SortKeepsLength(filtered, Name, true);
    var picked := Pick(sorted, SelectRange(a, b));
    assert AddSelected(games, SelectRange(a, b), filtered) ==
      if picked.Success? then Success(games + picked.value) else Failure(picked.error);
    if ValidRange(a, b, |sorted|) {
      assert picked == Success(Elements(sorted[a - 1..b]));
    } else {
      assert picked == Failure(InvalidRange);
    }
  }

  /**
   * A name adds the first candidate in name order whose lower-cased name is the token, and fails
   * with NotFound exactly when no candidate has that name.
   */
  lemma AddNameInsertsFirstMatch(games: set<Game>, token: string, filtered: seq<Game>, name: string)
    requires ParseSelector(token) == Success(SelectName(name))
    ensures AddSpec(games, token, filtered).Failure? <==> forall g :: g in filtered ==> Lower(g.name) != name
    ensures AddSpec(games, token, filtered).Failure? ==> AddSpec(games, token, filtered) == Failure(NotFound)
    ensures AddSpec(games, token, filtered).Success? ==>
      var sorted := SortBy(filtered, Name, true);
      exists k :: 0 <= k < |sorted| && AddSpec(games, token, filtered).value == games + {sorted[k]}
        && Lower(sorted[k].name) == name
        && forall j :: 0 <= j < k ==> Lower(sorted[j].name) != name
  {
    var sorted := SortBy(filtered, Name, true);
    AddSpecOfSelector(games, token, filtered, SelectName(name));
    AddSelectedName(games, filtered, name);
    SortKeepsElements(filtered, Name, true);
    match FirstNamedIndex(sorted, name)
    case None =>
      assert AddSpec(games, token, filtered) == Failure(NotFound);
      forall g | g in filtered
        ensures Lower(g.name) != name
      {
        assert g in Elements(sorted);
      }
    case Some(k) =>
      assert AddSpec(games, token, filtered) == Success(games + {sorted[k]});
      assert sorted[k] in Elements(filtered);
  }

  lemma AddSelectedName(games: set<Game>, filtered: seq<Game>, name: string)
    ensures var sorted := SortBy(filtered, Name, true);
      AddSelected(games, SelectName(name), filtered) ==
        match FirstNamedIndex(sorted, name)
        case None => Failure(NotFound)
        case Some(k) => Success(games + {sorted[k]})
  {
    var sorted := SortBy(filtered, Name, true);
    assert Pick(sorted, SelectName(name)) ==
      match FirstNamedIndex(sorted, name)
      case None => Failure(NotFound)
      case Some(k) => Success({sorted[k]});
  }

  /** The first position holds a candidate no other candidate goes before. */
  lemma FirstPositionIsAlphabeticallyFirst(filtered: seq<Game>)
    requires |filtered| > 0
    ensures var sorted := SortBy(filtered, Name, true);
      |sorted| > 0 && sorted[0] in filtered &&
      forall h :: h in filtered ==> CaseInsensitiveCompare(sorted[0].name, h.name) <= 0
  {
    var sorted := SortBy(filtered, Name, true);
    assert filtered[0] in multiset(sorted);
    assert sorted[0] in multiset(filtered);
    forall h | h in filtered
      ensures CaseInsensitiveCompare(sorted[0].name, h.name) <= 0
    {
      assert h in multiset(sorted);
      var j :| 0 <= j < |sorted| && sorted[j] == h;
      CompareAntisymmetric(Name, true, h, h);
    }
  }

  /** Adding is idempotent: the same token over the same candidates adds nothing the second time. */
  lemma AddIdempotent(games: set<Game>, token: string, filtered: seq<Game>)
    requires AddSpec(games, token, filtered).Success?
    ensures AddSpec(AddSpec(games, token, filtered).value, token, filtered) == AddSpec(games, token, filtered)
  {
    var once := AddSpec(games, token, filtered).value;
    var sel := ParseSelector(token).value;
    if sel != SelectAll {
      var picked := Pick(SortBy(filtered, Name, true), sel).value;
      assert once == games + picked;
      assert once + picked == once;
    }
  }

  // ---------------------------------------------------------------------------------------------
  // Removing

  /** List.remove(Object): drops the first occurrence, if any. */
  function RemoveFirst(s: seq<Game>, x: Game): (r: seq<Game>)
    ensures x in s ==> |r| == |s| - 1
    ensures x !in s ==> r == s
  {
    if s == [] then []
    else if s[0] == x then s[1..]
    else [s[0]] + RemoveFirst(s[1..], x)
  }

  /**
   * The range loop of removeFromList, which removes `copy[i]` from the local copy for i = start..end;
   * None when `copy.get(i)` runs past the end of the shrinking copy.
   */
  function RemoveRangeFromCopy(copy: seq<Game>, i: int, end: int): Option<seq<Game>>
    requires 0 <= i
    decreases end - i
  {
    if i > end then Some(copy)
    else if i >= |copy| then None
    else RemoveRangeFromCopy(RemoveFirst(copy, copy[i]), i + 1, end)
  }

  /** The loop runs past the end exactly when 2 * end - start >= n: each step removes one element and advances one. */
  lemma {:induction false} RangeFaultIff(copy: seq<Game>, i: int, end: int)
    requires 0 <= i
    ensures RemoveRangeFromCopy(copy, i, end).None? <==> i <= end && 2 * end - i >= |copy|
    decreases end - i
  {
    if i <= end && i < |copy| {
      RangeFaultIff(RemoveFirst(copy, copy[i]), i + 1, end);
    }
  }

  /**
   * GameList.removeFromList(token) as written, given the sorted copy `listing` of the set: a parse
   * failure is thrown, any selector is applied by `RemoveSelected`.
   */
  function RemoveSpec(games: set<Game>, listing: seq<Game>, token: string): (r: Result<set<Game>, SelectError>)
    ensures r.Success? ==> r.value <= games
  {
    match ParseSelector(token)
    case Failure(e) => Failure(e)
    case Success(sel) => RemoveSelected(games, listing, sel)
  }

  /**
   * `all` empties the set; an index or a name removes the game it picks; a valid range removes
   * nothing from the set, and fails when its loop runs past the end of the shrinking copy.
   */
  function RemoveSelected(games: set<Game>, listing: seq<Game>, sel: Selector): (r: Result<set<Game>, SelectError>)
    ensures r.Success? ==> r.value <= games
  {
    match sel
    case SelectAll => Success({})
    case SelectRange(a, b) =>
      if !ValidRange(a, b, |listing|) then Failure(InvalidRange)
      else if RemoveRangeFromCopy(listing, a - 1, b - 1).None? then Failure(ListIndexFault)
      else Success(games)
    case _ =>
      match Pick(listing, sel)
      case Failure(e) => Failure(e)
      case Success(picked) => Success(games - picked)
  }

  /** Range removal as written: the set is never changed, and the call fails when 2b - a > n. */
  lemma RangeRemovalAsWritten(games: set<Game>, listing: seq<Game>, token: string, a: int, b: int)
    requires ParseSelector(token) == Success(SelectRange(a, b))
    ensures RemoveSpec(games, listing, token) ==
      if !ValidRange(a, b, |listing|) then Failure(InvalidRange)
      else if 2 * b - a > |listing| then Failure(ListIndexFault)
      else Success(games)
  {
    assert RemoveSpec(games, listing, token) == RemoveSelected(games, listing, SelectRange(a, b));
    RemoveSelectedRange(games, listing, a, b);
  }

  lemma RemoveSelectedRange(games: set<Game>, listing: seq<Game>, a: int, b: int)
    ensures RemoveSelected(games, listing, SelectRange(a, b)) ==
      if !ValidRange(a, b, |listing|) then Failure(InvalidRange)
      else if 2 * b - a > |listing| then Failure(ListIndexFault)
      else Success(games)
  {
    if ValidRange(a, b, |listing|) {
      RangeFaultIff(listing, a - 1, b - 1);
    }
  }

  /** Away from the range branch, removal as written is the intended removal. */
  lemma RemoveAsWrittenOffRange(games: set<Game>, listing: seq<Game>, token: string)
    requires ParseSelector(token).Success? && !ParseSelector(token).value.SelectRange?
    ensures RemoveSpec(games, listing, token) == IntendedRemoveSpec(games, listing, token)
  {
    var sel := ParseSelector(token).value;
    assert RemoveSpec(games, listing, token) == RemoveSelected(games, listing, sel);
    assert IntendedRemoveSpec(games, listing, token) == IntendedRemoveSelected(games, listing, sel);
  }

  /** `all`, in any letter case and with any padding, empties the list. */
  lemma RemoveAllEmpties(games: set<Game>, listing: seq<Game>, token: string)
    requires Lower(Trim(token)) == AddAll
    ensures RemoveSpec(games, listing, token) == Success({})
  {
    assert |Trim(token)| == 3;
  }

  /**
   * An index k removes the k-th game of the sorted copy, one game fewer, and fails with
   * IndexOutOfBounds exactly when k is not in 1..n.
   */
  lemma RemoveIndexTakesKth(games: set<Game>, listing: seq<Game>, token: string, k: int)
    requires IsSortedListing(listing, games, Name, true)
    requires ParseSelector(token) == Success(SelectIndex(k))
    ensures RemoveSpec(games, listing, token).Failure? <==> k < 1 || k > |games|
    ensures RemoveSpec(games, listing, token).Failure? ==> RemoveSpec(games, listing, token) == Failure(IndexOutOfBounds)
    ensures RemoveSpec(games, listing, token).Success? ==>
      RemoveSpec(games, listing, token).value == games - {listing[k - 1]}
      && |RemoveSpec(games, listing, token).value| == |games| - 1
  {
    ListingHoldsMembers(listing, games, Name, true);
    assert RemoveSpec(games, listing, token) == RemoveSelected(games, listing, SelectIndex(k));
    if 1 <= k <= |listing| {
      assert Pick(listing, SelectIndex(k)) == Success({listing[k - 1]});
      assert listing[k - 1] in games;
    } else {
      assert Pick(listing, SelectIndex(k)) == Failure(IndexOutOfBounds);
    }
  }

  /**
   * A name removes the first game of the sorted copy whose lower-cased name is the token, and
   * fails with NotFound exactly when no game in the list has that name.
   */
  lemma RemoveNameTakesFirstMatch(games: set<Game>, listing: seq<Game>, token: string, name: string)
    requires IsSortedListing(listing, games, Name, true)
    requires ParseSelector(token) == Success(SelectName(name))
    ensures RemoveSpec(games, listing, token).Failure? <==> forall g :: g in games ==> Lower(g.name) != name
    ensures RemoveSpec(games, listing, token).Failure? ==> RemoveSpec(games, listing, token) == Failure(NotFound)
    ensures RemoveSpec(games, listing, token).Success? ==>
      exists k :: 0 <= k < |listing| && RemoveSpec(games, listing, token).value == games - {listing[k]}
        && Lower(listing[k].name) == name
        && (forall j :: 0 <= j < k ==> Lower(listing[j].name) != name)
        && |RemoveSpec(games, listing, token).value| == |games| - 1
  {
    ListingHoldsMembers(listing, games, Name, true);
    assert RemoveSpec(games, listing, token) == RemoveSelected(games, listing, SelectName(name));
    match FirstNamedIndex(listing, name)
    case None =>
      assert Pick(listing, SelectName(name)) == Failure(NotFound);
    case Some(k) =>
      assert Pick(listing, SelectName(name)) == Success({listing[k]});
      assert listing[k] in games;
  }

  /** The tokens "1-2" and "1-3". */
  lemma SmallRangeTokens()
    ensures ParseSelector("1-2") == Success(SelectRange(1, 2))
    ensures ParseSelector("1-3") == Success(SelectRange(1, 3))
  {
    assert Decimal(1) == "1" && Decimal(2) == "2" && Decimal(3) == "3";
    assert "1-2" == Decimal(1) + "-" + Decimal(2);
    assert "1-3" == Decimal(1) + "-" + Decimal(3);
    RangeTokenRoundTrip(1, 2);
    RangeTokenRoundTrip(1, 3);
  }

  /**
   * On a list of three games, removing "1-2" succeeds and keeps all three, and removing "1-3"
   * fails with an index fault; the intended removal of "1-2" leaves one game.
   */
  lemma RangeRemovalCounterexample(games: set<Game>, listing: seq<Game>)
    requires IsSortedListing(listing, games, Name, true) && |games| == 3
    ensures RemoveSpec(games, listing, "1-2") == Success(games)
    ensures RemoveSpec(games, listing, "1-3") == Failure(ListIndexFault)
    ensures IntendedRemoveSpec(games, listing, "1-2").Success?
    ensures |IntendedRemoveSpec(games, listing, "1-2").value| == 1
  {
    ListingHoldsMembers(listing, games, Name, true);
    SmallRangeTokens();
    RangeRemovalAsWritten(games, listing, "1-2", 1, 2);
    RangeRemovalAsWritten(games, listing, "1-3", 1, 3);
    IntendedRangeRemovesSlice(games, listing, "1-2", 1, 2);
  }

  /** removeFromList as evidently intended: every selector removes exactly what it picks from the sorted copy. */
  function IntendedRemoveSpec(games: set<Game>, listing: seq<Game>, token: string): (r: Result<set<Game>, SelectError>)
    ensures r.Success? ==> r.value <= games
  {
    match ParseSelector(token)
    case Failure(e) => Failure(e)
    case Success(sel) => IntendedRemoveSelected(games, listing, sel)
  }

  /** `all` empties the set; any other selector removes what it picks from the sorted copy. */
  function IntendedRemoveSelected(games: set<Game>, listing: seq<Game>, sel: Selector): (r: Result<set<Game>, SelectError>)
    ensures r.Success? ==> r.value <= games
  {
    if sel == SelectAll then Success({})
    else
      match Pick(listing, sel)
      case Failure(e) => Failure(e)
      case Success(picked) => Success(games - picked)
  }

  /** A sorted copy of a set holds no game twice. */
  lemma ListingIsDistinct(listing: seq<Game>, games: set<Game>)
    requires multiset(listing) == multiset(games)
    ensures forall i, j :: 0 <= i < j < |listing| ==> listing[i] != listing[j]
  {
    forall i, j | 0 <= i < j < |listing|
      ensures listing[i] != listing[j]
    {
      var x := listing[j];
      assert listing == listing[..j] + [x] + listing[j + 1..];
      assert multiset(listing)[x] == multiset(listing[..j])[x] + 1 + multiset(listing[j + 1..])[x];
      assert multiset(games)[x] == 1;
      assert x !in listing[..j];
      assert listing[..j][i] == listing[i];
    }
  }

  /** Distinct games are as many as their positions. */
  lemma {:induction false} DistinctElementsCount(s: seq<Game>)
    requires forall i, j :: 0 <= i < j < |s| ==> s[i] != s[j]
    ensures |Elements(s)| == |s|
  {
    if s != [] {
      var last := s[|s| - 1];
      var front := s[..|s| - 1];
      DistinctElementsCount(front);
      assert s == front + [last];
      assert Elements(s) == Elements(front) + {last};
      assert last !in Elements(front);
    }
  }

  /** The intended range removal removes exactly the games at positions a..b, b - a + 1 of them. */
  lemma IntendedRangeRemovesSlice(games: set<Game>, listing: seq<Game>, token: string, a: int, b: int)
    requires IsSortedListing(listing, games, Name, true)
    requires ParseSelector(token) == Success(SelectRange(a, b)) && ValidRange(a, b, |listing|)
    ensures IntendedRemoveSpec(games, listing, token) == Success(games - Elements(listing[a - 1..b]))
    ensures |IntendedRemoveSpec(games, listing, token).value| == |games| - (b - a + 1)
  {
    var slice := listing[a - 1..b];
    assert IntendedRemoveSpec(games, listing, token) == IntendedRemoveSelected(games, listing, SelectRange(a, b));
    assert Pick(listing, SelectRange(a, b)) == Success(Elements(slice));
    SliceCount(games, listing, a - 1, b);
  }

  /** A slice of a sorted copy holds as many members of the set as it has positions. */
  lemma SliceCount(games: set<Game>, listing: seq<Game>, lo: int, hi: int)
    requires IsSortedListing(listing, games, Name, true) && 0 <= lo <= hi <= |listing|
    ensures Elements(listing[lo..hi]) <= games
    ensures |games - Elements(listing[lo..hi])| == |games| - (hi - lo)
  {
    var slice := listing[lo..hi];
    ListingIsDistinct(listing, games);
    assert forall i, j :: 0 <= i < j < |slice| ==> slice[i] == listing[lo + i] && slice[j] == listing[lo + j];
    DistinctElementsCount(slice);
    ListingHoldsMembers(listing, games, Name, true);
    assert Elements(slice) <= games;
  }

  /** Intended removal undoes what the same selector would add from the set's own sorted copy. */
  lemma IntendedRemoveMirrorsPick(games: set<Game>, listing: seq<Game>, token: string)
    requires IsSortedListing(listing, games, Name, true)
    requires ParseSelector(token).Success?
    ensures IntendedRemoveSpec(games, listing, token).Success? <==> Pick(listing, ParseSelector(token).value).Success?
    ensures IntendedRemoveSpec(games, listing, token).Success? ==>
      IntendedRemoveSpec(games, listing, token).value == games - Pick(listing, ParseSelector(token).value).value
  {
    ListingHoldsMembers(listing, games, Name, true);
    if ParseSelector(token).value == SelectAll {
      assert Elements(listing) == games;
    }
  }

  /** The names of a listing, in order. */
  function NamesOf(listing: seq<Game>): (r: seq<string>)
    ensures |r| == |listing|
    ensures forall i :: 0 <= i < |listing| ==> r[i] == listing[i].name
  {
    seq(|listing|, i requires 0 <= i < |listing| => listing[i].name)
  }

  /** What one add or remove call leaves and reports: the new set, or the exception and the old set. */
  predicate Applied(spec: Result<set<Game>, SelectError>, before: set<Game>, after: set<Game>, r: Outcome<SelectError>) {
    match spec
    case Success(next) => after == next && r == Pass
    case Failure(e) => after == before && r == Fail(e)
  }

  // ---------------------------------------------------------------------------------------------
  // The list

  class GameList {
    /** The games in the user's list. */
    var games: set<Game>

    constructor ()
      ensures games == {}
    {
      games := {};
    }

    /** GameList.getGameNames: the name of every member, in case-insensitive order. */
    method GameNames() returns (names: seq<string>)
      ensures |names| == |games|
      ensures forall i, j :: 0 <= i < j < |names| ==> CaseInsensitiveCompare(names[i], names[j]) <= 0
      ensures exists listing :: IsSortedListing(listing, games, Name, true) && names == NamesOf(listing)
    {
      var listing := SortedListing(games, Name, true);
      ListingHoldsMembers(listing, games, Name, true);
      names := NamesOf(listing);
    }

    /** GameList.clear. */
    method Clear()
      modifies this
      ensures games == {}
    {
      games := {};
    }

    /** GameList.count. */
    method Count() returns (n: nat)
      ensures n == |games|
    {
      n := |games|;
    }

    /** `filtered.forEach(games::add)`: adds every candidate. */
    method AddEvery(candidates: seq<Game>)
      modifies this
      ensures games == old(games) + Elements(candidates)
    {
      for i := 0 to |candidates|
        invariant games == old(games) + Elements(candidates[0..i])
      {
        ElementsOfLongerSlice(candidates, 0, i);
        games := games + {candidates[i]};
      }
      assert candidates[0..|candidates|] == candidates;
    }

    /** The range loop of addToList: adds the games at positions start..end of the sorted list. */
    method AddSlice(sorted: seq<Game>, start: int, end: int)
      requires 0 <= start <= end < |sorted|
      modifies this
      ensures games == old(games) + Elements(sorted[start..end + 1])
    {
      for i := start to end + 1
        invariant games == old(games) + Elements(sorted[start..i])
      {
        ElementsOfLongerSlice(sorted, start, i);
        games := games + {sorted[i]};
      }
    }

    /** The search loops of addToList and removeFromList: the first game whose lower-cased name is `name`. */
    static method FindNamed(sorted: seq<Game>, name: string) returns (found: bool, index: nat)
      ensures found <==> FirstNamedIndex(sorted, name).Some?
      ensures found ==> index == FirstNamedIndex(sorted, name).value
    {
      found := false;
      index := 0;
      while index < |sorted|
        invariant 0 <= index <= |sorted|
        invariant forall k :: 0 <= k < index ==> Lower(sorted[k].name) != name
      {
        if Lower(sorted[index].name) == name {
          found := true;
          break;
        }
        index := index + 1;
      }
    }

    /** The range loop of removeFromList over the local copy: whether `copy.get(i)` runs past its end. */
    static method RangeLoopOnCopy(gameList: seq<Game>, start: int, end: int) returns (fault: bool)
      requires 0 <= start
      ensures fault <==> RemoveRangeFromCopy(gameList, start, end).None?
    {
      var copy := gameList;
      var i := start;
      fault := false;
      while i <= end
        invariant start <= i && (i <= end + 1 || i == start)
        invariant RemoveRangeFromCopy(gameList, start, end) == RemoveRangeFromCopy(copy, i, end)
        decreases end - i
      {
        if i >= |copy| {
          fault := true;
          break;
        }
        copy := RemoveFirst(copy, copy[i]);
        i := i + 1;
      }
    }

    /** GameList.addToList: adds the selected candidates, or throws and leaves the set as it was. */
    method AddToList(token: string, filtered: seq<Game>) returns (r: Outcome<SelectError>)
      modifies this
      ensures Applied(AddSpec(old(games), token, filtered), old(games), games, r)
    {
      var parsed := ParseSelector(token);
      if parsed.Failure? {
        return Fail(parsed.error);
      }
      var sel := parsed.value;
      assert AddSpec(old(games), token, filtered) == AddSelected(old(games), sel, filtered);
      if sel == SelectAll {
        AddEvery(filtered);
        return Pass;
      }
      var filteredList := SortBy(filtered, Name, true);
      var picked := Pick(filteredList, sel);
      assert AddSelected(old(games), sel, filtered) ==
        if picked.Success? then Success(old(games) + picked.value) else Failure(picked.error);
      r := AddSelection(filteredList, sel);
    }

    /** The branches of addToList after the candidates are sorted, for any selector but `all`. */
    method AddSelection(filteredList: seq<Game>, sel: Selector) returns (r: Outcome<SelectError>)
      requires sel != SelectAll
      modifies this
      ensures var picked := Pick(filteredList, sel);
        Applied(if picked.Success? then Success(old(games) + picked.value) else Failure(picked.error), old(games), games, r)
    {
      match sel
      case SelectIndex(k) =>
        var index := k - 1;
        if index < 0 || index >= |filteredList| {
          return Fail(IndexOutOfBounds);
        }
        games := games + {filteredList[index]};
        return Pass;
      case SelectRange(a, b) =>
        var start, end := a - 1, b - 1;
        if start < 0 || start > end || end >= |filteredList| {
          return Fail(InvalidRange);
        }
        AddSlice(filteredList, start, end);
        return Pass;
      case SelectName(name) =>
        var found, index := FindNamed(filteredList, name);
        if !found {
          return Fail(NotFound);
        }
        games := games + {filteredList[index]};
        return Pass;
    }

    /** The branches of removeFromList after the sorted copy is made, for any selector but `all`. */
    method RemoveSelection(gameList: seq<Game>, sel: Selector) returns (r: Outcome<SelectError>)
      requires sel != SelectAll
      modifies this
      ensures Applied(RemoveSelected(old(games), gameList, sel), old(games), games, r)
    {
      match sel
      case SelectIndex(k) =>
        var index := k - 1;
        if index < 0 || index >= |gameList| {
          r := Fail(IndexOutOfBounds);
        } else {
          games := games - {gameList[index]};
          r := Pass;
        }
      case SelectRange(a, b) =>
        var start, end := a - 1, b - 1;
        if start < 0 || start > end || end >= |gameList| {
          r := Fail(InvalidRange);
        } else {
          var fault := RangeLoopOnCopy(gameList, start, end);
          r := if fault then Fail(ListIndexFault) else Pass;
        }
      case SelectName(name) =>
        var found, index := FindNamed(gameList, name);
        if found {
          games := games - {gameList[index]};
          r := Pass;
        } else {
          r := Fail(NotFound);
        }
    }

    /**
     * GameList.removeFromList: removes the selected games of the set, as written, against some
     * sorted copy of the set (the copy's order among equal names follows HashSet iteration).
     */
    method RemoveFromList(token: string) returns (r: Outcome<SelectError>)
      modifies this
      ensures exists listing ::
        (IsSortedListing(listing, old(games), Name, true) &&
         Applied(RemoveSpec(old(games), listing, token), old(games), games, r))
    {
      var parsed := ParseSelector(token);
      if parsed.Failure? {
        ListingExists(games, Name, true);
        ghost var listing :| IsSortedListing(listing, games, Name, true);
        r := Fail(parsed.error);
        assert Applied(RemoveSpec(old(games), listing, token), old(games), games, r);
        return;
      }
      var sel := parsed.value;
      if sel == SelectAll {
        ListingExists(games, Name, true);
        ghost var listing :| IsSortedListing(listing, games, Name, true);
        games := {};
        r := Pass;
        assert Applied(RemoveSpec(old(games), listing, token), old(games), games, r);
        return;
      }
      var gameList := SortedListing(games, Name, true);
      assert RemoveSpec(old(games), gameList, token) == RemoveSelected(old(games), gameList, sel);
      r := RemoveSelection(gameList, sel);
      assert Applied(RemoveSpec(old(games), gameList, token), old(games), games, r);
    }
  }
}
