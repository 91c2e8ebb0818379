# Board-game planner: filter, sort and selection engine

This project models the core of a board-game planner written in Java. The planner holds a fixed
catalog of board games and a current filtered subset. A user narrows that subset with
comma-separated filter expressions such as `minPlayers >= 2, name ~= go` and gets it back sorted
by a chosen column and direction. Separately, the user keeps a personal game list. Games are added
to it from a filtered stream, or removed from it, by a selection token: `all`, a 1-based index, a
1-based inclusive range `a-b`, or a case-insensitive name.

The model is split into these modules:

- `Strings` (`text.dfy`): the `java.lang.String` and `Integer` behaviour the planner relies on,
  restricted to ASCII. It covers `toLowerCase`, `trim`, `contains`, `split` with a literal
  separator and `Integer.parseInt` with its 32-bit range. `Join` is the partner of the split, and
  `FormatInt` is the partner of the parse.
- `Games` (`games.dfy`): the game record, the column enumeration `GameData` and the operator
  enumeration `Operations`.
- `Filters` (`filters.dfy`): `Filter.createFilter` and the two predicate strategies that are
  modelled, `IntFilter` and `StringFilter`. A filter is a datatype value, and `Accepts` is the
  predicate it builds, applied to one game.
- `Comparators` (`comparators.dfy`): `GameComparator.createComparator` as a three-way compare
  function, its ordering laws, and the stable sort the planner and the list apply with it.
- `Planning` (`planner.dfy`): expression parsing and the `Planner` class, with its `allGames`
  and `filteredGames` sets. Each operation is proved against specification functions
  (`Clauses`, `Narrowed`, `NextFiltered`).
- `GameLists` (`gamelist.dfy`): token parsing, selection among sorted candidates, and the
  `GameList` class that owns the set of chosen games. `addToList` and `removeFromList` are proved
  against `AddSpec` and `RemoveSpec`.

Code this model cannot see is passed in as a parameter. This covers `GameData.fromString`,
`Operations.getOperatorFromStr`, `Operations.getOperator` and the double-valued predicate: they
are the function-valued fields of `Planning.Env`.

A Java exception is a `Failure` value, and the methods that throw leave their state unchanged.
A column that the factories' switches do not name is the constructor `GameData.Unlisted`.
`createFilter` throws for such a column. `parseSingleFilter` does not catch that exception, so
`Planner.filter` fails with it.

## Model

| member | source | states |
|---|---|---|
| `Strings.Trim` | src/main/java/student/Planner.java:68-74 | `trim` returns a slice of its input with no blank character at either end; everything it cuts from either end is blank (code at most U+0020), and a trimmed input is kept whole |
| `Strings.Find` | src/main/java/student/Planner.java:135 | the separator search finds the first index where the token occurs, and none exactly when it does not occur |
| `Strings.JoinSplitAll` | src/main/java/student/Planner.java:108 | splitting on a separator and joining the pieces with it gives back the original text |
| `Strings.SplitAllPiecesAreTokenFree` | src/main/java/student/Planner.java:135 | no piece of a split contains the separator |
| `Strings.SplitAllAround` | src/main/java/student/Planner.java:108 | splitting `a,b` on commas gives the pieces of `a` followed by those of `b` |
| `Strings.ParseInt` | src/main/java/student/filter/IntFilter.java:34 | `Integer.parseInt` accepts only an optional sign followed by digits; a numeral, signed or not, yields its value exactly when that value fits in a Java int, and fails otherwise |
| `Strings.ParseFormattedInt` | src/main/java/student/filter/IntFilter.java:34 | every Java int written in decimal parses back to itself |
| `Strings.ParseIntRejectsLetter` | src/main/java/student/filter/IntFilter.java:78-80 | a value holding a letter never parses as an int |
| `Filters.CreateFilter` | src/main/java/student/filter/Filter.java:70-87 | NAME gets the string strategy, RATING and DIFFICULTY the double strategy, and the six integer columns the int strategy; any other column throws; the column, operation and value are stored unchanged (getters at Filter.java:28-59) |
| `Filters.IntField` | src/main/java/student/filter/IntFilter.java:38-58 | the int strategy reads a field exactly for the six integer columns |
| `Filters.IntUnparsableAcceptsAll` | src/main/java/student/filter/IntFilter.java:78-80 | a value that is not a Java int gives a predicate that accepts every game |
| `Filters.IntEqualsIsExact` | src/main/java/student/filter/IntFilter.java:62-65 | EQUALS holds iff the column's field equals the parsed value; NOT_EQUALS is its exact negation |
| `Filters.IntOrderings` | src/main/java/student/filter/IntFilter.java:66-73 | the four ordering operators compare the column's field against the parsed value |
| `Filters.IntColumnsReadOwnField` | src/main/java/student/filter/IntFilter.java:38-56 | each integer column reads its own field of the game |
| `Filters.IntInapplicableAcceptsAll` | src/main/java/student/filter/IntFilter.java:57-75 | a non-integer column, or an operator with no integer meaning such as CONTAINS, accepts every game |
| `Filters.StringOperatorsOnName` | src/main/java/student/filter/StringFilter.java:39-48 | on NAME, EQUALS is case-insensitive equality, NOT_EQUALS its negation, and CONTAINS a case-insensitive substring test |
| `Filters.StringNotEqualsNegates` | src/main/java/student/filter/StringFilter.java:45-46 | NOT_EQUALS is the exact negation of EQUALS on every column |
| `Filters.StringOrderingAcceptsAll` | src/main/java/student/filter/StringFilter.java:49-50 | the ordering operators accept every game |
| `Filters.StringOtherColumnSeesEmpty` | src/main/java/student/filter/StringFilter.java:34-37 | on a column other than NAME the game side is empty, so EQUALS holds exactly for an empty value |
| `Filters.StringIgnoresCase` | src/main/java/student/filter/StringFilter.java:39-40 | the verdict depends on neither the letter case of the name nor that of the value |
| `Filters.ParseIntIgnoresCase` | src/main/java/student/Planner.java:74 | lower-casing a value does not change how `Integer.parseInt` reads it |
| `Filters.LoweredValueKeepsVerdict` | src/main/java/student/Planner.java:74 | lower-casing the whole expression first changes no verdict of the string or int strategy |
| `Comparators.LexCompare` | src/main/java/student/GameComparator.java:26 | the character-by-character order is 0 exactly on equal strings |
| `Comparators.LexAntisymmetric` | src/main/java/student/GameComparator.java:26 | swapping the arguments of the string order negates its result |
| `Comparators.LexTransitive` | src/main/java/student/GameComparator.java:26 | the string order is transitive |
| `Comparators.DescendingSwapsArguments` | src/main/java/student/GameComparator.java:58 | the descending comparator is the ascending one with its arguments swapped |
| `Comparators.CompareAntisymmetric` | src/main/java/student/GameComparator.java:24-58 | every comparator gives 0 on a game and itself, and is antisymmetric in sign |
| `Comparators.CompareTransitive` | src/main/java/student/GameComparator.java:24-58 | every comparator is transitive, so it is a total preorder a sort can use |
| `Comparators.NameOrderIgnoresCase` | src/main/java/student/GameComparator.java:25-26 | the NAME comparator gives 0 exactly for names that differ only in letter case |
| `Comparators.UnlistedColumnSortsByName` | src/main/java/student/GameComparator.java:52-54 | a column the switch does not name sorts by case-insensitive name |
| `Comparators.IntColumnsOrderByOwnField` | src/main/java/student/GameComparator.java:34-51 | each integer column orders games by its own field in natural order |
| `Comparators.NameOrderExample` | src/main/java/student/GameComparator.java:26 | "17 days" < "Chess" < "Go" < "Go Fish" < "golang" < "GoRami" < "Monopoly" < "Tucano" by name |
| `Comparators.Insert` | src/main/java/student/Planner.java:86-87 | inserting into a list adds exactly that one game |
| `Comparators.InsertKeepsSorted` | src/main/java/student/Planner.java:86-87 | inserting into a sorted list keeps it sorted |
| `Comparators.SortBy` | src/main/java/student/Planner.java:86-87 | the sort returns a permutation of its input that is sorted by the comparator |
| `Comparators.ListingHoldsMembers` | src/main/java/student/Planner.java:86-87 | a sorted listing of a set has one entry per member and holds exactly the members |
| `Comparators.Enumerate` | src/main/java/student/Planner.java:69 | streaming a set yields each member exactly once |
| `Comparators.SortedListing` | src/main/java/student/Planner.java:86-87 | `set.stream().sorted(createComparator(column, ascending))` is a sorted permutation of the set |
| `Comparators.ListingExists` | src/main/java/student/GameList.java:152-153 | every set has a sorted listing in every comparator order |
| `Planning.ParseSingleFilterOutcomes` | src/main/java/student/Planner.java:128-150 | a clause is dropped exactly when it has no operator, does not split into two parts, or names an unknown column; it throws exactly for an unsupported column; otherwise it yields the filter for the trimmed column and value |
| `Planning.ClausesOfAppend` | src/main/java/student/Planner.java:110-117 | the filters of two runs of pieces are those of the first run followed by those of the second, and the first exception wins |
| `Planning.DroppedClauseIsIgnored` | src/main/java/student/Planner.java:110-117 | a dropped clause changes nothing: the clauses around it still apply, in order |
| `Planning.ClausesIgnoreTrailingEmpty` | src/main/java/student/Planner.java:108-111 | the trailing empty pieces that `split` drops would contribute nothing anyway |
| `Planning.ClausesOfEveryPiece` | src/main/java/student/Planner.java:108-117 | parsing the `split` pieces gives the same filters as parsing every piece between commas |
| `Planning.ClausesAroundComma` | src/main/java/student/Planner.java:104-120 | the filters of `a,b` are those of `a` followed by those of `b` |
| `Planning.ParseFilters` | src/main/java/student/Planner.java:104-120 | the loop collects exactly the filters of the non-empty, non-dropped pieces in order, or the first exception |
| `Planning.Narrowed` | src/main/java/student/Planner.java:78-83 | the narrowed set is the members of the current set that every filter accepts |
| `Planning.NarrowedTwice` | src/main/java/student/Planner.java:78-84 | narrowing by `a` and then by `b` equals narrowing once by `a` followed by `b` |
| `Planning.NarrowBy` | src/main/java/student/Planner.java:78-83 | the loop over the predicates leaves exactly the members every filter accepts |
| `Planning.NextFiltered` | src/main/java/student/Planner.java:67-84 | the next filtered set is a subset of the current one, equals it for a blank expression, and is a failure exactly when a clause throws |
| `Planning.NextFilteredNarrows` | src/main/java/student/Planner.java:67-84 | the next filtered set is the current one narrowed by the expression's filters |
| `Planning.TrimmedExpressionFilters` | src/main/java/student/Planner.java:68-76 | a trimmed expression denotes the filters of its lower-cased text, none when empty |
| `Planning.ExpressionFiltersAroundComma` | src/main/java/student/Planner.java:74-76 | the filters of trimmed `a` and `b` joined by a comma are those of `a` followed by those of `b` |
| `Planning.ProgressiveFiltering` | src/main/java/student/Planner.java:76-84 | `filter(A)` followed by `filter(B)` leaves the same set as `filter("A,B")`, and throws when either does |
| `Planning.Planner.constructor` | src/main/java/student/Planner.java:27-30 | both `allGames` and `filteredGames` start as the given set |
| `Planning.Planner.Filter` | src/main/java/student/Planner.java:67-88 | a blank expression keeps `filteredGames`; otherwise `filteredGames` becomes the members that satisfy every parsed filter; the result is a permutation of the new set sorted by `createComparator(sortOn, ascending)`; an exception leaves the state unchanged |
| `Planning.Planner.FilterOn` | src/main/java/student/Planner.java:53-55 | the two-argument overload is `filter(expr, sortOn, true)` |
| `Planning.Planner.FilterByName` | src/main/java/student/Planner.java:40-42 | the one-argument overload is `filter(expr, NAME, true)` |
| `Planning.Planner.Reset` | src/main/java/student/Planner.java:94-96 | `filteredGames` becomes `allGames`, which never changes |
| `GameLists.RangePartsMatchesPattern` | src/main/java/student/GameList.java:106-109 | the range recogniser accepts exactly `\d+-\d+`, and its two parts are those of `split("-")` |
| `GameLists.ParseSelector` | src/main/java/student/GameList.java:85-89 | a token fails as empty input exactly when it is blank; a name token is the trimmed, lower-cased token |
| `GameLists.SelectorOf` | src/main/java/student/GameList.java:90-118 | a normalised token never reads as empty input, and a name selector carries the token itself |
| `GameLists.ParseSelectorNormalises` | src/main/java/student/GameList.java:89 | surrounding white space and letter case of a token do not matter |
| `GameLists.IndexTokenRoundTrip` | src/main/java/student/GameList.java:100-101 | a position written in decimal selects that position |
| `GameLists.RangeTokenRoundTrip` | src/main/java/student/GameList.java:106-109 | two positions written around a dash select that range |
| `GameLists.NumeralToken` | src/main/java/student/GameList.java:100-101 | a `\d+` token selects its value as a position, and fails with a number format error when the value exceeds a Java int |
| `GameLists.NameToken` | src/main/java/student/GameList.java:85-118 | a token reads as a name exactly when it is not blank and its trimmed, lower-cased form is not `all`, not `\d+` and not `\d+-\d+`; the name is that form |
| `GameLists.FirstNamedIndex` | src/main/java/student/GameList.java:119-127 | the search finds the first candidate whose lower-cased name is the token, or reports that none has it |
| `GameLists.Pick` | src/main/java/student/GameList.java:96-131 | a selector picks only candidates |
| `GameLists.RangeIsUnionOfIndices` | src/main/java/student/GameList.java:106-117 | a valid range picks exactly the games the indices inside it pick one by one |
| `GameLists.NameSelectsFirstMatch` | src/main/java/student/GameList.java:118-131 | a name fails exactly when no candidate has it, and otherwise picks the first candidate with that lower-cased name |
| `GameLists.SortKeepsElements` | src/main/java/student/GameList.java:96-97 | sorting the candidates keeps them and their number |
| `GameLists.AddSpec` | src/main/java/student/GameList.java:84-131 | a successful add only adds games, and only candidates |
| `GameLists.AddSelected` | src/main/java/student/GameList.java:90-131 | each selector only adds games, and only candidates |
| `GameLists.AddAllInsertsEvery` | src/main/java/student/GameList.java:89-93 | `all`, in any letter case, adds every candidate |
| `GameLists.AddIndexInsertsKth` | src/main/java/student/GameList.java:96-105 | index k adds the k-th candidate in name order, and fails exactly when k < 1 or k > n |
| `GameLists.AddRangeInsertsSlice` | src/main/java/student/GameList.java:106-117 | range a-b fails exactly when a < 1, a > b or b > n, and otherwise adds candidates a..b in name order |
| `GameLists.AddNameInsertsFirstMatch` | src/main/java/student/GameList.java:118-131 | a name adds the first candidate in name order whose lower-cased name is the token, and fails with NotFound exactly when no candidate has that name |
| `GameLists.FirstPositionIsAlphabeticallyFirst` | src/main/java/student/GameList.java:96-105 | position 1 holds a candidate that no other candidate goes before by name |
| `GameLists.AddIdempotent` | src/main/java/student/GameList.java:105 | adding with the same token twice adds nothing the second time |
| `GameLists.RemoveFirst` | src/main/java/student/GameList.java:171 | `List.remove(Object)` shortens the list by one when the game is in it, and changes nothing otherwise |
| `GameLists.RangeFaultIff` | src/main/java/student/GameList.java:170-172 | the range loop on the shrinking copy runs past its end exactly when 2*end - start >= n |
| `GameLists.RemoveSpec` | src/main/java/student/GameList.java:141-186 | a successful remove only removes games |
| `GameLists.RemoveSelected` | src/main/java/student/GameList.java:147-186 | each selector only removes games |
| `GameLists.RemoveAsWrittenOffRange` | src/main/java/student/GameList.java:141-160 | for `all`, an index or a name, removal as written is the intended removal, which removes exactly what the selector picks |
| `GameLists.RemoveAllEmpties` | src/main/java/student/GameList.java:145-150 | `all`, in any letter case and with any padding, empties the list |
| `GameLists.RemoveIndexTakesKth` | src/main/java/student/GameList.java:152-160 | index k removes the k-th game of the name-sorted copy, leaving one game fewer, and fails exactly when k is not in 1..n |
| `GameLists.RemoveNameTakesFirstMatch` | src/main/java/student/GameList.java:173-185 | a name removes the first game of the name-sorted copy whose lower-cased name is the token, and fails with NotFound exactly when no game in the list has it |
| `GameLists.RangeRemovalAsWritten` | src/main/java/student/GameList.java:161-172 | range removal never changes the set; it fails with an invalid range, or with an index fault when 2b - a > n |
| `GameLists.SmallRangeTokens` | src/main/java/student/GameList.java:161-164 | "1-2" and "1-3" read as ranges |
| `GameLists.RangeRemovalCounterexample` | src/main/java/student/GameList.java:166-172 | on three games, removing "1-2" keeps all three and removing "1-3" fails, where the intended removal of "1-2" leaves one |
| `GameLists.IntendedRemoveSpec` | src/main/java/student/GameList.java:141-186 | the intended remove only removes games |
| `GameLists.IntendedRemoveSelected` | src/main/java/student/GameList.java:147-185 | the intended removal of one selector only removes games |
| `GameLists.ListingIsDistinct` | src/main/java/student/GameList.java:152 | the sorted copy of a set holds no game twice |
| `GameLists.IntendedRangeRemovesSlice` | src/main/java/student/GameList.java:161-172 | the intended range removal removes exactly games a..b of the sorted copy, b - a + 1 of them |
| `GameLists.IntendedRemoveMirrorsPick` | src/main/java/student/GameList.java:141-186 | the intended remove takes away exactly what the same selector picks from the set's sorted copy |
| `GameLists.GameList.constructor` | src/main/java/student/GameList.java:22-24 | a new list is empty |
| `GameLists.GameList.GameNames` | src/main/java/student/GameList.java:32-37 | the name of every member, one per member, in case-insensitive order |
| `GameLists.GameList.Clear` | src/main/java/student/GameList.java:43-45 | the list becomes empty |
| `GameLists.GameList.Count` | src/main/java/student/GameList.java:53-55 | the count is the number of games in the set |
| `GameLists.GameList.AddEvery` | src/main/java/student/GameList.java:91 | every candidate is added |
| `GameLists.GameList.AddSlice` | src/main/java/student/GameList.java:115-117 | the range loop adds exactly positions start..end of the sorted candidates |
| `GameLists.GameList.FindNamed` | src/main/java/student/GameList.java:119-127 | the search loop stops at the first candidate whose lower-cased name is the token |
| `GameLists.GameList.RangeLoopOnCopy` | src/main/java/student/GameList.java:170-172 | the range loop faults exactly when the specification of the shrinking copy does |
| `GameLists.GameList.AddSelection` | src/main/java/student/GameList.java:100-131 | the index, range and name branches add exactly what the selector picks from the sorted candidates, or report why nothing is picked |
| `GameLists.GameList.RemoveSelection` | src/main/java/student/GameList.java:155-185 | the index, range and name branches apply `RemoveSelected` to the set, or report its exception and keep the set |
| `GameLists.GameList.AddToList` | src/main/java/student/GameList.java:84-131 | the set becomes `AddSpec`'s result, or the exception is reported and the set is unchanged |
| `GameLists.GameList.RemoveFromList` | src/main/java/student/GameList.java:141-186 | for some sorted copy of the set, the set becomes `RemoveSpec`'s result, or the exception is reported and the set is unchanged |

## Left out

- `GameList.saveGame` is file I/O and is not modelled. It writes the lines of `getGameNames()` in order.
- `DoubleFilter` is not modelled: it parses a double and compares with a tolerance, in floating point. Its verdict is the parameter `Env.realVerdict`.
- The RATING and DIFFICULTY fields are exact reals. NaN and negative zero, which `Double.compare` treats specially, do not occur.
- `BoardGame`, `GameData.fromString`, `Operations.getOperatorFromStr` and `Operations.getOperator` are not part of this model. The game is a record of the fields the core reads, without any identifier field. The other three are functions in `Planning.Env`, with no matching rules assumed.
- Null arguments are not modelled. Here a filter expression or a selection token is always a string.
- Text is ASCII: lower-casing, `trim` and `CASE_INSENSITIVE_ORDER` follow their ASCII behaviour, and Unicode case mapping is not modelled.
- `String.split` takes a regular expression, but the model splits on a literal token. The comma and the operator tokens contain no regular-expression metacharacters.
- The order of equal-keyed games depends on HashSet iteration. The model leaves it open: `Enumerate` picks members in an unspecified order, and `GameList.RemoveFromList` holds for some sorted copy of the set.
- Streams are modelled as sequences, and laziness is not modelled.
- `Comparators.SortBy` is stable, but no contract states it. Games whose names differ only in letter case keep the order in which the set was enumerated, and that order is left open. So the index and range lemmas name positions of `SortBy` over the candidates, not a particular one of the tied games.
- `Planning.ProgressiveFiltering` is stated for trimmed `A` and `B` joined by a bare comma. With a space after the comma, the second clause reaches `getOperatorFromStr` with a leading space, and that function is not part of this model.
- `GameLists.GameList.Count` returns an unbounded natural number. A Java `size()` is capped at the largest int, which a game list does not reach.
- No property is taken from `TestPlanner.testSortByDifficultyDescending`, because it reads index 8 of an 8-element list.

## Findings

| source | as written | input that shows it | evidently intended | confidence | as-written member | corrected member |
|---|---|---|---|---|---|---|
| src/main/java/student/GameList.java:170-172 | The range branch of `removeFromList` removes games from the local sorted copy `gameList`, never from `games`. It also advances `i` while that copy shrinks. | A list of three games: token "1-2" returns normally and `count()` stays 3; token "1-3" calls `gameList.get(2)` on a one-element copy and throws `IndexOutOfBoundsException`. | Remove games a..b of the sorted list from the set, as the range branch of `addToList` adds them. | not executed | `GameLists.RangeRemovalCounterexample` | `GameLists.IntendedRangeRemovesSlice` |

`GameLists.GameList.RemoveFromList` keeps the range behaviour as written. `GameLists.IntendedRemoveSpec` is the corrected operation, and `GameLists.IntendedRemoveMirrorsPick` and `GameLists.IntendedRangeRemovesSlice` are proved about it.
