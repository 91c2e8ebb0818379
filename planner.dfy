/**
 * The collection planner (Planner.java): it owns the full catalog and the current filtered subset,
 * parses comma-separated filter expressions into filters, narrows the subset progressively and
 * returns it sorted.
 */
module Planning {
  import opened Wrappers
  import opened Strings
  import opened Games
  import opened Filters
  import opened Comparators

  /** An operator's textual token; tokens are never empty. */
  type Token = s: string | |s| > 0 witness "=="

  /**
   * The code the planner calls that is not part of this model, passed in as functions:
   * `columnNamed` is GameData.fromString (None where it throws IllegalArgumentException),
   * `operatorIn` is Operations.getOperatorFromStr (None where it returns null), `tokenOf` is
   * Operations.getOperator, and `realVerdict` is the predicate DoubleFilter builds.
   */
  datatype Env = Env(
    columnNamed: string -> Option<GameData>,
    operatorIn: string -> Option<Operations>,
    tokenOf: Operations -> Token,
    realVerdict: (Filter, Game) -> bool)

  // ---------------------------------------------------------------------------------------------
  // Parsing an expression into filters

  /**
   * Planner.parseSingleFilter. `Success(None)` is a dropped clause (the method returns null);
   * `Failure` is the exception createFilter throws, which the method does not catch.
   */
  function ParseSingleFilter(env: Env, clause: string): Result<Option<Filter>, FilterError> {
    match env.operatorIn(clause)
    case None => Success(None)
    case Some(operation) =>
      var parts := Split(clause, env.tokenOf(operation));
      if |parts| != 2 then Success(None)
      else
        match env.columnNamed(Trim(parts[0]))
        case None => Success(None)
        case Some(column) =>
          match CreateFilter(column, operation, Trim(parts[1]))
          case Failure(e) => Failure(e)
          case Success(f) => Success(Some(f))
  }

  /**
   * A clause is dropped exactly when it has no operator, does not split into two parts around it,
   * or names an unknown column; it fails exactly when its column has no filter strategy; otherwise
   * it yields the filter for (column, operator, trimmed value).
   */
  lemma ParseSingleFilterOutcomes(env: Env, clause: string)
    ensures ParseSingleFilter(env, clause) == Success(None) <==>
      || env.operatorIn(clause).None?
      || |Split(clause, env.tokenOf(env.operatorIn(clause).value))| != 2
      || env.columnNamed(Trim(Split(clause, env.tokenOf(env.operatorIn(clause).value))[0])).None?
    ensures ParseSingleFilter(env, clause).Failure? <==>
      && env.operatorIn(clause).Some?
      && |Split(clause, env.tokenOf(env.operatorIn(clause).value))| == 2
      && env.columnNamed(Trim(Split(clause, env.tokenOf(env.operatorIn(clause).value))[0])) == Some(Unlisted)
    ensures ParseSingleFilter(env, clause).Success? && ParseSingleFilter(env, clause).value.Some? ==>
      var f := ParseSingleFilter(env, clause).value.value;
      var parts := Split(clause, env.tokenOf(env.operatorIn(clause).value));
      && f.operation == env.operatorIn(clause).value
      && Some(f.column) == env.columnNamed(Trim(parts[0]))
      && f.value == Trim(parts[1])
  {
  }

  /** The filters one piece of the expression contributes: none for an empty or dropped piece. */
  function ClauseOf(env: Env, piece: string): Result<seq<Filter>, FilterError> {
    if piece == [] then Success([])
    else
      match ParseSingleFilter(env, piece)
      case Failure(e) => Failure(e)
      case Success(None) => Success([])
      case Success(Some(f)) => Success([f])
  }

  /** Sequencing of two parse results: the first exception wins, otherwise the filters are joined. */
  function Concat(a: Result<seq<Filter>, FilterError>, b: Result<seq<Filter>, FilterError>): Result<seq<Filter>, FilterError> {
    match a
    case Failure(_) => a
    case Success(x) =>
      match b
      case Failure(_) => b
      case Success(y) => Success(x + y)
  }

  lemma ConcatAssociative(a: Result<seq<Filter>, FilterError>, b: Result<seq<Filter>, FilterError>, c: Result<seq<Filter>, FilterError>)
    ensures Concat(a, Concat(b, c)) == Concat(Concat(a, b), c)
  {
    if a.Success? && b.Success? && c.Success? {
      assert a.value + (b.value + c.value) == (a.value + b.value) + c.value;
    }
  }

  /** Appending no filters changes no result. */
  lemma ConcatNothing(a: Result<seq<Filter>, FilterError>)
    ensures Concat(a, Success([])) == a
  {
    if a.Success? {
      assert a.value + [] == a.value;
    }
  }

  /** The filters of a sequence of pieces, in order; the first piece that throws aborts. */
  function ClausesOf(env: Env, pieces: seq<string>): Result<seq<Filter>, FilterError> {
    if pieces == [] then Success([])
    else Concat(ClauseOf(env, pieces[0]), ClausesOf(env, pieces[1..]))
  }

  /** Planner.parseFilters: split on commas, parse every non-empty piece. */
  function Clauses(env: Env, text: string): Result<seq<Filter>, FilterError> {
    ClausesOf(env, Split(text, ","))
  }

  lemma {:induction false} ClausesOfAppend(env: Env, p: seq<string>, q: seq<string>)
    ensures ClausesOf(env, p + q) == Concat(ClausesOf(env, p), ClausesOf(env, q))
  {
    if p == [] {
      assert p + q == q;
      match ClausesOf(env, q)
      case Failure(_) =>
      case Success(y) => assert [] + y == y;
    } else {
      assert (p + q)[1..] == p[1..] + q;
      ClausesOfAppend(env, p[1..], q);
      ConcatAssociative(ClauseOf(env, p[0]), ClausesOf(env, p[1..]), ClausesOf(env, q));
    }
  }

  /** One piece contributes exactly its own clause. */
  lemma ClausesOfSingle(env: Env, piece: string)
    ensures ClausesOf(env, [piece]) == ClauseOf(env, piece)
  {
    assert [piece][1..] == [];
    match ClauseOf(env, piece)
    case Failure(_) =>
    case Success(x) => assert x + [] == x;
  }

  /** A dropped clause changes nothing: the clauses around it still apply, in the same order. */
  lemma DroppedClauseIsIgnored(env: Env, before: seq<string>, dropped: string, after: seq<string>)
    requires ClauseOf(env, dropped) == Success([])
    ensures ClausesOf(env, before + [dropped] + after) == ClausesOf(env, before + after)
  {
    ClausesOfSingle(env, dropped);
    ClausesOfAppend(env, before + [dropped], after);
    ClausesOfAppend(env, before, [dropped]);
    ClausesOfAppend(env, before, after);
    match ClausesOf(env, before)
    case Failure(_) =>
    case Success(x) => assert x + [] == x;
  }

  /** Empty pieces contribute nothing, so dropping the trailing ones (as String.split does) is harmless. */
  lemma {:induction false} ClausesIgnoreTrailingEmpty(env: Env, pieces: seq<string>)
    ensures ClausesOf(env, DropTrailingEmpty(pieces)) == ClausesOf(env, pieces)
    decreases |pieces|
  {
    if |pieces| > 0 && pieces[|pieces| - 1] == [] {
      var front := pieces[..|pieces| - 1];
      assert DropTrailingEmpty(pieces) == DropTrailingEmpty(front);
      ClausesIgnoreTrailingEmpty(env, front);
      assert pieces == front + [[]];
      ClausesOfAppend(env, front, [[]]);
      ClausesOfSingle(env, []);
      ConcatNothing(ClausesOf(env, front));
    }
  }

  /** Dropping trailing empty pieces aside, the clauses are those of every piece between commas. */
  lemma ClausesOfEveryPiece(env: Env, text: string)
    ensures Clauses(env, text) == ClausesOf(env, SplitAll(text, ","))
  {
    if Find(text, ",").Some? {
      ClausesIgnoreTrailingEmpty(env, SplitAll(text, ","));
    } else {
      assert SplitAll(text, ",") == [text];
    }
  }

  /** The clauses of `a,b` are those of `a` followed by those of `b`. */
  lemma ClausesAroundComma(env: Env, a: string, b: string)
    ensures Clauses(env, a + "," + b) == Concat(Clauses(env, a), Clauses(env, b))
  {
    ClausesOfEveryPiece(env, a + "," + b);
    ClausesOfEveryPiece(env, a);
    ClausesOfEveryPiece(env, b);
    SplitAllAround(a, ',', b);
    ClausesOfAppend(env, SplitAll(a, ","), SplitAll(b, ","));
  }

  /** Planner.parseFilters, as the loop that appends each parsed filter. */
  method ParseFilters(env: Env, text: string) returns (r: Result<seq<Filter>, FilterError>)
    ensures r == Clauses(env, text)
  {
    var pieces := Split(text, ",");
    var filters: seq<Filter> := [];
    for i := 0 to |pieces|
      invariant ClausesOf(env, pieces[..i]) == Success(filters)
    {
      ClausesOfOneMore(env, pieces, i);
      if pieces[i] != [] {
        var parsed := ParseSingleFilter(env, pieces[i]);
        if parsed.Failure? {
          ClausesOfAbort(env, pieces, i + 1);
          return Failure(parsed.error);
        }
        if parsed.value.Some? {
          assert ClauseOf(env, pieces[i]) == Success([parsed.value.value]);
          filters := filters + [parsed.value.value];
        } else {
          assert ClauseOf(env, pieces[i]) == Success([]);
          assert filters + [] == filters;
        }
      } else {
        assert filters + [] == filters;
      }
    }
    assert pieces[..|pieces|] == pieces;
    r := Success(filters);
  }

  /** Loop step of `ParseFilters`: the next piece's clause follows those already parsed. */
  lemma ClausesOfOneMore(env: Env, pieces: seq<string>, i: nat)
    requires i < |pieces|
    ensures ClausesOf(env, pieces[..i + 1]) == Concat(ClausesOf(env, pieces[..i]), ClauseOf(env, pieces[i]))
  {
    assert pieces[..i + 1] == pieces[..i] + [pieces[i]];
    ClausesOfAppend(env, pieces[..i], [pieces[i]]);
    ClausesOfSingle(env, pieces[i]);
  }

  /** Once a prefix of the pieces throws, the whole expression throws the same exception. */
  lemma ClausesOfAbort(env: Env, pieces: seq<string>, i: nat)
    requires i <= |pieces| && ClausesOf(env, pieces[..i]).Failure?
    ensures ClausesOf(env, pieces) == ClausesOf(env, pieces[..i])
  {
    assert pieces == pieces[..i] + pieces[i..];
    ClausesOfAppend(env, pieces[..i], pieces[i..]);
  }

  // ---------------------------------------------------------------------------------------------
  // Narrowing

  /** The members of `members` that every filter accepts. */
  function Narrowed(env: Env, members: set<Game>, filters: seq<Filter>): (r: set<Game>)
    ensures r <= members
    ensures forall g :: g in r <==> g in members && forall f :: f in filters ==> Accepts(f, g, env.realVerdict)
  {
    set g | g in members && forall f :: f in filters ==> Accepts(f, g, env.realVerdict)
  }

  /** Narrowing by one more filter keeps the members it accepts. */
  lemma NarrowedByOneMore(env: Env, members: set<Game>, filters: seq<Filter>, f: Filter)
    ensures Narrowed(env, members, filters + [f]) ==
      set g | g in Narrowed(env, members, filters) && Accepts(f, g, env.realVerdict)
  {
    assert forall h :: h in filters + [f] <==> h in filters || h == f;
  }

  /** Narrowing by `a` and then by `b` is narrowing by all of `a` and `b` at once. */
  lemma NarrowedTwice(env: Env, members: set<Game>, a: seq<Filter>, b: seq<Filter>)
    ensures Narrowed(env, Narrowed(env, members, a), b) == Narrowed(env, members, a + b)
  {
    assert forall f :: f in a + b <==> f in a || f in b;
  }

  /** The loop of Planner.filter that applies each filter's predicate to the working set in turn. */
  method NarrowBy(env: Env, members: set<Game>, filters: seq<Filter>) returns (r: set<Game>)
    ensures r == Narrowed(env, members, filters)
  {
    r := members;
    for i := 0 to |filters|
      invariant r == Narrowed(env, members, filters[..i])
    {
      assert filters[..i + 1] == filters[..i] + [filters[i]];
      NarrowedByOneMore(env, members, filters[..i], filters[i]);
      r := set g | g in r && Accepts(filters[i], g, env.realVerdict);
    }
    assert filters[..|filters|] == filters;
  }

  /** The filters an expression denotes: none for a blank one, otherwise those of its trimmed, lower-cased text. */
  function ExpressionFilters(env: Env, expression: string): Result<seq<Filter>, FilterError> {
    if IsBlank(expression) then Success([]) else Clauses(env, Lower(Trim(expression)))
  }

  /**
   * The filtered subset after Planner.filter(expression, ...): unchanged for a blank expression,
   * otherwise the current members every parsed filter accepts; Failure when a clause throws.
   */
  function NextFiltered(env: Env, current: set<Game>, expression: string): (r: Result<set<Game>, FilterError>)
    ensures r.Success? ==> r.value <= current
    ensures IsBlank(expression) ==> r == Success(current)
    ensures r.Failure? <==> ExpressionFilters(env, expression).Failure?
  {
    if IsBlank(expression) then Success(current)
    else
      match Clauses(env, Lower(Trim(expression)))
      case Failure(e) => Failure(e)
      case Success(filters) => Success(Narrowed(env, current, filters))
  }

  /** `NextFiltered` narrows by the expression's filters, whatever the current subset. */
  lemma NextFilteredNarrows(env: Env, current: set<Game>, expression: string)
    ensures NextFiltered(env, current, expression) ==
      match ExpressionFilters(env, expression)
      case Failure(e) => Failure(e)
      case Success(filters) => Success(Narrowed(env, current, filters))
  {
    if IsBlank(expression) {
      assert Narrowed(env, current, []) == current;
    }
  }

  /** For a trimmed expression, its filters are those of its lower-cased text. */
  lemma TrimmedExpressionFilters(env: Env, e: string)
    requires IsTrimmed(e)
    ensures ExpressionFilters(env, e) == Clauses(env, Lower(e))
  {
    if e == [] {
      assert Trim(e) == [] && Lower(e) == [];
      assert Split([], ",") == [[]];
      ClausesOfSingle(env, []);
    }
  }

  /**
   * Filtering is progressive: filtering by `a` and then by `b` leaves the same subset as filtering
   * once by `a,b`; if either throws, so does the combined call.
   */
  lemma ProgressiveFiltering(env: Env, current: set<Game>, a: string, b: string)
    requires IsTrimmed(a) && IsTrimmed(b)
    ensures NextFiltered(env, current, a + "," + b) ==
      match NextFiltered(env, current, a)
      case Failure(e) => Failure(e)
      case Success(next) => NextFiltered(env, next, b)
  {
    ExpressionFiltersAroundComma(env, a, b);
    NextFilteredNarrows(env, current, a + "," + b);
    NextFilteredNarrows(env, current, a);
    match ExpressionFilters(env, a)
    case Failure(_) =>
    case Success(fa) =>
      var next := Narrowed(env, current, fa);
      NextFilteredNarrows(env, next, b);
      match ExpressionFilters(env, b)
      case Failure(_) =>
      case Success(fb) => NarrowedTwice(env, current, fa, fb);
  }

  /** The filters of trimmed `a` and `b` joined by a comma are those of `a` followed by those of `b`. */
  lemma ExpressionFiltersAroundComma(env: Env, a: string, b: string)
    requires IsTrimmed(a) && IsTrimmed(b)
    ensures ExpressionFilters(env, a + "," + b) == Concat(ExpressionFilters(env, a), ExpressionFilters(env, b))
  {
    var ab := a + "," + b;
    assert IsTrimmed(ab);
    LowerAppend(a + ",", b);
    LowerAppend(a, ",");
    assert Lower(",") == ",";
    assert Lower(ab) == Lower(a) + "," + Lower(b);
    TrimmedExpressionFilters(env, ab);
    TrimmedExpressionFilters(env, a);
    TrimmedExpressionFilters(env, b);
    ClausesAroundComma(env, Lower(a), Lower(b));
  }

  /** What one call of Planner.filter leaves and returns. */
  predicate FilterOutcome(env: Env, before: set<Game>, expression: string, sortOn: GameData, ascending: bool,
                          after: set<Game>, r: Result<seq<Game>, FilterError>)
  {
    match NextFiltered(env, before, expression)
    case Success(next) => after == next && r.Success? && IsSortedListing(r.value, next, sortOn, ascending)
    case Failure(e) => after == before && r == Failure(e)
  }

  // ---------------------------------------------------------------------------------------------
  // The planner

  class Planner {
    /** Every game of the catalog; fixed at construction. */
    const allGames: set<Game>
    /** The current filtered subset. */
    var filteredGames: set<Game>

    constructor (games: set<Game>)
      ensures allGames == games && filteredGames == games
    {
      allGames := games;
      filteredGames := games;
    }

    /**
     * Planner.filter(filter, sortOn, ascending): narrows the filtered subset by the expression and
     * returns it sorted by the chosen comparator.
     */
    method Filter(env: Env, expression: string, sortOn: GameData, ascending: bool) returns (r: Result<seq<Game>, FilterError>)
      modifies this
      ensures FilterOutcome(env, old(filteredGames), expression, sortOn, ascending, filteredGames, r)
    {
      if IsBlank(expression) {
        var listing := SortedListing(filteredGames, sortOn, ascending);
        return Success(listing);
      }
      var text := Lower(Trim(expression));
      var parsed := ParseFilters(env, text);
      if parsed.Failure? {
        return Failure(parsed.error);
      }
      var workingSet := NarrowBy(env, filteredGames, parsed.value);
      filteredGames := workingSet;
      var listing := SortedListing(workingSet, sortOn, ascending);
      return Success(listing);
    }

    /** Planner.filter(filter, sortOn): ascending order. */
    method FilterOn(env: Env, expression: string, sortOn: GameData) returns (r: Result<seq<Game>, FilterError>)
      modifies this
      ensures FilterOutcome(env, old(filteredGames), expression, sortOn, true, filteredGames, r)
    {
      r := Filter(env, expression, sortOn, true);
    }

    /** Planner.filter(filter): by name, ascending. */
    method FilterByName(env: Env, expression: string) returns (r: Result<seq<Game>, FilterError>)
      modifies this
      ensures FilterOutcome(env, old(filteredGames), expression, Name, true, filteredGames, r)
    {
      r := Filter(env, expression, Name, true);
    }

    /** Planner.reset: the filtered subset is the whole catalog again. */
    method Reset()
      modifies this
      ensures filteredGames == allGames
    {
      filteredGames := allGames;
    }
  }
}
