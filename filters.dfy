/**
 * Typed predicate construction (student/filter): a filter stores a (column, operation, value)
 * triple, `CreateFilter` picks the strategy from the column's kind, and `Accepts` is the predicate
 * that strategy builds, applied to one game.
 */
module Filters {
  import opened Wrappers
  import opened Strings
  import opened Games

  /**
   * A filter: which strategy was chosen, and the column, operation and value it was built with
   * (the getters of the Java class are the destructors).
   */
  datatype Filter =
    | StringFilter(column: GameData, operation: Operations, value: string)
    | IntFilter(column: GameData, operation: Operations, value: string)
    | DoubleFilter(column: GameData, operation: Operations, value: string)

  /** The IllegalArgumentException Filter.createFilter throws for a column it has no strategy for. */
  datatype FilterError = UnsupportedColumn

  /** The columns backed by a Java int field. */
  predicate IsIntColumn(column: GameData) {
    column in {Rank, MinPlayers, MaxPlayers, MinTime, MaxTime, Year}
  }

  /** The columns backed by a Java double field. */
  predicate IsRealColumn(column: GameData) {
    column == Rating || column == Difficulty
  }

  /**
   * Filter.createFilter: NAME gets the string strategy, RATING and DIFFICULTY the double strategy,
   * the six integer columns the int strategy; any other column is refused. The triple is stored
   * unchanged.
   */
  function CreateFilter(column: GameData, operation: Operations, value: string): (r: Result<Filter, FilterError>)
    ensures r.Failure? <==> column == Unlisted
    ensures r.Success? ==> r.value.column == column && r.value.operation == operation && r.value.value == value
    ensures r.Success? ==> (r.value.StringFilter? <==> column == Name)
    ensures r.Success? ==> (r.value.IntFilter? <==> IsIntColumn(column))
    ensures r.Success? ==> (r.value.DoubleFilter? <==> IsRealColumn(column))
  {
    match column
    case Name => Success(StringFilter(column, operation, value))
    case Rating | Difficulty => Success(DoubleFilter(column, operation, value))
    case Rank | MinPlayers | MaxPlayers | MinTime | MaxTime | Year => Success(IntFilter(column, operation, value))
    case Unlisted => Failure(UnsupportedColumn)
  }

  // ---------------------------------------------------------------------------------------------
  // IntFilter

  /** The field the int strategy reads for a column; None for a column its switch has no case for. */
  function IntField(column: GameData, g: Game): (r: Option<Int32>)
    ensures r.Some? <==> IsIntColumn(column)
  {
    match column
    case MinPlayers => Some(g.minPlayers)
    case MaxPlayers => Some(g.maxPlayers)
    case MinTime => Some(g.minPlayTime)
    case MaxTime => Some(g.maxPlayTime)
    case Rank => Some(g.rank)
    case Year => Some(g.yearPublished)
    case _ => None
  }

  /** The operator switch of the int strategy; an operator it has no case for accepts. */
  function CompareInts(operation: Operations, gameValue: int, target: int): bool {
    match operation
    case Equals => gameValue == target
    case NotEquals => gameValue != target
    case GreaterThan => gameValue > target
    case LessThan => gameValue < target
    case GreaterThanEquals => gameValue >= target
    case LessThanEquals => gameValue <= target
    case Contains => true
  }

  /**
   * IntFilter.createPredicate applied to one game: the value is parsed as a Java int once; if that
   * fails the predicate accepts every game.
   */
  function IntAccepts(column: GameData, operation: Operations, value: string, g: Game): bool {
    match ParseInt(value)
    case None => true
    case Some(target) =>
      match IntField(column, g)
      case None => true
      case Some(gameValue) => CompareInts(operation, gameValue, target)
  }

  /** A value that is not a Java int makes the int strategy accept every game. */
  lemma IntUnparsableAcceptsAll(column: GameData, operation: Operations, value: string, g: Game)
    requires ParseInt(value).None?
    ensures IntAccepts(column, operation, value, g)
  {
  }

  /** EQUALS is exact equality of the column's field with the value; NOT_EQUALS is its negation. */
  lemma IntEqualsIsExact(column: GameData, value: string, target: Int32, g: Game)
    requires ParseInt(value) == Some(target) && IsIntColumn(column)
    ensures IntAccepts(column, Equals, value, g) <==> IntField(column, g).value == target
    ensures IntAccepts(column, NotEquals, value, g) <==> !IntAccepts(column, Equals, value, g)
  {
  }

  /** The four ordering operators compare the column's field against the value. */
  lemma IntOrderings(column: GameData, value: string, target: Int32, g: Game)
    requires ParseInt(value) == Some(target) && IsIntColumn(column)
    ensures IntAccepts(column, GreaterThan, value, g) <==> IntField(column, g).value > target
    ensures IntAccepts(column, LessThan, value, g) <==> IntField(column, g).value < target
    ensures IntAccepts(column, GreaterThanEquals, value, g) <==> IntField(column, g).value >= target
    ensures IntAccepts(column, LessThanEquals, value, g) <==> IntField(column, g).value <= target
  {
  }

  /** Each integer column reads its own field of the record. */
  lemma IntColumnsReadOwnField(g: Game)
    ensures IntField(MinPlayers, g) == Some(g.minPlayers)
    ensures IntField(MaxPlayers, g) == Some(g.maxPlayers)
    ensures IntField(MinTime, g) == Some(g.minPlayTime)
    ensures IntField(MaxTime, g) == Some(g.maxPlayTime)
    ensures IntField(Rank, g) == Some(g.rank)
    ensures IntField(Year, g) == Some(g.yearPublished)
  {
  }

  /** A column without an int field, or an operator without an integer meaning, accepts every game. */
  lemma IntInapplicableAcceptsAll(column: GameData, operation: Operations, value: string, g: Game)
    requires !IsIntColumn(column) || operation == Contains
    ensures IntAccepts(column, operation, value, g)
  {
  }

  // ---------------------------------------------------------------------------------------------
  // StringFilter

  /** The text the string strategy looks at: the name for NAME, the empty string for any other column. */
  function StringSide(column: GameData, g: Game): string {
    if column == Name then g.name else ""
  }

  /**
   * StringFilter.createPredicate applied to one game: both sides lower-cased, then equals,
   * not-equals or contains; every other operator accepts.
   */
  function StringAccepts(column: GameData, operation: Operations, value: string, g: Game): bool {
    var gameValue := Lower(StringSide(column, g));
    var compareValue := Lower(value);
    match operation
    case Equals => gameValue == compareValue
    case NotEquals => gameValue != compareValue
    case Contains => Strings.Contains(gameValue, compareValue)
    case _ => true
  }

  /** EQUALS on NAME is case-insensitive equality, NOT_EQUALS its negation, CONTAINS a case-insensitive substring test. */
  lemma StringOperatorsOnName(value: string, g: Game)
    ensures StringAccepts(Name, Equals, value, g) <==> Lower(g.name) == Lower(value)
    ensures StringAccepts(Name, NotEquals, value, g) <==> !StringAccepts(Name, Equals, value, g)
    ensures StringAccepts(Name, Contains, value, g) <==> Strings.Contains(Lower(g.name), Lower(value))
  {
  }

  /** NOT_EQUALS is the exact negation of EQUALS, on every column. */
  lemma StringNotEqualsNegates(column: GameData, value: string, g: Game)
    ensures StringAccepts(column, NotEquals, value, g) == !StringAccepts(column, Equals, value, g)
  {
  }

  /** The ordering operators are not supported on text: they accept every game. */
  lemma StringOrderingAcceptsAll(column: GameData, operation: Operations, value: string, g: Game)
    requires operation in {GreaterThan, LessThan, GreaterThanEquals, LessThanEquals}
    ensures StringAccepts(column, operation, value, g)
  {
  }

  /** On a column other than NAME the game side is empty, so EQUALS holds exactly for an empty value. */
  lemma StringOtherColumnSeesEmpty(column: GameData, value: string, g: Game)
    requires column != Name
    ensures StringAccepts(column, Equals, value, g) <==> value == ""
  {
    if value != "" {
      assert |Lower(value)| > 0;
    }
  }

  /** The verdict depends on neither the letter case of the name nor that of the value. */
  lemma StringIgnoresCase(column: GameData, operation: Operations, value: string, value': string, g: Game, g': Game)
    requires Lower(value) == Lower(value') && Lower(g.name) == Lower(g'.name)
    ensures StringAccepts(column, operation, value, g) == StringAccepts(column, operation, value', g')
  {
  }

  // ---------------------------------------------------------------------------------------------
  // Any filter

  /**
   * Filter.createPredicate applied to one game. The double strategy compares floating-point values
   * with a tolerance; it is not part of this model, so its verdict is the parameter `realVerdict`.
   */
  function Accepts(f: Filter, g: Game, realVerdict: (Filter, Game) -> bool): bool {
    match f
    case StringFilter(column, operation, value) => StringAccepts(column, operation, value, g)
    case IntFilter(column, operation, value) => IntAccepts(column, operation, value, g)
    case DoubleFilter(_, _, _) => realVerdict(f, g)
  }

  /** A letter never parses as an int, so lower-casing a value does not change how it parses. */
  lemma {:induction false} ParseIntIgnoresCase(s: string)
    ensures ParseInt(Lower(s)) == ParseInt(s)
  {
    if k :| 0 <= k < |s| && 'A' <= s[k] <= 'Z' {
      ParseIntRejectsLetter(s, k);
      ParseIntRejectsLetter(Lower(s), k);
    } else {
      assert Lower(s) == s;
    }
  }

  /**
   * Planner.filter lower-cases the whole expression before the value reaches a filter; for the string
   * and int strategies that does not change any verdict.
   */
  lemma LoweredValueKeepsVerdict(column: GameData, operation: Operations, value: string, g: Game)
    ensures StringAccepts(column, operation, Lower(value), g) == StringAccepts(column, operation, value, g)
    ensures IntAccepts(column, operation, Lower(value), g) == IntAccepts(column, operation, value, g)
  {
    LowerIdempotent(value);
    ParseIntIgnoresCase(value);
  }
}
