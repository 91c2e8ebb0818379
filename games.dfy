/**
 * The entity the planner works over and the two enumerations that address it: a board-game record,
 * its columns (GameData) and the comparison operators of the filter language (Operations).
 */
module Games {
  import opened Strings

  /**
   * A board game. Records are values: two games with equal fields are the same member of any set.
   * Rating and difficulty are Java doubles; here they are exact reals.
   */
  datatype Game = Game(
    name: string,
    minPlayers: Int32,
    maxPlayers: Int32,
    minPlayTime: Int32,
    maxPlayTime: Int32,
    difficulty: real,
    rank: Int32,
    rating: real,
    yearPublished: Int32)

  /**
   * The columns a filter or a sort can name. `Unlisted` stands for any further constant of the
   * column enumeration that the switches of the filter and comparator factories do not name.
   */
  datatype GameData =
    | Name | Rating | Difficulty | Rank | MinPlayers | MaxPlayers | MinTime | MaxTime | Year
    | Unlisted

  /** The comparison operators of the filter language. */
  datatype Operations =
    | Equals | NotEquals | Contains | GreaterThan | LessThan | GreaterThanEquals | LessThanEquals
}
