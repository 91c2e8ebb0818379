/**
 * The comparator factory (GameComparator.createComparator) as a three-way compare function, its
 * ordering laws, and the sort that Planner and GameList apply with it.
 */
module Comparators {
  import opened Strings
  import opened Games

  // ---------------------------------------------------------------------------------------------
  // Keys

  /** Lexicographic three-way comparison by character code, giving -1, 0 or 1. */
  function LexCompare(a: string, b: string): (r: int)
    ensures -1 <= r <= 1
    ensures r == 0 <==> a == b
  {
    if a == [] || b == [] then
      (if a == b then 0 else if a == [] then -1 else 1)
    else if a[0] < b[0] then -1
    else if a[0] > b[0] then 1
    else
      assert a == [a[0]] + a[1..] && b == [b[0]] + b[1..];
      LexCompare(a[1..], b[1..])
  }

  lemma {:induction false} LexAntisymmetric(a: string, b: string)
    ensures LexCompare(a, b) == -LexCompare(b, a)
  {
    if a != [] && b != [] && a[0] == b[0] {
      LexAntisymmetric(a[1..], b[1..]);
    }
  }

  lemma {:induction false} LexTransitive(a: string, b: string, c: string)
    requires LexCompare(a, b) <= 0 && LexCompare(b, c) <= 0
    ensures LexCompare(a, c) <= 0
  {
    if a != [] && b != [] && c != [] && a[0] == b[0] == c[0] {
      LexTransitive(a[1..], b[1..], c[1..]);
    }
  }

  /** String.CASE_INSENSITIVE_ORDER on ASCII text: compare the lower-cased strings. */
  function CaseInsensitiveCompare(a: string, b: string): int {
    LexCompare(Lower(a), Lower(b))
  }

  /** Integer.compare. */
  function IntCompare(x: int, y: int): int {
    if x < y then -1 else if x == y then 0 else 1
  }

  /** Double.compare, on values that are neither NaN nor negative zero. */
  function RealCompare(x: real, y: real): int {
    if x < y then -1 else if x == y then 0 else 1
  }

  /** The key comparator the factory's switch picks for a column; an unlisted column sorts by name. */
  function KeyCompare(column: GameData, a: Game, b: Game): int {
    match column
    case Name => CaseInsensitiveCompare(a.name, b.name)
    case Rating => RealCompare(a.rating, b.rating)
    case Difficulty => RealCompare(a.difficulty, b.difficulty)
    case Rank => IntCompare(a.rank, b.rank)
    case MinPlayers => IntCompare(a.minPlayers, b.minPlayers)
    case MaxPlayers => IntCompare(a.maxPlayers, b.maxPlayers)
    case MinTime => IntCompare(a.minPlayTime, b.minPlayTime)
    case MaxTime => IntCompare(a.maxPlayTime, b.maxPlayTime)
    case Year => IntCompare(a.yearPublished, b.yearPublished)
    case Unlisted => CaseInsensitiveCompare(a.name, b.name)
  }

  /**
   * GameComparator.createComparator(column, ascending).compare(a, b), by sign: negative when `a`
   * goes first. Descending order is Comparator.reversed, which swaps the arguments.
   */
  function Compare(column: GameData, ascending: bool, a: Game, b: Game): int {
    if ascending then KeyCompare(column, a, b) else KeyCompare(column, b, a)
  }

  // ---------------------------------------------------------------------------------------------
  // Ordering laws

  /** The descending comparator is the ascending one with its arguments swapped. */
  lemma DescendingSwapsArguments(column: GameData, a: Game, b: Game)
    ensures Compare(column, false, a, b) == Compare(column, true, b, a)
  {
  }

  /** Every comparator gives 0 on a game compared with itself and is antisymmetric in sign. */
  lemma CompareAntisymmetric(column: GameData, ascending: bool, a: Game, b: Game)
    ensures Compare(column, ascending, a, a) == 0
    ensures Compare(column, ascending, a, b) == -Compare(column, ascending, b, a)
  {
    LexAntisymmetric(Lower(a.name), Lower(b.name));
  }

  /** Every comparator is transitive: it is a total preorder. */
  lemma CompareTransitive(column: GameData, ascending: bool, a: Game, b: Game, c: Game)
    requires Compare(column, ascending, a, b) <= 0 && Compare(column, ascending, b, c) <= 0
    ensures Compare(column, ascending, a, c) <= 0
  {
    if column == Name || column == Unlisted {
      if ascending {
        LexTransitive(Lower(a.name), Lower(b.name), Lower(c.name));
      } else {
        LexTransitive(Lower(c.name), Lower(b.name), Lower(a.name));
      }
    }
  }

  /** Names that differ only in letter case compare equal, and only those. */
  lemma NameOrderIgnoresCase(ascending: bool, a: Game, b: Game)
    ensures Compare(Name, ascending, a, b) == 0 <==> Lower(a.name) == Lower(b.name)
  {
  }

  /** An unlisted column sorts by case-insensitive name, in the requested direction. */
  lemma UnlistedColumnSortsByName(ascending: bool, a: Game, b: Game)
    ensures Compare(Unlisted, ascending, a, b) == Compare(Name, ascending, a, b)
  {
  }

  /** Each integer column orders games by its own field, in natural integer order. */
  lemma IntColumnsOrderByOwnField(a: Game, b: Game)
    ensures Compare(Rank, true, a, b) < 0 <==> a.rank < b.rank
    ensures Compare(MinPlayers, true, a, b) < 0 <==> a.minPlayers < b.minPlayers
    ensures Compare(MaxPlayers, true, a, b) < 0 <==> a.maxPlayers < b.maxPlayers
    ensures Compare(MinTime, true, a, b) < 0 <==> a.minPlayTime < b.minPlayTime
    ensures Compare(MaxTime, true, a, b) < 0 <==> a.maxPlayTime < b.maxPlayTime
    ensures Compare(Year, true, a, b) < 0 <==> a.yearPublished < b.yearPublished
  {
  }

  /** Case-insensitive name order on the catalog used by the planner's tests. */
  lemma NameOrderExample()
    ensures CaseInsensitiveCompare("17 days", "Chess") < 0
    ensures CaseInsensitiveCompare("Chess", "Go") < 0
    ensures CaseInsensitiveCompare("Go", "Go Fish") < 0
    ensures CaseInsensitiveCompare("Go Fish", "golang") < 0
    ensures CaseInsensitiveCompare("golang", "GoRami") < 0
    ensures CaseInsensitiveCompare("GoRami", "Monopoly") < 0
    ensures CaseInsensitiveCompare("Monopoly", "Tucano") < 0
  {
    CaseInsensitiveByHead("17 days", "Chess");
    CaseInsensitiveByHead("Chess", "Go");
    CaseInsensitiveByHead("GoRami", "Monopoly");
    CaseInsensitiveByHead("Monopoly", "Tucano");
    assert "Go" == "Go" + [] && "Go Fish" == "Go" + " Fish";
    assert "golang" == "go" + "lang" && "GoRami" == "Go" + "Rami";
    assert Lower("Go") == Lower("go");
    CaseInsensitivePrefix("Go", "Go", [], " Fish");
    assert |Lower(" Fish")| == 5;
    CaseInsensitivePrefix("Go", "go", " Fish", "lang");
    CaseInsensitiveByHead(" Fish", "lang");
    CaseInsensitivePrefix("go", "Go", "lang", "Rami");
    CaseInsensitiveByHead("lang", "Rami");
  }

  /** Case-insensitively, the first characters decide when they differ. */
  lemma CaseInsensitiveByHead(a: string, b: string)
    requires |a| > 0 && |b| > 0 && LowerChar(a[0]) < LowerChar(b[0])
    ensures CaseInsensitiveCompare(a, b) < 0
  {
    assert Lower(a)[0] == LowerChar(a[0]) && Lower(b)[0] == LowerChar(b[0]);
  }

  /** Prefixes equal up to letter case do not change the case-insensitive order. */
  lemma CaseInsensitivePrefix(p: string, q: string, a: string, b: string)
    requires Lower(p) == Lower(q)
    ensures CaseInsensitiveCompare(p + a, q + b) == CaseInsensitiveCompare(a, b)
  {
    LowerAppend(p, a);
    LowerAppend(q, b);
    LexCommonPrefix(Lower(p), Lower(a), Lower(b));
  }

  /** A common prefix does not change the order. */
  lemma {:induction false} LexCommonPrefix(p: string, a: string, b: string)
    ensures LexCompare(p + a, p + b) == LexCompare(a, b)
  {
    if p != [] {
      assert (p + a)[1..] == p[1..] + a && (p + b)[1..] == p[1..] + b;
      LexCommonPrefix(p[1..], a, b);
    } else {
      assert p + a == a && p + b == b;
    }
  }

  // ---------------------------------------------------------------------------------------------
  // Sorting

  /** In comparator order: no later element should go before an earlier one. */
  predicate Sorted(s: seq<Game>, column: GameData, ascending: bool) {
    forall i, j :: 0 <= i < j < |s| ==> Compare(column, ascending, s[i], s[j]) <= 0
  }

  /** Insertion of `x` before the first element it does not go after (so ties keep their order). */
  function Insert(x: Game, s: seq<Game>, column: GameData, ascending: bool): (r: seq<Game>)
    ensures multiset(r) == multiset(s) + multiset{x}
  {
    if s == [] then [x]
    else if Compare(column, ascending, x, s[0]) <= 0 then [x] + s
    else
      assert s == [s[0]] + s[1..];
      [s[0]] + Insert(x, s[1..], column, ascending)
  }

  lemma {:induction false} InsertKeepsSorted(x: Game, s: seq<Game>, column: GameData, ascending: bool)
    requires Sorted(s, column, ascending)
    ensures Sorted(Insert(x, s, column, ascending), column, ascending)
  {
    if s == [] {
    } else if Compare(column, ascending, x, s[0]) <= 0 {
      forall j | 0 <= j < |s|
        ensures Compare(column, ascending, x, s[j]) <= 0
      {
        if j > 0 {
          CompareTransitive(column, ascending, x, s[0], s[j]);
        }
      }
    } else {
      InsertKeepsSorted(x, s[1..], column, ascending);
      CompareAntisymmetric(column, ascending, x, s[0]);
      HeadPrecedesInsert(x, s, column, ascending);
      ConsKeepsSorted(s[0], Insert(x, s[1..], column, ascending), column, ascending);
    }
  }

  /** The head of a sorted list goes before everything that inserting a later element into its tail gives. */
  lemma HeadPrecedesInsert(x: Game, s: seq<Game>, column: GameData, ascending: bool)
    requires s != [] && Sorted(s, column, ascending) && Compare(column, ascending, s[0], x) <= 0
    ensures forall y :: y in Insert(x, s[1..], column, ascending) ==> Compare(column, ascending, s[0], y) <= 0
  {
    var tail := Insert(x, s[1..], column, ascending);
    forall y | y in tail
      ensures Compare(column, ascending, s[0], y) <= 0
    {
      assert y in multiset(tail);
      if y != x {
        assert y in s[1..];
      }
    }
  }

  /** An element that goes before every element of a sorted list can lead it. */
  lemma ConsKeepsSorted(h: Game, tail: seq<Game>, column: GameData, ascending: bool)
    requires Sorted(tail, column, ascending)
    requires forall y :: y in tail ==> Compare(column, ascending, h, y) <= 0
    ensures Sorted([h] + tail, column, ascending)
  {
    var r := [h] + tail;
    forall i, j | 0 <= i < j < |r|
      ensures Compare(column, ascending, r[i], r[j]) <= 0
    {
      if i == 0 {
        assert r[j] in tail;
      } else {
        assert r[i] == tail[i - 1] && r[j] == tail[j - 1];
      }
    }
  }

  /** The stable sort of List.sort and Stream.sorted: a sorted permutation of its input. */
  function SortBy(s: seq<Game>, column: GameData, ascending: bool): (r: seq<Game>)
    ensures multiset(r) == multiset(s)
    ensures Sorted(r, column, ascending)
  {
    if s == [] then []
    else
      var rest := SortBy(s[1..], column, ascending);
      InsertKeepsSorted(s[0], rest, column, ascending);
      assert s == [s[0]] + s[1..];
      Insert(s[0], rest, column, ascending)
  }

  /** A sequence holding each member of a set once, in comparator order. */
  predicate IsSortedListing(r: seq<Game>, members: set<Game>, column: GameData, ascending: bool) {
    multiset(r) == multiset(members) && Sorted(r, column, ascending)
  }

  /** A listing has as many elements as the set and holds exactly its members. */
  lemma ListingHoldsMembers(r: seq<Game>, members: set<Game>, column: GameData, ascending: bool)
    requires IsSortedListing(r, members, column, ascending)
    ensures |r| == |members|
    ensures forall g :: g in r <==> g in members
  {
    assert |multiset(r)| == |r|;
    assert forall g :: g in r <==> g in multiset(r);
  }

  /** Iterating a HashSet: every member once, in an order the model leaves open. */
  method Enumerate(members: set<Game>) returns (r: seq<Game>)
    ensures multiset(r) == multiset(members)
  {
    r := [];
    var rest := members;
    while rest != {}
      invariant rest <= members
      invariant multiset(r) + multiset(rest) == multiset(members)
      decreases rest
    {
      var g :| g in rest;
      assert rest == (rest - {g}) + {g};
      r := r + [g];
      rest := rest - {g};
    }
  }

  /** `members.stream().sorted(GameComparator.createComparator(column, ascending))`. */
  method SortedListing(members: set<Game>, column: GameData, ascending: bool) returns (r: seq<Game>)
    ensures IsSortedListing(r, members, column, ascending)
  {
    var order := Enumerate(members);
    r := SortBy(order, column, ascending);
  }

  /** Every set has a listing in every comparator order. */
  lemma {:induction false} ListingExists(members: set<Game>, column: GameData, ascending: bool)
    ensures exists r :: IsSortedListing(r, members, column, ascending)
    decreases members
  {
    if members == {} {
      assert IsSortedListing([], members, column, ascending);
    } else {
      var g :| g in members;
      ListingExists(members - {g}, column, ascending);
      var r :| IsSortedListing(r, members - {g}, column, ascending);
      assert members == (members - {g}) + {g};
      var s := SortBy(r + [g], column, ascending);
      assert IsSortedListing(s, members, column, ascending);
    }
  }
}
