/** The game database page (src/pages/GameDatabasePage.jsx): the catalog is
    filtered by a title search and four optional filters, sorted by one of six
    keys, and shown through a window that grows by twelve games each time the
    page is scrolled near its bottom. */
module CatalogView {
  import opened Common
  import opened Text
  import opened Seqs

  /** A catalog row. `genres` and `platforms` hold the `name` of each element
      of `genres_list` and `platforms_list`; `developer` and `publisher` the
      `name` of the joined record. Each is None where the row has no such
      field. `releaseDate` is the release date as a timestamp and
      `averageRating` the rating as an integer. */
  datatype Game = Game(
    id: int,
    title: Option<string>,
    genres: Option<seq<string>>,
    platforms: Option<seq<string>>,
    developer: Option<string>,
    publisher: Option<string>,
    releaseDate: Option<int>,
    averageRating: Option<int>)

  /** The search box and the four filter selections; "" means "not set". */
  datatype Criteria = Criteria(
    search: string,
    genre: string,
    platform: string,
    developer: string,
    publisher: string)

  const ItemsPerLoad: nat := 12

  // ---------------------------------------------------------------- filtering

  /** The title contains the search text, ignoring case; a game without a
      title never matches. */
  predicate SearchMatch(g: Game, search: string) {
    g.title.Some? && Contains(Lower(g.title.value), Lower(search))
  }

  predicate GenreMatch(g: Game, genre: string) {
    genre == [] || (g.genres.Some? && genre in g.genres.value)
  }

  predicate PlatformMatch(g: Game, platform: string) {
    platform == [] || (g.platforms.Some? && platform in g.platforms.value)
  }

  predicate DeveloperMatch(g: Game, developer: string) {
    developer == [] || g.developer == Some(developer)
  }

  predicate PublisherMatch(g: Game, publisher: string) {
    publisher == [] || g.publisher == Some(publisher)
  }

  /** The filter callback: all five tests hold. */
  predicate Matches(g: Game, c: Criteria) {
    && SearchMatch(g, c.search)
    && GenreMatch(g, c.genre)
    && PlatformMatch(g, c.platform)
    && DeveloperMatch(g, c.developer)
    && PublisherMatch(g, c.publisher)
  }

  /** `filteredGames`: exactly the games that match, in catalog order. */
  function FilterGames(games: seq<Game>, c: Criteria): (r: seq<Game>)
    ensures forall g :: g in r <==> g in games && Matches(g, c)
    ensures forall g :: multiset(r)[g] == if Matches(g, c) then multiset(games)[g] else 0
    ensures IsSubsequence(r, games)
  {
    Filter(g => Matches(g, c), games)
  }

  /** The five filters are independent: applying them one after the other, in
      any grouping, gives the same list as the combined filter. */
  lemma FilterIsIntersection(games: seq<Game>, c: Criteria)
    ensures FilterGames(games, c) ==
      Filter(g => PublisherMatch(g, c.publisher),
        Filter(g => DeveloperMatch(g, c.developer),
          Filter(g => PlatformMatch(g, c.platform),
            Filter(g => GenreMatch(g, c.genre),
              Filter(g => SearchMatch(g, c.search), games)))))
  {
    var s1 := (g: Game) => SearchMatch(g, c.search);
    var s2 := (g: Game) => SearchMatch(g, c.search) && GenreMatch(g, c.genre);
    var s3 := (g: Game) => s2(g) && PlatformMatch(g, c.platform);
    var s4 := (g: Game) => s3(g) && DeveloperMatch(g, c.developer);
    FilterConjunction(s1, g => GenreMatch(g, c.genre), s2, games);
    FilterConjunction(s2, g => PlatformMatch(g, c.platform), s3, games);
    FilterConjunction(s3, g => DeveloperMatch(g, c.developer), s4, games);
    FilterConjunction(s4, g => PublisherMatch(g, c.publisher), g => Matches(g, c), games);
  }

  /** An empty search passes exactly the games that have a title. */
  lemma EmptySearchPassesTitled(g: Game)
    ensures SearchMatch(g, []) <==> g.title.Some?
  {
    if g.title.Some? {
      ContainsEmpty(Lower(g.title.value));
    }
  }

  /** With nothing selected and nothing typed, the page lists every game that
      has a title, in catalog order. */
  lemma NoCriteriaKeepsTitled(games: seq<Game>)
    requires forall g :: g in games ==> g.title.Some?
    ensures FilterGames(games, Criteria([], [], [], [], [])) == games
  {
    var c := Criteria([], [], [], [], []);
    forall g | g in games ensures Matches(g, c) {
      EmptySearchPassesTitled(g);
    }
    FilterAllPass(g => Matches(g, c), games);
  }

  /** A genre or platform filter that is set rejects a game whose list is
      missing, and passes a game only if an element has exactly that name. */
  lemma SetListFilterNeedsList(g: Game, c: Criteria)
    requires c.genre != [] || c.platform != []
    requires Matches(g, c)
    ensures c.genre != [] ==> g.genres.Some? && c.genre in g.genres.value
    ensures c.platform != [] ==> g.platforms.Some? && c.platform in g.platforms.value
  {
  }

  // ------------------------------------------------------------------ sorting

  /** `average_rating || 0` */
  function RatingKey(g: Game): int {
    g.averageRating.GetOr(0)
  }

  /** `new Date(release_date)`: a missing date is the epoch. */
  function DateKey(g: Game): int {
    g.releaseDate.GetOr(0)
  }

  /** `title`: only games with a title pass the filter, so the empty default is
      never reached on the page (see FilteredHaveTitles). */
  function TitleKey(g: Game): string {
    g.title.GetOr([])
  }

  /** The `sort` comparator: negative when `a` goes first. An empty or unknown
      key compares every pair as equal. */
  function Compare(sortBy: string, a: Game, b: Game): int {
    if sortBy == "az" then LexCompare(TitleKey(a), TitleKey(b))
    else if sortBy == "za" then LexCompare(TitleKey(b), TitleKey(a))
    else if sortBy == "newest" then DateKey(b) - DateKey(a)
    else if sortBy == "oldest" then DateKey(a) - DateKey(b)
    else if sortBy == "rating-high" then RatingKey(b) - RatingKey(a)
    else if sortBy == "rating-low" then RatingKey(a) - RatingKey(b)
    else 0
  }

  lemma CompareFlip(sortBy: string, a: Game, b: Game)
    ensures Compare(sortBy, b, a) == -Compare(sortBy, a, b)
  {
    LexCompareFlip(TitleKey(a), TitleKey(b));
  }

  lemma CompareTransitive(sortBy: string, a: Game, b: Game, c: Game)
    requires Compare(sortBy, a, b) <= 0 && Compare(sortBy, b, c) <= 0
    ensures Compare(sortBy, a, c) <= 0
  {
    if sortBy == "az" {
      LexCompareTransitive(TitleKey(a), TitleKey(b), TitleKey(c));
    } else if sortBy == "za" {
      LexCompareTransitive(TitleKey(c), TitleKey(b), TitleKey(a));
    }
  }

  ghost predicate Sorted(sortBy: string, s: seq<Game>) {
    forall i, j :: 0 <= i < j < |s| ==> Compare(sortBy, s[i], s[j]) <= 0
  }

  /** Inserts `x` into a sorted list, ahead of every game it does not come
      after: the step of a stable sort where `x` came first in the input. */
  function Insert(sortBy: string, x: Game, s: seq<Game>): (r: seq<Game>)
    requires Sorted(sortBy, s)
    ensures |r| == |s| + 1 && multiset(r) == multiset(s) + multiset{x}
    ensures Sorted(sortBy, r)
  {
    if s == [] then [x]
    else if Compare(sortBy, x, s[0]) <= 0 then
      forall j | 0 <= j < |s| ensures Compare(sortBy, x, s[j]) <= 0 {
        if j > 0 { CompareTransitive(sortBy, x, s[0], s[j]); }
      }
      [x] + s
    else
      var rest := Insert(sortBy, x, s[1..]);
      assert s == [s[0]] + s[1..];
      CompareFlip(sortBy, x, s[0]);
      forall j | 0 <= j < |rest| ensures Compare(sortBy, s[0], rest[j]) <= 0 {
        assert rest[j] in multiset(rest);
        if rest[j] != x {
          assert rest[j] in s[1..];
        }
      }
      [s[0]] + rest
  }

  /** `[...filteredGames].sort(comparator)`: a stable sort of a copy. */
  function SortGames(sortBy: string, s: seq<Game>): (r: seq<Game>)
    ensures |r| == |s| && multiset(r) == multiset(s)
    ensures Sorted(sortBy, r)
  {
    if s == [] then []
    else
      assert s == [s[0]] + s[1..];
      Insert(sortBy, s[0], SortGames(sortBy, s[1..]))
  }

  /** The games that compare equal to `a`. */
  function TiedWith(sortBy: string, a: Game): Game -> bool {
    x => Compare(sortBy, x, a) == 0
  }

  lemma {:induction false} InsertKeepsTies(sortBy: string, x: Game, s: seq<Game>, a: Game)
    requires Sorted(sortBy, s)
    ensures Filter(TiedWith(sortBy, a), Insert(sortBy, x, s)) ==
      Filter(TiedWith(sortBy, a), [x] + s)
  {
    var tied := TiedWith(sortBy, a);
    assert ([x] + s)[1..] == s;
    if s != [] && Compare(sortBy, x, s[0]) > 0 {
      var rest := Insert(sortBy, x, s[1..]);
      assert Insert(sortBy, x, s) == [s[0]] + rest;
      assert ([s[0]] + rest)[1..] == rest;
      assert ([x] + s[1..])[1..] == s[1..];
      assert s == [s[0]] + s[1..];
      InsertKeepsTies(sortBy, x, s[1..], a);
      if tied(x) && tied(s[0]) {
        CompareFlip(sortBy, s[0], a);
        CompareTransitive(sortBy, x, a, s[0]);
        assert false;
      }
    }
  }

  /** The sort is stable: the games that compare equal to any given game keep
      their input order. */
  lemma {:induction false} SortIsStable(sortBy: string, s: seq<Game>, a: Game)
    ensures Filter(TiedWith(sortBy, a), SortGames(sortBy, s)) == Filter(TiedWith(sortBy, a), s)
  {
    if s != [] {
      var tail := SortGames(sortBy, s[1..]);
      InsertKeepsTies(sortBy, s[0], tail, a);
      SortIsStable(sortBy, s[1..], a);
      assert ([s[0]] + tail)[1..] == tail;
    }
  }

  /** A list already in order is returned unchanged. */
  lemma {:induction false} SortedUnchanged(sortBy: string, s: seq<Game>)
    requires Sorted(sortBy, s)
    ensures SortGames(sortBy, s) == s
  {
    if s != [] {
      SortedUnchanged(sortBy, s[1..]);
      assert s == [s[0]] + s[1..];
    }
  }

  /** Sorting twice by the same key is sorting once. */
  lemma SortIdempotent(sortBy: string, s: seq<Game>)
    ensures SortGames(sortBy, SortGames(sortBy, s)) == SortGames(sortBy, s)
  {
    SortedUnchanged(sortBy, SortGames(sortBy, s));
  }

  predicate KnownSortKey(sortBy: string) {
    || sortBy == "az" || sortBy == "za"
    || sortBy == "newest" || sortBy == "oldest"
    || sortBy == "rating-high" || sortBy == "rating-low"
  }

  /** An empty or unknown key leaves the filtered order as it is. */
  lemma UnknownKeyKeepsOrder(sortBy: string, s: seq<Game>)
    requires !KnownSortKey(sortBy)
    ensures SortGames(sortBy, s) == s
  {
    forall i, j | 0 <= i < j < |s| ensures Compare(sortBy, s[i], s[j]) <= 0 {
      assert Compare(sortBy, s[i], s[j]) == 0;
    }
    SortedUnchanged(sortBy, s);
  }

  /** What each key orders by, in the sorted list. */
  lemma SortOrderByKey(sortBy: string, s: seq<Game>, i: int, j: int)
    requires 0 <= i < j < |s|
    ensures var r := SortGames(sortBy, s);
      && (sortBy == "az" ==> LexCompare(TitleKey(r[i]), TitleKey(r[j])) <= 0)
      && (sortBy == "za" ==> LexCompare(TitleKey(r[j]), TitleKey(r[i])) <= 0)
      && (sortBy == "newest" ==> DateKey(r[i]) >= DateKey(r[j]))
      && (sortBy == "oldest" ==> DateKey(r[i]) <= DateKey(r[j]))
      && (sortBy == "rating-high" ==> RatingKey(r[i]) >= RatingKey(r[j]))
      && (sortBy == "rating-low" ==> RatingKey(r[i]) <= RatingKey(r[j]))
  {
    var r := SortGames(sortBy, s);
    assert Compare(sortBy, r[i], r[j]) <= 0;
  }

  // ------------------------------------------------------------------- window

  /** `sortedGames.slice(0, visibleCount)` */
  function Visible(sorted: seq<Game>, visibleCount: nat): (r: seq<Game>)
    ensures |r| == if visibleCount < |sorted| then visibleCount else |sorted|
    ensures r == sorted[..|r|]
    ensures multiset(r) <= multiset(sorted)
  {
    if visibleCount < |sorted| then
      var r := sorted[..visibleCount];
      assert sorted == r + sorted[visibleCount..];
      r
    else sorted
  }

  /** The "Loading more games..." line. */
  predicate LoadingMore(sorted: seq<Game>, visibleCount: nat) {
    visibleCount < |sorted|
  }

  lemma LoadingMoreIffCut(sorted: seq<Game>, visibleCount: nat)
    ensures LoadingMore(sorted, visibleCount) <==> |Visible(sorted, visibleCount)| < |sorted|
  {
  }

  /** What the grid shows: the window over the sorted, filtered catalog. It
      holds as many matches as fit, none more often than among the matches,
      and they are the first matches in the order of the chosen key. */
  function View(games: seq<Game>, c: Criteria, sortBy: string, visibleCount: nat): (r: seq<Game>)
    ensures var n := |FilterGames(games, c)|; |r| == if visibleCount < n then visibleCount else n
    ensures multiset(r) <= multiset(FilterGames(games, c))
    ensures forall g :: g in r ==> g in games && Matches(g, c)
    ensures Sorted(sortBy, r)
    ensures r == SortGames(sortBy, FilterGames(games, c))[..|r|]
  {
    var filtered := FilterGames(games, c);
    var sorted := SortGames(sortBy, filtered);
    var r := Visible(sorted, visibleCount);
    forall g | g in r ensures g in games && Matches(g, c) {
      assert g in multiset(filtered);
    }
    r
  }

  /** A larger window shows the smaller window's games first. */
  lemma ViewGrows(games: seq<Game>, c: Criteria, sortBy: string, small: nat, large: nat)
    requires small <= large
    ensures var v := View(games, c, sortBy, large); View(games, c, sortBy, small) == v[..|View(games, c, sortBy, small)|]
  {
  }

  /** Every game the page can sort has a title, so the sort never reads a
      missing one. */
  lemma FilteredHaveTitles(games: seq<Game>, c: Criteria)
    ensures forall g :: g in FilterGames(games, c) ==> g.title.Some?
  {
  }

  /** The `visibleCount` state cell and the scroll handler that bumps it. */
  class Window {
    var visibleCount: nat

    ghost predicate Valid()
      reads this
    {
      visibleCount >= ItemsPerLoad && visibleCount % ItemsPerLoad == 0
    }

    constructor ()
      ensures Valid() && visibleCount == ItemsPerLoad
    {
      visibleCount := ItemsPerLoad;
    }

    /** `handleScroll`, with `nearBottom` for the scroll-geometry test. */
    method OnScroll(nearBottom: bool)
      requires Valid()
      modifies this
      ensures Valid()
      ensures visibleCount == old(visibleCount) + (if nearBottom then ItemsPerLoad else 0)
      ensures visibleCount >= old(visibleCount)
    {
      if nearBottom {
        visibleCount := visibleCount + ItemsPerLoad;
      }
    }
  }
}
