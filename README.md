# GameFlow: a verified model of the catalog view, the personal library and the account services

GameFlow is a progressive web app for browsing a game catalog and keeping a
personal library ("My Games") of wishlisted, playing and completed games.
This Dafny project models the parts of its front end that hold logic:

- **Game database page** (`catalog_view.dfy`). The catalog is filtered by a
  case-insensitive title search and by genre, platform, developer and
  publisher. It is sorted by one of six keys. A window shows the first
  `visibleCount` games, and that count grows by 12 each time the page is
  scrolled near its bottom.
- **Library service** (`my_games_service.dfy`). Every operation first reads
  the session and acts for the session's user only. Reading the library runs
  a plain query, then a join query, and falls back to a separate games
  query when the join left every row without its game. Add, remove, update
  and single-row lookup are modelled too.
- **`useMyGames` hook** (`use_my_games.dfy`). The class `Library` holds the
  library list in memory. Refresh replaces it, add prepends the new row,
  remove filters it, and update replaces one row.
- **My Games page** (`my_games_page.dfy`). It loads the list, filters it by
  status, and merges an update's answer into the list.
- **Auth service** (`auth_service.dfy`). Register and login check their input
  before the identity provider is asked. The provider's error texts are
  mapped to user-facing messages.
- **Profile service** (`profile_service.dfy`). This covers the profile update
  record, the storage path of an uploaded avatar and the password-length
  rule.
- **Mini game** (`mini_game.dfy`). The player guesses genres: a right guess
  scores a point, a timer starts the next round, and a button resets the
  score.

Shared pieces live in `common.dfy`, `seqs.dfy` and `text.dfy`:
- `common.dfy`: optional values, thrown errors, and results that either
  resolve or throw.
- `seqs.dfy`: `filter` and `map` on arrays.
- `text.dfy`: `includes`, `toLowerCase`, `trim`, and the comparison behind
  `localeCompare`.

Remote calls to the database, the file store and the identity provider are
not executed. Each one becomes a parameter:
- a value, when the call is fixed, such as the answer to a fixed query;
- a total function, when the answer depends on the request, such as a
  delete filter to its error, or a path to its upload error.

The same goes for the clock (`Date.now()`) and the random numbers
(`Math.random()`). So every contract holds for every possible answer of the
outside world.

The session is an `Option<string>` holding the signed-in user's id. Where the
source tests an identifier or a text for JavaScript truthiness, the model
writes the test out (`Truthy`, `TruthyText`). A missing value is `None`, and
`0` or `""` counts as falsy.

The catalog sort is `Array.prototype.sort`, which is stable, with the page's
comparator. `CompareFlip` and `CompareTransitive` show that this comparator
is a consistent total preorder, so the sorted list is fully determined. It
is modelled as a stable insertion sort (`SortGames`) and proved:
- to be a permutation of its input;
- to be sorted;
- to be stable;
- to leave sorted input unchanged;
- to be idempotent;
- to leave the order alone for an empty or unknown key.

In the mini game, the genre to guess is drawn separately from the four
options. Nothing puts that genre among the options, and `GuessMayBeMissing`
exhibits a draw where no option is right.

## Model

| member | source | states |
|---|---|---|
| Text.Contains | src/pages/GameDatabasePage.jsx:37 | `includes` is true exactly when the pattern occurs at some index of the text |
| Text.ContainsPart | src/services/authService.js:119 | a text containing a pattern contains every part of that pattern |
| Text.Lower | src/pages/GameDatabasePage.jsx:37 | `toLowerCase` keeps the length and lowers each character |
| Text.TrimStart | src/services/authService.js:52 | trim removes exactly the leading white space; the result starts with a non-space |
| Text.TrimEnd | src/services/authService.js:52 | trim removes exactly the trailing white space; the result ends with a non-space |
| Text.LexCompare | src/pages/GameDatabasePage.jsx:53-54 | the title comparison is -1, 0 or 1, and 0 exactly for equal titles |
| Text.LexCompareFlip | src/pages/GameDatabasePage.jsx:53-54 | swapping the titles negates the comparison ("za" is the reverse of "az") |
| Text.LexCompareTransitive | src/pages/GameDatabasePage.jsx:53-54 | the title order is transitive |
| Seqs.Filter | src/pages/GameDatabasePage.jsx:36-50 | `filter` keeps exactly the passing elements, with their multiplicity, in input order |
| Seqs.Map | src/hooks/useMyGames.js:73 | `map` keeps the length and applies the function at each index |
| Seqs.FilterAllPass | src/pages/MyGamesPage.jsx:40-43 | a filter that every element passes returns its input |
| Seqs.FilterConjunction | src/pages/GameDatabasePage.jsx:49 | filtering by a conjunction equals filtering by one conjunct, then the other |
| Seqs.DistinctIffCountsAtMostOne | src/pages/MiniGamePage.jsx:26 | a list has no repeats exactly when no element occurs twice in its multiset, so a rearrangement of a repeat-free list has none |
| CatalogView.FilterGames | src/pages/GameDatabasePage.jsx:36-50 | `filteredGames` holds exactly the games matching all five tests, in catalog order, with their multiplicity |
| CatalogView.FilterIsIntersection | src/pages/GameDatabasePage.jsx:36-50 | the combined filter equals the five filters applied in turn |
| CatalogView.EmptySearchPassesTitled | src/pages/GameDatabasePage.jsx:37 | an empty search passes exactly the games that have a title |
| CatalogView.NoCriteriaKeepsTitled | src/pages/GameDatabasePage.jsx:36-50 | with nothing typed or selected, every titled game is listed in catalog order |
| CatalogView.SetListFilterNeedsList | src/pages/GameDatabasePage.jsx:38-44 | a set genre or platform filter passes a game only if its list exists and names exactly that value |
| CatalogView.CompareFlip | src/pages/GameDatabasePage.jsx:52-69 | the comparator is antisymmetric for every key |
| CatalogView.CompareTransitive | src/pages/GameDatabasePage.jsx:52-69 | the comparator's "not after" is transitive for every key |
| CatalogView.Insert | src/pages/GameDatabasePage.jsx:52 | inserting into a sorted list gives a sorted list with one more element, the same multiset plus the new one |
| CatalogView.SortGames | src/pages/GameDatabasePage.jsx:52-69 | `sortedGames` is a sorted permutation of `filteredGames` |
| CatalogView.InsertKeepsTies | src/pages/GameDatabasePage.jsx:52 | insertion keeps the relative order of the games tied with any given game |
| CatalogView.SortIsStable | src/pages/GameDatabasePage.jsx:52-69 | games comparing equal keep their input order |
| CatalogView.SortedUnchanged | src/pages/GameDatabasePage.jsx:52-69 | an already-ordered list is returned unchanged |
| CatalogView.SortIdempotent | src/pages/GameDatabasePage.jsx:52-69 | sorting twice by the same key is sorting once |
| CatalogView.UnknownKeyKeepsOrder | src/pages/GameDatabasePage.jsx:68 | an empty or unknown key leaves the filtered order as it is |
| CatalogView.SortOrderByKey | src/pages/GameDatabasePage.jsx:53-66 | in the sorted list, titles ascend for "az" and descend for "za", dates descend for "newest" and ascend for "oldest", ratings (missing = 0) descend for "rating-high" and ascend for "rating-low" |
| CatalogView.Visible | src/pages/GameDatabasePage.jsx:71 | the window is the prefix of length min(visibleCount, number of sorted games), so it holds no game more often than the sorted list |
| CatalogView.LoadingMoreIffCut | src/pages/GameDatabasePage.jsx:144 | "Loading more" shows exactly when the window hides some sorted game |
| CatalogView.View | src/pages/GameDatabasePage.jsx:36-71 | the grid shows exactly as many matches as fit (visibleCount or all of them, whichever is fewer), each a matching catalog game and none more often than among the matches, and they are the first ones of the sorted matches, in the order of the chosen key |
| CatalogView.ViewGrows | src/pages/GameDatabasePage.jsx:71 | a larger window begins with the smaller window's games |
| CatalogView.FilteredHaveTitles | src/pages/GameDatabasePage.jsx:36-53 | every game reaching the sort has a title |
| CatalogView.Window.constructor | src/pages/GameDatabasePage.jsx:20-21 | the window starts at 12 games |
| CatalogView.Window.OnScroll | src/pages/GameDatabasePage.jsx:24-30 | near the bottom the count grows by 12, otherwise it stays; it is always a positive multiple of 12 |
| MyGamesService.KeepValid | src/services/myGamesService.js:140-158 | the final filter keeps exactly the rows with an attached game whose slug is non-empty, each as often as in the input and in order, and drops every other row |
| MyGamesService.WithoutGames | src/services/myGamesService.js:65 | the join-failure fallback is every raw row with `games` set to null |
| MyGamesService.NonNullGameIds | src/services/myGamesService.js:82 | the ids collected are exactly the non-null `game_id`s |
| MyGamesService.Dedup | src/services/myGamesService.js:82 | `[...new Set(ids)]` has the same members, each once |
| MyGamesService.DistinctGameIds | src/services/myGamesService.js:82 | the separate games query asks for each referenced game id exactly once |
| MyGamesService.GamesMapOf | src/services/myGamesService.js:100-105 | the map's keys are the fetched games' ids, and each maps to a fetched game with that id |
| MyGamesService.GamesMapLastWins | src/services/myGamesService.js:102-104 | for a duplicated id, the map holds the last fetched game with it |
| MyGamesService.BuildGamesMap | src/services/myGamesService.js:100-105 | the `forEach` loop builds exactly that map |
| MyGamesService.AttachGames | src/services/myGamesService.js:108-111 | each row gets the fetched game for its `game_id`, or null |
| MyGamesService.SeparateFetchDropsOrphans | src/services/myGamesService.js:108-136 | on the separate-fetch path a row survives only with a fetched game matching its `game_id`, and is otherwise the stored row |
| MyGamesService.GetMyGamesByUser | src/services/myGamesService.js:8-162 | no session throws; a plain-query error is rethrown; a join error returns the raw rows without games if there are any, else rethrows; a games-fetch error gives []; otherwise the valid rows; whenever the join succeeded every returned row is valid |
| MyGamesService.AddToMyGames | src/services/myGamesService.js:169-206 | without a session it throws with code UNAUTHORIZED; otherwise the row inserted carries the session's user id |
| MyGamesService.RemoveFromMyGames | src/services/myGamesService.js:212-252 | without a session it throws; it deletes by entry id when one is truthy, else by game id, always for the session's user; with neither it throws; success is `true` |
| MyGamesService.UpdateMyGame | src/services/myGamesService.js:259-311 | without a session it throws; a missing or failed ownership check gives "Entry not found…"; a PGRST116 update error gives the RLS message and other errors are rethrown; no row gives "No rows were updated"; success returns the updated row of that id for the session's user, and the call succeeds exactly when the ownership check finds the entry and the update returns a row, which is then the result |
| MyGamesService.GetMyGameForUser | src/services/myGamesService.js:317-337 | null without a session; otherwise the row found for the session's user and the game, lookup errors ignored |
| MyGamesService.AddIgnoresCallerUserId | src/services/myGamesService.js:180-192 | the caller's user id has no effect on the insert |
| MyGamesService.RemoveScopedToSessionUser | src/services/myGamesService.js:219-241 | the result depends only on deletes restricted to the session's user, never on the caller's user id |
| MyGamesService.UpdateScopedToSessionUser | src/services/myGamesService.js:266-289 | the result depends only on the check and update for the session's user |
| MyGamesService.LookupScopedToSessionUser | src/services/myGamesService.js:324-329 | the lookup ignores the caller's user id and reads only the session user's rows |
| UseMyGames.RemoveById | src/hooks/useMyGames.js:59-61 | removal by id keeps exactly the rows with another id, in order, with multiplicity |
| UseMyGames.RemoveByGame | src/hooks/useMyGames.js:59-62 | removal by game keeps exactly the rows for another game, in order, with multiplicity |
| UseMyGames.ReplaceById | src/hooks/useMyGames.js:73 | the update replaces every row with that id by the updated row and keeps the rest in place |
| UseMyGames.AddThenRemoveRestores | src/hooks/useMyGames.js:47-61 | prepending a row with a fresh id and then removing that id restores the list |
| UseMyGames.ReplaceMissingIdIsIdentity | src/hooks/useMyGames.js:73 | replacing an id no row has changes nothing |
| UseMyGames.Library.constructor | src/hooks/useMyGames.js:16-20 | the list starts empty and not loading |
| UseMyGames.Library.Refresh | src/hooks/useMyGames.js:22-36 | with no user the list is emptied and no fetch is made; otherwise one fetch, the list becomes its result (kept on failure), and loading ends |
| UseMyGames.Library.Add | src/hooks/useMyGames.js:42-51 | with no user it throws "Not authenticated" and calls nothing; otherwise the service's new row is prepended |
| UseMyGames.Library.Remove | src/hooks/useMyGames.js:53-68 | with no user, or with neither id, it throws and calls nothing; on success the list loses the rows with that id, or else that game |
| UseMyGames.Library.Update | src/hooks/useMyGames.js:70-77 | the service is called once; on success the row with that id is replaced by the answer, and the length is kept |
| MyGamesPage.FilterByStatus | src/pages/MyGamesPage.jsx:40-43 | "all" keeps the list as it is; any other status keeps exactly the rows with that status, each as often as in the list and in order |
| MyGamesPage.MergeEntryFields | src/pages/MyGamesPage.jsx:49 | `{...g, ...data}` takes each of the nine row fields the answer has and keeps every other one |
| MyGamesPage.MergeEntryIdempotent | src/pages/MyGamesPage.jsx:49 | merging the same answer twice is merging it once; an empty answer changes nothing |
| MyGamesPage.MergeById | src/pages/MyGamesPage.jsx:48-50 | only rows with the entry's id are merged; the others and the length are kept |
| MyGamesPage.MergeByIdKeepsRows | src/pages/MyGamesPage.jsx:48-50 | a row's id, game id or attached game changes only when that row is the one merged and the answer carries that field; an answer without id, game_id and games keeps every row's identity |
| MyGamesPage.ProgressShown | src/pages/MyGamesPage.jsx:107 | missing progress shows as 0 |
| MyGamesPage.RatingShown | src/pages/MyGamesPage.jsx:118 | the rating box is blank exactly when the rating is missing, and otherwise shows the stored number |
| MyGamesPage.RatingBoxReadsBack | src/pages/MyGamesPage.jsx:107-118 | reading the rating box back gives the stored rating, so a missing rating is told apart from every number, while a missing progress shows exactly like a progress of 0 |
| MyGamesPage.Page.constructor | src/pages/MyGamesPage.jsx:9-11 | the page starts empty and loading |
| MyGamesPage.Page.Load | src/pages/MyGamesPage.jsx:14-26 | with no user the list empties and loading ends; otherwise one fetch, whose data (null = []) becomes the list; a thrown fetch leaves the page loading |
| MyGamesPage.Page.UpdateField | src/pages/MyGamesPage.jsx:45-51 | the answer is merged into the row with that id; a thrown update leaves the list alone |
| AuthService.EmailAcceptedIffAt | src/services/authService.js:43 | an email passes exactly when it contains "@" |
| AuthService.SignUpErrorMessage | src/services/authService.js:59-66 | "already registered", "Invalid email" and "Password" are mapped in that order; a text with none of the three is passed through unchanged |
| AuthService.SignInErrorMessage | src/services/authService.js:118-125 | any text with "Invalid" becomes the credentials message, before the "Email not confirmed" and "too many requests" checks; a text with none of the three is passed through unchanged |
| AuthService.CredentialsTestSubsumed | src/services/authService.js:119 | a text with "Invalid login credentials" also contains "Invalid", so the first test adds nothing |
| AuthService.Register | src/services/authService.js:38-94 | a bad email or a password under 6 characters fails before sign-up; success exactly when both checks pass and the provider returns data, and then the provider's user is returned; a provider error gives its mapped sign-up message and a thrown error its own text or the registration fallback; confirmation is required exactly when the provider returns a user without a session |
| AuthService.Login | src/services/authService.js:97-141 | a bad email or an empty password fails before sign-in; success exactly when the provider returns a user, and that user is returned; a provider error gives its mapped sign-in message, a thrown error its own text or the login fallback, and data without a user the login fallback; no confirmation flag |
| AuthService.ValidationPrecedesRemote | src/services/authService.js:43-108 | input that fails validation gets the same outcome whatever the provider would answer |
| ProfileService.BuildUpdates | src/services/ProfileService.js:8-15 | display name and bio are always sent; the avatar URL only when it is truthy |
| ProfileService.UpdateProfile | src/services/ProfileService.js:5-30 | a missing user id throws; an update error is rethrown; otherwise the first updated row, or null for none |
| ProfileService.Split | src/services/ProfileService.js:36 | `split` gives at least one piece, none containing the separator, and joining the pieces gives the name back |
| ProfileService.Extension | src/services/ProfileService.js:36 | the extension is a dot-free suffix of the name, preceded by a dot when shorter than the name |
| ProfileService.ExtensionIsLastPiece | src/services/ProfileService.js:36 | the extension is the last piece of `name.split(".")` |
| ProfileService.DecimalString | src/services/ProfileService.js:37 | the timestamp is printed as a non-empty string of decimal digits, with no leading zero unless the time is 0 |
| ProfileService.DecimalStringValue | src/services/ProfileService.js:37 | the printed timestamp reads back as the timestamp |
| ProfileService.SplitAtOnlySeparator | src/services/ProfileService.js:36 | two texts without the separator, joined by one separator, split back into exactly those two texts |
| ProfileService.AvatarPath | src/services/ProfileService.js:37 | the path starts with the user id and a slash |
| ProfileService.AvatarPathParts | src/services/ProfileService.js:36-37 | after the user id and the slash, the path splits at '.' into exactly the printed upload time and the file's extension, and the first piece reads back as the upload time |
| ProfileService.AvatarPathKeepsExtension | src/services/ProfileService.js:36-37 | the stored path has the uploaded file's extension |
| ProfileService.UploadAvatar | src/services/ProfileService.js:32-56 | a missing user id or file throws; an upload error is rethrown; otherwise the public URL of that path |
| ProfileService.ChangePassword | src/services/ProfileService.js:58-73 | a missing password or one under 6 characters throws before the provider is asked; otherwise the provider's answer |
| MiniGame.GenresDistinct | src/pages/MiniGamePage.jsx:4-13 | the eight genres are different names |
| MiniGame.RandomGenre | src/pages/MiniGamePage.jsx:21-23 | the genre picked is the one whose eighth of [0, 1) holds the random number |
| MiniGame.RandomGenreReachesAll | src/pages/MiniGamePage.jsx:21-23 | every genre can be picked |
| MiniGame.RearrangementHoldsEachGenreOnce | src/pages/MiniGamePage.jsx:26 | whatever order the random-comparator sort leaves the genres in, the list has eight entries, each a genre, none repeated |
| MiniGame.GenerateOptions | src/pages/MiniGamePage.jsx:25-28 | four different genres, the first four of the shuffled list |
| MiniGame.GuessMayBeMissing | src/pages/MiniGamePage.jsx:17-28 | the genre to guess can be drawn while no option is that genre |
| MiniGame.ButtonHighlight | src/pages/MiniGamePage.jsx:64-70 | green exactly for the round's genre once feedback shows; red exactly for the other genres after a wrong guess |
| MiniGame.HighlightAfterGuess | src/pages/MiniGamePage.jsx:64-70 | after a right guess only the right option is lit; after a wrong one every option is lit; between rounds none is |
| MiniGame.Round.constructor | src/pages/MiniGamePage.jsx:16-19 | the game starts at score 0 with no feedback and a drawn genre and options |
| MiniGame.Round.HandleGuess | src/pages/MiniGamePage.jsx:30-37 | a right guess adds one point and shows "correct"; a wrong one keeps the score and shows "wrong" |
| MiniGame.Round.NextRound | src/pages/MiniGamePage.jsx:38-42 | the timer clears the feedback and draws a new genre and options; the score stays |
| MiniGame.Round.ResetScore | src/pages/MiniGamePage.jsx:80-83 | the score and feedback clear; the round stays |

## Left out

- The database, the file store and the identity provider are not modelled. Their answers are parameters, so the contracts hold for any answer. Request shapes, row-level security, ordering by `added_at`, and the `cacheControl`/`upsert` options of the upload are therefore not modelled.
- Console logging is left out, and so are the warnings that only log, such as the user-id mismatch in `addToMyGames`.
- `ensureProfileExists` and its calls are left out. It catches its own errors, so `register` and `login` return the same outcome whether it succeeds or not. `logout` only calls the provider.
- `useMyGames` and the My Games page run as `async` functions under React. The model runs each one to completion, with no interleaving of two calls and no stale state from a closure.
- In the mini game, the timer callback is a separate method, `MiniGame.Round.NextRound`. The 800 ms delay and any guess made during it are not modelled. A score read from a stale render is not modelled either.
- `useEffect` wiring is left out: the scroll listener, the refresh on mount, and the `mygames:updated` listener, which only calls `load` again.
- `MyGamesPage.Page.UpdateField`: the request it sends and the `gameService` calls it makes are not part of this model. The answer's `data` is a parameter.
- `MyGamesPage.Page.Load`: `gameService.getMyGames` is not part of this model. Its result is a parameter.
- `CatalogView.Window.OnScroll`: the scroll-geometry test (`innerHeight + scrollY >= offsetHeight - 200`) is a boolean parameter.
- Text.Lower: only ASCII letters are lowered. Unicode case mapping is not modelled.
- Text.TrimStart and Text.TrimEnd: only ASCII white space is removed. Unicode spaces and line terminators are not.
- Text.LexCompare: compares by character code. It stands for `localeCompare`, whose collation is locale-dependent. Both are total orders that put equal titles level; the model does not reproduce locale order.
- CatalogView.DateKey: a release date is a timestamp, and a missing (null) date is the epoch, which is what `new Date(null)` gives. An unparseable date (`Invalid Date`, whose difference is NaN) is not modelled.
- CatalogView.RatingKey: ratings are integers. Fractional average ratings are not modelled.
- CatalogView.SortGames: modelled as a stable insertion sort. Every stable sort by a consistent comparator gives this list; the engine's own algorithm is not modelled.
- String lengths count characters. JavaScript counts UTF-16 code units, which only differs for characters outside the Basic Multilingual Plane (the 6-character password rule).
- Default arguments (`status = "wishlist"`, `notes = ""`) are not modelled. The caller always passes both.
- Arguments of the wrong JavaScript type, such as a non-string email or password, are not modelled.
- MiniGame.GenerateOptions: the random-comparator sort is a parameter, the order it leaves the genre list in. Its distribution is not modelled.
- MiniGame.RandomGenre: `Math.random()` is a real parameter in [0, 1). Floating-point rounding is not modelled.
- MyGamesService.GetMyGamesByUser: when the join query fails and the plain query returned rows, those rows come back with `games` set to null and are not filtered. The application's design says that an entry whose game does not resolve is excluded from the list. The model follows the code, which returns these rows.
- The "library changed" broadcast (`mygames:updated`) is left out. It is dispatched by the game detail page, which is not part of this model. `useMyGames` does not dispatch it, and the My Games page only reloads when it arrives.
