/** The personal-library service (src/services/myGamesService.js). Every call
    first reads the current session and works for the session's user only;
    the database's answers are parameters: values, or total functions from
    the query the service sends to the answer it gets. */
module MyGamesService {
  import opened Common
  import opened Seqs

  /** The `games` record embedded in a library row by the join. */
  datatype GameSummary = GameSummary(
    id: int,
    title: Option<string>,
    slug: Option<string>,
    coverUrl: Option<string>,
    description: Option<string>,
    releaseDate: Option<string>)

  /** A `my_games` row; `games` is None where the row has no game attached. */
  datatype Entry = Entry(
    id: int,
    userId: string,
    gameId: Option<int>,
    status: string,
    progress: Option<int>,
    rating: Option<int>,
    notes: Option<string>,
    addedAt: int,
    games: Option<GameSummary>)

  /** An object of library-row fields, as sent to an update or returned by
      one: None means the key is absent from the object, Some(None) that it
      is present and null. Any field of a row can appear. */
  datatype Patch = Patch(
    id: Option<int>,
    userId: Option<string>,
    gameId: Option<Option<int>>,
    status: Option<string>,
    progress: Option<Option<int>>,
    rating: Option<Option<int>>,
    notes: Option<Option<string>>,
    addedAt: Option<int>,
    games: Option<Option<GameSummary>>)

  /** The row `addToMyGames` inserts. */
  datatype NewRow = NewRow(userId: string, gameId: int, status: string, notes: string)

  /** The two filters `removeFromMyGames` can delete by. */
  datatype DeleteFilter = ById(id: int, userId: string) | ByUserAndGame(userId: string, gameId: int)

  /** The `id, user_id` pair the ownership check of `updateMyGame` selects. */
  datatype RowRef = RowRef(id: int, userId: string)

  /** What `.single()` resolves to in `getMyGameForUser`: data and error apart. */
  datatype Lookup = Lookup(data: Option<Entry>, error: Option<Error>)

  const EntryNotFoundMessage: string := "Entry not found or you don't have permission to update it."
  const UpdateBlockedMessage: string := "Update failed. Please check RLS policies for UPDATE operation on my_games table."
  const NoRowsUpdatedMessage: string := "Update failed: No rows were updated."
  const NeedIdMessage: string := "removeFromMyGames needs id or gameId"
  const NoRowsCode: string := "PGRST116"

  // ----------------------------------------------------- getMyGamesByUser

  /** A row the page can show: its game is attached and has a non-empty slug. */
  predicate ValidEntry(e: Entry) {
    e.games.Some? && TruthyText(e.games.value.slug)
  }

  /** The final `filter`: drops rows without a game or without a slug. */
  function KeepValid(data: seq<Entry>): (r: seq<Entry>)
    ensures forall e :: e in r <==> e in data && ValidEntry(e)
    ensures forall e :: multiset(r)[e] == if ValidEntry(e) then multiset(data)[e] else 0
    ensures IsSubsequence(r, data)
  {
    Filter(ValidEntry, data)
  }

  /** `hasNullGames`: there are rows, and none has a game attached. */
  predicate AllGamesMissing(data: seq<Entry>) {
    |data| > 0 && forall e :: e in data ==> e.games.None?
  }

  /** The join-failure fallback: the raw rows with `games: null`. */
  function WithoutGames(raw: seq<Entry>): (r: seq<Entry>)
    ensures |r| == |raw|
    ensures forall i :: 0 <= i < |raw| ==> r[i] == raw[i].(games := None)
  {
    Map((e: Entry) => e.(games := None), raw)
  }

  /** `data.map(entry => entry.game_id).filter(id => id !== null)` */
  function NonNullGameIds(data: seq<Entry>): (ids: seq<int>)
    ensures forall id :: id in ids <==> exists e :: e in data && e.gameId == Some(id)
  {
    if data == [] then []
    else
      var rest := NonNullGameIds(data[1..]);
      assert data == [data[0]] + data[1..];
      if data[0].gameId.Some? then [data[0].gameId.value] + rest else rest
  }

  /** `[...new Set(ids)]`: each id once, at its first occurrence. */
  function Dedup(ids: seq<int>): (r: seq<int>)
    ensures forall x :: x in r <==> x in ids
    ensures forall i, j :: 0 <= i < j < |r| ==> r[i] != r[j]
  {
    if ids == [] then []
    else
      var init := Dedup(ids[..|ids| - 1]);
      assert ids == ids[..|ids| - 1] + [ids[|ids| - 1]];
      if ids[|ids| - 1] in init then init else init + [ids[|ids| - 1]]
  }

  /** The ids the separate games query asks for. */
  function DistinctGameIds(data: seq<Entry>): (ids: seq<int>)
    ensures forall i, j :: 0 <= i < j < |ids| ==> ids[i] != ids[j]
    ensures forall id :: id in ids <==> exists e :: e in data && e.gameId == Some(id)
  {
    Dedup(NonNullGameIds(data))
  }

  /** The map that `gamesMap.set(game.id, game)` builds, game by game: a later
      game with the same id replaces an earlier one. */
  function GamesMapOf(games: seq<GameSummary>): (m: map<int, GameSummary>)
    ensures m.Keys == set g | g in games :: g.id
    ensures forall id :: id in m ==> m[id] in games && m[id].id == id
  {
    if games == [] then map[]
    else
      var last := games[|games| - 1];
      var m := GamesMapOf(games[..|games| - 1]);
      assert games == games[..|games| - 1] + [last];
      m[last.id := last]
  }

  /** The game the map holds for an id is the last fetched game with that id. */
  lemma {:induction false} GamesMapLastWins(games: seq<GameSummary>, i: int)
    requires 0 <= i < |games|
    requires forall j :: i < j < |games| ==> games[j].id != games[i].id
    ensures GamesMapOf(games)[games[i].id] == games[i]
  {
    if i < |games| - 1 {
      GamesMapLastWins(games[..|games| - 1], i);
    }
  }

  /** The `forEach` loop that fills `gamesMap`. */
  method BuildGamesMap(games: seq<GameSummary>) returns (m: map<int, GameSummary>)
    ensures m == GamesMapOf(games)
  {
    m := map[];
    for i := 0 to |games|
      invariant m == GamesMapOf(games[..i])
    {
      assert games[..i + 1][..i] == games[..i];
      m := m[games[i].id := games[i]];
    }
    assert games[..|games|] == games;
  }

  /** `gamesMap.get(entry.game_id) || null` */
  function LookupGame(m: map<int, GameSummary>, gameId: Option<int>): Option<GameSummary> {
    if gameId.Some? && gameId.value in m then Some(m[gameId.value]) else None
  }

  /** `mergedData`: each row with the fetched game for its `game_id`. */
  function AttachGames(data: seq<Entry>, m: map<int, GameSummary>): (r: seq<Entry>)
    ensures |r| == |data|
    ensures forall i :: 0 <= i < |data| ==> r[i] == data[i].(games := LookupGame(m, data[i].gameId))
  {
    Map((e: Entry) => e.(games := LookupGame(m, e.gameId)), data)
  }

  /** On the separate-fetch path, a row survives only if its game was fetched
      (a game deleted upstream drops the row), and it then carries that game. */
  lemma SeparateFetchDropsOrphans(data: seq<Entry>, games: seq<GameSummary>)
    ensures forall e :: e in KeepValid(AttachGames(data, GamesMapOf(games))) ==>
      && e.gameId.Some?
      && e.games.Some? && e.games.value in games && e.games.value.id == e.gameId.value
      && e.(games := None) in WithoutGames(data)
  {
    var m := GamesMapOf(games);
    var merged := AttachGames(data, m);
    forall e | e in KeepValid(merged)
      ensures e.gameId.Some? && e.games.Some? && e.games.value in games && e.games.value.id == e.gameId.value
      ensures e.(games := None) in WithoutGames(data)
    {
      var i :| 0 <= i < |merged| && merged[i] == e;
      AttachedRow(data, m, games, i);
    }
  }

  /** One row of the separate-fetch merge, with its game attached. */
  lemma AttachedRow(data: seq<Entry>, m: map<int, GameSummary>, games: seq<GameSummary>, i: int)
    requires m == GamesMapOf(games) && 0 <= i < |data|
    requires AttachGames(data, m)[i].games.Some?
    ensures var e := AttachGames(data, m)[i];
      && e.gameId.Some? && e.games.value in games && e.games.value.id == e.gameId.value
      && e.(games := None) in WithoutGames(data)
  {
    var e := AttachGames(data, m)[i];
    assert e == data[i].(games := LookupGame(m, data[i].gameId));
    assert data[i].gameId.Some? && data[i].gameId.value in m;
    assert e.(games := None) == WithoutGames(data)[i];
  }

  /** `getMyGamesByUser`: `raw` answers the plain query, `joined` the query
      with the `games` join and `fetchGames` the separate games query for a
      list of ids. */
  method GetMyGamesByUser(session: Option<string>, raw: Result<seq<Entry>>, joined: Result<seq<Entry>>,
                          fetchGames: seq<int> -> Result<seq<GameSummary>>)
    returns (r: Result<seq<Entry>>)
    ensures session.None? ==> r == Err(Thrown(NoSessionMessage))
    ensures session.Some? && raw.Err? ==> r == Err(raw.error)
    ensures session.Some? && raw.Ok? && joined.Err? ==>
      r == if |raw.value| > 0 then Ok(WithoutGames(raw.value)) else Err(joined.error)
    ensures session.Some? && raw.Ok? && joined.Ok? && !AllGamesMissing(joined.value) ==>
      r == Ok(KeepValid(joined.value))
    ensures session.Some? && raw.Ok? && joined.Ok? && AllGamesMissing(joined.value) ==>
      var fetched := fetchGames(DistinctGameIds(joined.value));
      r == if fetched.Err? then Ok([]) else Ok(KeepValid(AttachGames(joined.value, GamesMapOf(fetched.value))))
    // whenever the join query succeeded, every row returned can be shown
    ensures r.Ok? && joined.Ok? ==> forall e :: e in r.value ==> ValidEntry(e)
  {
    if session.None? {
      return Err(Thrown(NoSessionMessage));
    }
    if raw.Err? {
      return Err(raw.error);
    }
    if joined.Err? {
      if |raw.value| > 0 {
        return Ok(WithoutGames(raw.value));
      }
      return Err(joined.error);
    }
    var data := joined.value;
    if AllGamesMissing(data) {
      var ids := DistinctGameIds(data);
      var fetched := fetchGames(ids);
      if fetched.Err? {
        return Ok([]);
      }
      var gamesMap := BuildGamesMap(fetched.value);
      return Ok(KeepValid(AttachGames(data, gamesMap)));
    }
    return Ok(KeepValid(data));
  }

  // ---------------------------------------------------------------- writes

  /** `addToMyGames`: the row inserted carries the session's user id, whatever
      `userId` the caller passed. */
  function AddToMyGames(session: Option<string>, userId: string, gameId: int, status: string, notes: string,
                        insert: NewRow -> Result<Entry>): (r: Result<Entry>)
    ensures session.None? ==> r == Err(Error("UNAUTHORIZED", NoSessionMessage))
    ensures session.Some? ==> r == insert(NewRow(session.value, gameId, status, notes))
  {
    if session.None? then Err(Error("UNAUTHORIZED", NoSessionMessage))
    else insert(NewRow(session.value, gameId, status, notes))
  }

  /** The outcome of a delete: true, or the error it reported. */
  function Deleted(outcome: Option<Error>): Result<bool> {
    if outcome.Some? then Err(outcome.value) else Ok(true)
  }

  /** `removeFromMyGames`: by entry id when one is given, otherwise by game id,
      always restricted to the session's user. */
  function RemoveFromMyGames(session: Option<string>, id: Option<int>, userId: Option<string>, gameId: Option<int>,
                             delete: DeleteFilter -> Option<Error>): (r: Result<bool>)
    ensures session.None? ==> r == Err(Thrown(NoSessionMessage))
    ensures session.Some? && Truthy(id) ==> r == Deleted(delete(ById(id.value, session.value)))
    ensures session.Some? && !Truthy(id) && Truthy(gameId) ==>
      r == Deleted(delete(ByUserAndGame(session.value, gameId.value)))
    ensures session.Some? && !Truthy(id) && !Truthy(gameId) ==> r == Err(Thrown(NeedIdMessage))
    ensures r.Ok? ==> r.value
  {
    if session.None? then Err(Thrown(NoSessionMessage))
    else if Truthy(id) then Deleted(delete(ById(id.value, session.value)))
    else if Truthy(gameId) then Deleted(delete(ByUserAndGame(session.value, gameId.value)))
    else Err(Thrown(NeedIdMessage))
  }

  /** `updateMyGame`: `check` answers the ownership query and `apply` the
      update, each for the entry id and the session's user. */
  function UpdateMyGame(session: Option<string>, id: int, data: Patch,
                        check: (int, string) -> Result<Option<RowRef>>,
                        apply: (int, string, Patch) -> Result<Option<Entry>>): (r: Result<Entry>)
    ensures session.None? ==> r == Err(Thrown(NoSessionMessage))
    ensures session.Some? && (check(id, session.value).Err? || check(id, session.value).value.None?) ==>
      r == Err(Thrown(EntryNotFoundMessage))
    ensures r.Ok? ==>
      session.Some? && check(id, session.value).Ok? && check(id, session.value).value.Some? &&
      apply(id, session.value, data) == Ok(Some(r.value))
    ensures session.Some? && check(id, session.value).Ok? && check(id, session.value).value.Some? ==>
      var updated := apply(id, session.value, data);
      && (updated.Err? && updated.error.code == NoRowsCode ==> r == Err(Thrown(UpdateBlockedMessage)))
      && (updated.Err? && updated.error.code != NoRowsCode ==> r == Err(updated.error))
      && (updated == Ok(None) ==> r == Err(Thrown(NoRowsUpdatedMessage)))
      && (updated.Ok? && updated.value.Some? ==> r == Ok(updated.value.value))
  {
    if session.None? then Err(Thrown(NoSessionMessage))
    else
      var owned := check(id, session.value);
      if owned.Err? || owned.value.None? then Err(Thrown(EntryNotFoundMessage))
      else
        var updated := apply(id, session.value, data);
        if updated.Err? then
          if updated.error.code == NoRowsCode then Err(Thrown(UpdateBlockedMessage)) else Err(updated.error)
        else if updated.value.None? then Err(Thrown(NoRowsUpdatedMessage))
        else Ok(updated.value.value)
  }

  /** `getMyGameForUser`: null without a session; otherwise whatever row the
      lookup for the session's user found (its errors are only logged). */
  function GetMyGameForUser(session: Option<string>, userId: string, gameId: int,
                            query: (string, int) -> Lookup): (r: Option<Entry>)
    ensures session.None? ==> r.None?
    ensures session.Some? ==> r == query(session.value, gameId).data
  {
    if session.None? then None else query(session.value, gameId).data
  }

  // --------------------------------------------------------- session scope

  /** The user id a caller passes to `addToMyGames` plays no part: the row is
      always inserted for the session's user. */
  lemma AddIgnoresCallerUserId(session: Option<string>, u1: string, u2: string, gameId: int, status: string, notes: string,
                               insert: NewRow -> Result<Entry>)
    ensures AddToMyGames(session, u1, gameId, status, notes, insert) == AddToMyGames(session, u2, gameId, status, notes, insert)
  {
  }

  /** A removal depends only on how the store answers deletes of the session
      user's rows, never on the caller's `userId`: no other user's row can be
      touched. */
  lemma RemoveScopedToSessionUser(session: Option<string>, id: Option<int>, u1: Option<string>, u2: Option<string>,
                                  gameId: Option<int>, d1: DeleteFilter -> Option<Error>, d2: DeleteFilter -> Option<Error>)
    requires session.Some? ==> forall f: DeleteFilter :: f.userId == session.value ==> d1(f) == d2(f)
    ensures RemoveFromMyGames(session, id, u1, gameId, d1) == RemoveFromMyGames(session, id, u2, gameId, d2)
  {
  }

  /** An update depends only on how the store answers the ownership check and
      the update for the session user's rows. */
  lemma UpdateScopedToSessionUser(session: Option<string>, id: int, data: Patch,
                                  c1: (int, string) -> Result<Option<RowRef>>, c2: (int, string) -> Result<Option<RowRef>>,
                                  a1: (int, string, Patch) -> Result<Option<Entry>>, a2: (int, string, Patch) -> Result<Option<Entry>>)
    requires session.Some? ==> c1(id, session.value) == c2(id, session.value) && a1(id, session.value, data) == a2(id, session.value, data)
    ensures UpdateMyGame(session, id, data, c1, a1) == UpdateMyGame(session, id, data, c2, a2)
  {
  }

  /** The lookup ignores the caller's `userId` and reads only the session
      user's rows. */
  lemma LookupScopedToSessionUser(session: Option<string>, u1: string, u2: string, gameId: int,
                                  q1: (string, int) -> Lookup, q2: (string, int) -> Lookup)
    requires session.Some? ==> q1(session.value, gameId) == q2(session.value, gameId)
    ensures GetMyGameForUser(session, u1, gameId, q1) == GetMyGameForUser(session, u2, gameId, q2)
  {
  }
}
