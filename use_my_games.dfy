/** The `useMyGames` hook (src/hooks/useMyGames.js): the signed-in user's
    library list, replaced step by step by `refresh`, `add`, `remove` and
    `update`. Each method receives what the library service resolved to (or
    threw), or the answers to the remote calls the service makes, as
    parameters; a ghost counter records how often the service was
    called, so that "no call was made" can be stated. */
module UseMyGames {
  import opened Common
  import opened Seqs
  import opened MyGamesService

  const NotAuthenticatedMessage: string := "Not authenticated"
  const NeedIdOrGameIdMessage: string := "Need id or gameId"

  /** `prev.filter(m => m.id !== id)` */
  function RemoveById(s: seq<Entry>, id: int): (r: seq<Entry>)
    ensures forall e :: e in r <==> e in s && e.id != id
    ensures forall e :: multiset(r)[e] == if e.id != id then multiset(s)[e] else 0
    ensures IsSubsequence(r, s)
  {
    Filter((m: Entry) => m.id != id, s)
  }

  /** `prev.filter(m => m.game_id !== gameId)` */
  function RemoveByGame(s: seq<Entry>, gameId: int): (r: seq<Entry>)
    ensures forall e :: e in r <==> e in s && e.gameId != Some(gameId)
    ensures forall e :: multiset(r)[e] == if e.gameId != Some(gameId) then multiset(s)[e] else 0
    ensures IsSubsequence(r, s)
  {
    Filter((m: Entry) => m.gameId != Some(gameId), s)
  }

  /** `prev.map(m => m.id === id ? updated : m)`: a whole-row replacement. */
  function ReplaceById(s: seq<Entry>, id: int, updated: Entry): (r: seq<Entry>)
    ensures |r| == |s|
    ensures forall i :: 0 <= i < |s| ==> r[i] == if s[i].id == id then updated else s[i]
  {
    Map((m: Entry) => if m.id == id then updated else m, s)
  }

  /** Adding a row whose id is new and then removing by that id gives back
      the list as it was. */
  lemma AddThenRemoveRestores(s: seq<Entry>, row: Entry)
    requires forall e :: e in s ==> e.id != row.id
    ensures RemoveById([row] + s, row.id) == s
  {
    assert ([row] + s)[1..] == s;
    FilterAllPass((m: Entry) => m.id != row.id, s);
  }

  /** Replacing by an id no entry has changes nothing. */
  lemma ReplaceMissingIdIsIdentity(s: seq<Entry>, id: int, updated: Entry)
    requires forall e :: e in s ==> e.id != id
    ensures ReplaceById(s, id, updated) == s
  {
  }

  class Library {
    /** `user?.id || null` when the hook was rendered. */
    const userId: Option<string>
    var myGames: seq<Entry>
    var loading: bool
    /** How many times the library service has been called. */
    ghost var serviceCalls: nat

    constructor (userId: Option<string>)
      ensures this.userId == userId
      ensures myGames == [] && !loading && serviceCalls == 0
    {
      this.userId := userId;
      myGames := [];
      loading := false;
      serviceCalls := 0;
    }

    /** `refresh`; `fetched` is what `getMyGamesByUser` resolved to or threw.
        A failure is only logged. */
    method Refresh(fetched: Result<seq<Entry>>)
      modifies this
      ensures userId.None? ==> myGames == [] && serviceCalls == old(serviceCalls) && loading == old(loading)
      ensures userId.Some? ==> !loading
      ensures userId.Some? ==> serviceCalls == old(serviceCalls) + 1
      ensures userId.Some? ==> myGames == if fetched.Ok? then fetched.value else old(myGames)
    {
      if userId.None? {
        myGames := [];
        return;
      }
      loading := true;
      serviceCalls := serviceCalls + 1;
      if fetched.Ok? {
        myGames := fetched.value;
      }
      loading := false;
    }

    /** `add`; `session` and `insert` answer the calls `addToMyGames` makes.
        The new row goes first. */
    method Add(session: Option<string>, gameId: int, status: string, notes: string,
               insert: NewRow -> Result<Entry>) returns (r: Result<Entry>)
      modifies this`myGames, this`serviceCalls
      ensures userId.None? ==>
        r == Err(Thrown(NotAuthenticatedMessage)) && myGames == old(myGames) && serviceCalls == old(serviceCalls)
      ensures userId.Some? ==>
        r == AddToMyGames(session, userId.value, gameId, status, notes, insert) && serviceCalls == old(serviceCalls) + 1
      ensures myGames == if r.Ok? then [r.value] + old(myGames) else old(myGames)
    {
      if userId.None? {
        return Err(Thrown(NotAuthenticatedMessage));
      }
      serviceCalls := serviceCalls + 1;
      r := AddToMyGames(session, userId.value, gameId, status, notes, insert);
      if r.Ok? {
        myGames := [r.value] + myGames;
      }
    }

    /** `remove({id, gameId})`; `session` and `delete` answer the calls
        `removeFromMyGames` makes. */
    method Remove(session: Option<string>, id: Option<int>, gameId: Option<int>,
                  delete: DeleteFilter -> Option<Error>) returns (r: Result<bool>)
      modifies this`myGames, this`serviceCalls
      ensures userId.None? ==>
        r == Err(Thrown(NotAuthenticatedMessage)) && myGames == old(myGames) && serviceCalls == old(serviceCalls)
      ensures userId.Some? && !Truthy(id) && !Truthy(gameId) ==>
        r == Err(Thrown(NeedIdOrGameIdMessage)) && myGames == old(myGames) && serviceCalls == old(serviceCalls)
      ensures userId.Some? && (Truthy(id) || Truthy(gameId)) ==>
        r == RemoveFromMyGames(session, id, userId, gameId, delete) && serviceCalls == old(serviceCalls) + 1
      ensures r.Err? ==> myGames == old(myGames)
      ensures r.Ok? && Truthy(id) ==> myGames == RemoveById(old(myGames), id.value)
      ensures r.Ok? && !Truthy(id) ==> Truthy(gameId) && myGames == RemoveByGame(old(myGames), gameId.value)
    {
      if userId.None? {
        return Err(Thrown(NotAuthenticatedMessage));
      }
      if !Truthy(id) && !Truthy(gameId) {
        return Err(Thrown(NeedIdOrGameIdMessage));
      }
      serviceCalls := serviceCalls + 1;
      r := RemoveFromMyGames(session, id, userId, gameId, delete);
      if r.Err? {
        return;
      }
      if Truthy(id) {
        myGames := RemoveById(myGames, id.value);
      } else {
        myGames := RemoveByGame(myGames, gameId.value);
      }
    }

    /** `update(id, data)`; `session`, `check` and `apply` answer the calls
        `updateMyGame` makes. The hook itself checks no user. */
    method Update(session: Option<string>, id: int, data: Patch,
                  check: (int, string) -> Result<Option<RowRef>>,
                  apply: (int, string, Patch) -> Result<Option<Entry>>) returns (r: Result<Entry>)
      modifies this`myGames, this`serviceCalls
      ensures r == UpdateMyGame(session, id, data, check, apply) && serviceCalls == old(serviceCalls) + 1
      ensures myGames == if r.Ok? then ReplaceById(old(myGames), id, r.value) else old(myGames)
      ensures |myGames| == |old(myGames)|
    {
      serviceCalls := serviceCalls + 1;
      r := UpdateMyGame(session, id, data, check, apply);
      if r.Ok? {
        myGames := ReplaceById(myGames, id, r.value);
      }
    }
  }
}
