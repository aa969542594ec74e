/** The My Games page (src/pages/MyGamesPage.jsx): the library list it loads,
    the status filter over it, and the merge of an update's answer into the
    list. */
module MyGamesPage {
  import opened Common
  import opened Seqs
  import opened MyGamesService

  const AllStatuses: string := "all"

  /** `filtered`: "all" keeps every entry, any other value the entries with
      exactly that status. */
  function FilterByStatus(games: seq<Entry>, filterStatus: string): (r: seq<Entry>)
    ensures filterStatus == AllStatuses ==> r == games
    ensures filterStatus != AllStatuses ==> forall e :: e in r <==> e in games && e.status == filterStatus
    ensures forall e :: multiset(r)[e] == if filterStatus == AllStatuses || e.status == filterStatus then multiset(games)[e] else 0
    ensures IsSubsequence(r, games)
  {
    if filterStatus == AllStatuses then
      FilterAllPass((g: Entry) => true, games);
      games
    else Filter((g: Entry) => g.status == filterStatus, games)
  }

  /** `{...g, ...data}`: every field `data` has overrides the entry's; every
      other field is kept. */
  function MergeEntry(g: Entry, data: Patch): Entry {
    Entry(data.id.GetOr(g.id),
          data.userId.GetOr(g.userId),
          data.gameId.GetOr(g.gameId),
          data.status.GetOr(g.status),
          data.progress.GetOr(g.progress),
          data.rating.GetOr(g.rating),
          data.notes.GetOr(g.notes),
          data.addedAt.GetOr(g.addedAt),
          data.games.GetOr(g.games))
  }

  /** An answer with no fields. */
  const NoFields: Patch := Patch(None, None, None, None, None, None, None, None, None)

  /** The merge only touches the fields the answer has. */
  lemma MergeEntryFields(g: Entry, data: Patch)
    ensures var m := MergeEntry(g, data);
      && (data.id.None? ==> m.id == g.id) && (data.id.Some? ==> m.id == data.id.value)
      && (data.userId.None? ==> m.userId == g.userId) && (data.userId.Some? ==> m.userId == data.userId.value)
      && (data.gameId.None? ==> m.gameId == g.gameId) && (data.gameId.Some? ==> m.gameId == data.gameId.value)
      && (data.status.None? ==> m.status == g.status) && (data.status.Some? ==> m.status == data.status.value)
      && (data.progress.None? ==> m.progress == g.progress) && (data.progress.Some? ==> m.progress == data.progress.value)
      && (data.rating.None? ==> m.rating == g.rating) && (data.rating.Some? ==> m.rating == data.rating.value)
      && (data.notes.None? ==> m.notes == g.notes) && (data.notes.Some? ==> m.notes == data.notes.value)
      && (data.addedAt.None? ==> m.addedAt == g.addedAt) && (data.addedAt.Some? ==> m.addedAt == data.addedAt.value)
      && (data.games.None? ==> m.games == g.games) && (data.games.Some? ==> m.games == data.games.value)
  {
  }

  /** Merging the same answer twice is merging it once; an empty answer
      changes nothing. */
  lemma MergeEntryIdempotent(g: Entry, data: Patch)
    ensures MergeEntry(MergeEntry(g, data), data) == MergeEntry(g, data)
    ensures MergeEntry(g, NoFields) == g
  {
  }

  /** `prev.map(g => g.id === entryId ? {...g, ...data} : g)` */
  function MergeById(games: seq<Entry>, entryId: int, data: Patch): (r: seq<Entry>)
    ensures |r| == |games|
    ensures forall i :: 0 <= i < |games| ==> r[i] == if games[i].id == entryId then MergeEntry(games[i], data) else games[i]
  {
    Map((g: Entry) => if g.id == entryId then MergeEntry(g, data) else g, games)
  }

  /** A merge keeps every row in its place. A row's id, game id and attached
      game change only when it is the merged row and the answer carries that
      key; an answer without those keys leaves every row's identity as it
      was. */
  lemma MergeByIdKeepsRows(games: seq<Entry>, entryId: int, data: Patch)
    ensures forall i :: 0 <= i < |games| ==>
      var r := MergeById(games, entryId, data)[i];
      var merged := games[i].id == entryId;
      && r.id == (if merged && data.id.Some? then data.id.value else games[i].id)
      && r.gameId == (if merged && data.gameId.Some? then data.gameId.value else games[i].gameId)
      && r.games == (if merged && data.games.Some? then data.games.value else games[i].games)
    ensures data.id.None? && data.gameId.None? && data.games.None? ==>
      forall i :: 0 <= i < |games| ==>
        var r := MergeById(games, entryId, data)[i];
        r.id == games[i].id && r.gameId == games[i].gameId && r.games == games[i].games
  {
  }

  /** `entry.progress ?? 0` */
  function ProgressShown(e: Entry): (p: int)
    ensures e.progress.None? ==> p == 0
    ensures e.progress.Some? ==> p == e.progress.value
  {
    e.progress.GetOr(0)
  }

  /** What a number input shows: an empty box or a number. */
  datatype Shown = Blank | Number(value: int)

  /** `entry.rating ?? ""`: a missing rating leaves the box empty rather than
      showing 0. */
  function RatingShown(e: Entry): (r: Shown)
    ensures r == Blank <==> e.rating.None?
    ensures e.rating.Some? ==> r == Number(e.rating.value)
  {
    if e.rating.Some? then Number(e.rating.value) else Blank
  }

  /** The stored rating an input box stands for. */
  function StoredRating(shown: Shown): Option<int> {
    if shown.Number? then Some(shown.value) else None
  }

  /** The rating box loses nothing: reading back what it shows gives the
      stored rating, so a missing rating and a rating of 0 look different,
      while a missing progress shows exactly like a progress of 0. */
  lemma RatingBoxReadsBack(e: Entry)
    ensures StoredRating(RatingShown(e)) == e.rating
    ensures e.progress.None? ==> ProgressShown(e) == ProgressShown(e.(progress := Some(0)))
  {
  }

  class Page {
    var games: seq<Entry>
    var loading: bool
    /** How many times the library has been fetched. */
    ghost var fetches: nat

    constructor ()
      ensures games == [] && loading && fetches == 0
    {
      games := [];
      loading := true;
      fetches := 0;
    }

    /** `load`; `fetched` is what the library fetch resolved to (its data may
        be null) or threw. A throw escapes `load`, so the page stays loading. */
    method Load(user: Option<string>, fetched: Result<Option<seq<Entry>>>)
      modifies this
      ensures user.None? ==> games == [] && !loading && fetches == old(fetches)
      ensures user.Some? ==> fetches == old(fetches) + 1
      ensures user.Some? && fetched.Ok? ==> games == fetched.value.GetOr([]) && !loading
      ensures user.Some? && fetched.Err? ==> games == old(games) && loading
    {
      loading := true;
      if user.None? {
        games := [];
        loading := false;
        return;
      }
      fetches := fetches + 1;
      if fetched.Err? {
        return;
      }
      games := fetched.value.GetOr([]);
      loading := false;
    }

    /** `updateField`; `answer` holds the `data` of what the update resolved
        to, or what it threw (the list is then left alone). */
    method UpdateField(entryId: int, answer: Result<Patch>)
      modifies this`games
      ensures games == if answer.Ok? then MergeById(old(games), entryId, answer.value) else old(games)
      ensures |games| == |old(games)|
    {
      if answer.Ok? {
        games := MergeById(games, entryId, answer.value);
      }
    }
  }
}
