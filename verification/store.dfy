/** Everything the bot keeps in its database, as one value: users, sessions,
    chats, notifications and published listings. A listing's id is its position
    in the table. */
module Store {
  import opened Wrappers
  import Users
  import Chats
  import Notifications
  import Sessions
  import Drafts
  import Vault

  /** A `listings` row with its secrets, as `persistListing` writes it. */
  datatype ListingRow = ListingRow(author: Users.UserId, payload: Drafts.ListingPayload)

  datatype World = World(
    users: seq<Users.User>,
    sessions: Sessions.Table,
    chats: Chats.Store,
    notes: Notifications.Table,
    listings: seq<ListingRow>)

  /** `fetchListingWithSecrets(id)`: the row, when the id names one. */
  function FetchListing(w: World, id: Option<nat>): (r: Option<ListingRow>)
    ensures r.Some? <==> id.Some? && id.value < |w.listings|
    ensures r.Some? ==> r.value == w.listings[id.value]
  {
    if id.Some? && id.value < |w.listings| then Some(w.listings[id.value]) else None
  }

  /** `fetchListingTitle(id)`. */
  function ListingTitle(w: World, id: Option<nat>): (r: Option<string>)
    ensures r.Some? <==> FetchListing(w, id).Some?
    ensures r.Some? ==> r.value == FetchListing(w, id).value.payload.title
  {
    match FetchListing(w, id)
    case Some(row) => Some(row.payload.title)
    case None => None
  }

  /** The ownership questions of a listing: the stored secrets' questions, in
      order, without the empty ones. */
  function Questions(row: ListingRow): (qs: seq<string>)
    ensures forall i | 0 <= i < |qs| :: qs[i] != ""
    ensures |qs| <= |row.payload.secrets|
  {
    QuestionsOf(row.payload.secrets)
  }

  function QuestionsOf(secrets: seq<Vault.StoredSecret>): (qs: seq<string>)
    ensures forall i | 0 <= i < |qs| :: qs[i] != ""
    ensures |qs| <= |secrets|
    ensures forall q | q in qs :: exists s | s in secrets :: s.question == q
  {
    if |secrets| == 0 then []
    else
      var rest := QuestionsOf(secrets[1..]);
      assert forall s | s in secrets[1..] :: s in secrets;
      if secrets[0].question != "" then [secrets[0].question] + rest else rest
  }

  /** `fetchStateRecord(user)`. */
  function FetchRecord(w: World, user: Users.UserId): (r: Option<Sessions.Record>)
    ensures r.Some? <==> user in w.sessions
    ensures r.Some? ==> r.value == w.sessions[user]
  {
    if user in w.sessions then Some(w.sessions[user]) else None
  }

  /** `saveStateRecord(user, step, payload)`: an upsert of the user's row; no other
      user's row and no other table changes. */
  function SaveRecord(w: World, user: Users.UserId, rec: Sessions.Record): (w': World)
    ensures FetchRecord(w', user) == Some(rec)
    ensures w' == w.(sessions := w'.sessions)
    ensures w'.sessions.Keys == w.sessions.Keys + {user}
    ensures forall u | u != user && u in w.sessions :: w'.sessions[u] == w.sessions[u]
  {
    w.(sessions := w.sessions[user := rec])
  }

  /** Saving whatever a transition left saved; nothing when it saved nothing. */
  function SaveSettled(w: World, user: Users.UserId, rec: Option<Sessions.Record>): (w': World)
    ensures rec.None? ==> w' == w
    ensures rec.Some? ==> FetchRecord(w', user) == rec
    ensures w' == w.(sessions := w'.sessions)
    ensures forall u | u != user :: (u in w'.sessions <==> u in w.sessions)
    ensures forall u | u != user && u in w.sessions :: w'.sessions[u] == w.sessions[u]
  {
    match rec
    case None => w
    case Some(r) => SaveRecord(w, user, r)
  }

  /** `clearStateRecord(user)`. */
  function ClearRecord(w: World, user: Users.UserId): (w': World)
    ensures user !in w'.sessions
    ensures w' == w.(sessions := w'.sessions)
    ensures forall u | u != user :: (u in w'.sessions <==> u in w.sessions)
    ensures forall u | u != user && u in w.sessions :: w'.sessions[u] == w.sessions[u]
  {
    w.(sessions := w.sessions - {user})
  }

  /** A saved row is read back until the next save or clear of the same user: a
      second save replaces the first, and a clear removes it. */
  lemma SaveThenFetch(w: World, user: Users.UserId, a: Sessions.Record, b: Sessions.Record)
    ensures FetchRecord(SaveRecord(SaveRecord(w, user, a), user, b), user) == Some(b)
    ensures SaveRecord(SaveRecord(w, user, a), user, b) == SaveRecord(w, user, b)
    ensures FetchRecord(ClearRecord(SaveRecord(w, user, a), user), user).None?
  {
  }
}
