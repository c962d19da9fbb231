/** The notification table: one row per message shown on a user's notification
    page, created, upserted by a (user, type, chat) key, patched field by field,
    marked read, archived and listed in priority order. A row's id is its position
    in the table, and every write stamps rows with the table's clock. */
module Notifications {
  import opened Wrappers
  import opened Sorting

  datatype Status = Unread | Action | Read | Resolved | Archived

  datatype Kind = OwnerWaiting | OwnerReview | OwnerApproved | OwnerDeclined
                | ContactShareRequest | ContactAvailable | ListingPublished
                | MatchFound | VolunteerAssigned | VolunteerActive

  /** A JSON value inside a payload, as far as the bot puts one there. */
  datatype Value = Str(s: string) | Num(n: int) | Flag(b: bool) | JsonNull

  type Payload = map<string, Value>

  /** The `payload` column: JSON text, SQL NULL, or text that does not parse. */
  datatype StoredPayload = Json(p: Payload) | SqlNull | Garbled

  /** A property of a create or patch argument: left out, `null`, or given. */
  datatype Field<T> = Absent | Null | Given(value: T)

  /** The optional part of a create, upsert or patch argument. */
  datatype Data = Data(title: Field<string>, body: Field<string>, status: Field<Status>,
                       payload: Field<Payload>, listingId: Field<nat>)

  const NoData := Data(Absent, Absent, Absent, Absent, Absent)

  /** A row; `status` is `None` when the column is NULL. */
  datatype Notification = Notification(
    userId: nat, chatId: Option<nat>, listingId: Option<nat>, kind: Kind,
    title: Option<string>, body: Option<string>, payload: StoredPayload,
    status: Option<Status>, createdAt: nat, updatedAt: nat, readAt: Option<nat>)

  datatype Table = Table(rows: seq<Notification>, clock: nat)

  const Empty := Table([], 0)

  datatype NotificationError = MissingUserOrType

  /** Rows are stamped by a clock that only moves forward: creation times grow with
      the row's position and every stamp lies in the past. */
  predicate Stamped(t: Table) {
    (forall i, j | 0 <= i < j < |t.rows| :: t.rows[i].createdAt < t.rows[j].createdAt)
    && (forall i | 0 <= i < |t.rows| :: t.rows[i].createdAt < t.clock && t.rows[i].updatedAt < t.clock)
  }

  function GivenOr<T>(f: Field<T>): (r: Option<T>)
    ensures f.Given? <==> r.Some?
    ensures f.Given? ==> r == Some(f.value)
  {
    if f.Given? then Some(f.value) else None
  }

  /** `createNotification`: rejects a missing user or type; otherwise appends a row
      with the given fields, an UNREAD status unless one is given (`null` is stored
      as NULL), an empty payload unless one is given, and returns its id. */
  function Create(t: Table, userId: Option<nat>, kind: Option<Kind>, chatId: Option<nat>, data: Data)
    : (r: Result<(Table, nat), NotificationError>)
    ensures r.Failure? <==> userId.None? || kind.None?
    ensures r.Success? ==> var (t', id) := r.value;
      |t'.rows| == id + 1 && id == |t.rows| && t'.rows[..id] == t.rows
      && t'.rows[id].userId == userId.value && t'.rows[id].kind == kind.value
      && t'.rows[id].chatId == chatId && t'.rows[id].readAt.None?
      && t'.rows[id].title == GivenOr(data.title) && t'.rows[id].body == GivenOr(data.body)
      && t'.rows[id].listingId == GivenOr(data.listingId)
      && (data.status.Absent? ==> t'.rows[id].status == Some(Unread))
      && (data.status.Null? ==> t'.rows[id].status.None?)
      && (data.status.Given? ==> t'.rows[id].status == Some(data.status.value))
      && (!data.payload.Given? ==> t'.rows[id].payload == Json(map[]))
      && (data.payload.Given? ==> t'.rows[id].payload == Json(data.payload.value))
    ensures r.Success? && Stamped(t) ==> Stamped(r.value.0)
  {
    if userId.None? || kind.None? then Failure(MissingUserOrType)
    else
      var status := match data.status
        case Absent => Some(Unread)
        case Null => None
        case Given(s) => Some(s);
      var payload := if data.payload.Given? then Json(data.payload.value) else Json(map[]);
      var row := Notification(userId.value, chatId, GivenOr(data.listingId), kind.value,
                              GivenOr(data.title), GivenOr(data.body), payload, status,
                              t.clock, t.clock, None);
      Success((Table(t.rows + [row], t.clock + 1), |t.rows|))
  }

  /** Does a row carry the upsert key? A missing chat id matches `chat_id IS NULL`. */
  predicate KeyMatches(n: Notification, userId: nat, kind: Kind, chatId: Option<nat>) {
    n.userId == userId && n.kind == kind && n.chatId == chatId
  }

  /** The most recently created row with the key: the last one in the table. */
  function LatestMatch(rows: seq<Notification>, userId: nat, kind: Kind, chatId: Option<nat>)
    : (r: Option<nat>)
    ensures r.Some? ==> r.value < |rows| && KeyMatches(rows[r.value], userId, kind, chatId)
                        && forall j | r.value < j < |rows| :: !KeyMatches(rows[j], userId, kind, chatId)
    ensures r.None? <==> forall j | 0 <= j < |rows| :: !KeyMatches(rows[j], userId, kind, chatId)
    decreases |rows|
  {
    if |rows| == 0 then None
    else if KeyMatches(rows[|rows| - 1], userId, kind, chatId) then Some(|rows| - 1)
    else LatestMatch(rows[..|rows| - 1], userId, kind, chatId)
  }

  /** In a stamped table the row `LatestMatch` picks is the newest one with the key,
      as `ORDER BY created_at DESC LIMIT 1` demands. */
  lemma LatestIsNewest(t: Table, userId: nat, kind: Kind, chatId: Option<nat>, j: nat)
    requires Stamped(t)
    requires j < |t.rows| && KeyMatches(t.rows[j], userId, kind, chatId)
    ensures LatestMatch(t.rows, userId, kind, chatId).Some?
    ensures t.rows[j].createdAt <= t.rows[LatestMatch(t.rows, userId, kind, chatId).value].createdAt
  {
  }

  /** Does the patch name at least one column? */
  predicate Writes(patch: Data) {
    !patch.title.Absent? || !patch.body.Absent? || !patch.status.Absent?
    || !patch.payload.Absent? || !patch.listingId.Absent?
  }

  /** The row after a patch: each named column takes its new value (`null` clears
      title, body and listing, resets the status to UNREAD and the payload to `{}`). */
  function Patched(n: Notification, patch: Data, now: nat): Notification {
    n.(title := if patch.title.Absent? then n.title else GivenOr(patch.title),
       body := if patch.body.Absent? then n.body else GivenOr(patch.body),
       status := match patch.status
         case Absent => n.status
         case Null => Some(Unread)
         case Given(s) => Some(s),
       payload := match patch.payload
         case Absent => n.payload
         case Null => Json(map[])
         case Given(p) => Json(p),
       listingId := if patch.listingId.Absent? then n.listingId else GivenOr(patch.listingId),
       updatedAt := now)
  }

  /** `updateNotification(id, patch)`: nothing for a missing id, an unknown id or a
      patch naming no column; otherwise the named columns of that one row change
      and the row's update time moves on. */
  function Update(t: Table, id: Option<nat>, patch: Data): (t': Table)
    ensures |t'.rows| == |t.rows|
    ensures id.None? || id.value >= |t.rows| || !Writes(patch) ==> t' == t
    ensures forall j | 0 <= j < |t.rows| && Some(j) != id :: t'.rows[j] == t.rows[j]
    ensures id.Some? && id.value < |t.rows| ==> var (n, n') := (t.rows[id.value], t'.rows[id.value]);
      n'.userId == n.userId && n'.kind == n.kind && n'.chatId == n.chatId && n'.createdAt == n.createdAt
      && n'.readAt == n.readAt
      && (patch.title.Absent? ==> n'.title == n.title)
      && (patch.body.Absent? ==> n'.body == n.body)
      && (patch.status.Absent? ==> n'.status == n.status)
      && (patch.status.Null? ==> n'.status == Some(Unread))
      && (patch.status.Given? ==> n'.status == Some(patch.status.value))
      && (patch.payload.Absent? ==> n'.payload == n.payload)
      && (patch.listingId.Absent? ==> n'.listingId == n.listingId)
      && (!patch.title.Absent? ==> n'.title == GivenOr(patch.title))
      && (!patch.body.Absent? ==> n'.body == GivenOr(patch.body))
    ensures Stamped(t) ==> Stamped(t')
  {
    if id.None? || id.value >= |t.rows| || !Writes(patch) then t
    else Table(t.rows[id.value := Patched(t.rows[id.value], patch, t.clock)], t.clock + 1)
  }

  /** `upsertNotification(key, data)`: rejects a missing user or type; patches the
      newest row with the key when there is one and returns its id; otherwise
      creates a row with the key and the data. */
  function Upsert(t: Table, userId: Option<nat>, kind: Option<Kind>, chatId: Option<nat>, data: Data)
    : (r: Result<(Table, nat), NotificationError>)
    ensures r.Failure? <==> userId.None? || kind.None?
    ensures r.Success? ==> (r.value.1 < |r.value.0.rows|
      && KeyMatches(r.value.0.rows[r.value.1], userId.value, kind.value, chatId))
    ensures r.Success? && LatestMatch(t.rows, userId.value, kind.value, chatId).Some? ==>
      r.value.1 == LatestMatch(t.rows, userId.value, kind.value, chatId).value
      && r.value.0 == Update(t, Some(r.value.1), data)
    ensures r.Success? && LatestMatch(t.rows, userId.value, kind.value, chatId).None? ==>
      r == Create(t, userId, kind, chatId, data)
    ensures r.Success? && Stamped(t) ==> Stamped(r.value.0)
  {
    if userId.None? || kind.None? then Failure(MissingUserOrType)
    else match LatestMatch(t.rows, userId.value, kind.value, chatId)
      case None => Create(t, userId, kind, chatId, data)
      case Some(id) => Success((Update(t, Some(id), data), id))
  }

  /** Upserting the same key twice adds at most one row, and the second call patches
      the row the first one returned. */
  lemma UpsertTwiceAddsNoRow(t: Table, userId: nat, kind: Kind, chatId: Option<nat>, d1: Data, d2: Data)
    ensures Upsert(t, Some(userId), Some(kind), chatId, d1).Success?
    ensures var (t1, id1) := Upsert(t, Some(userId), Some(kind), chatId, d1).value;
      var (t2, id2) := Upsert(t1, Some(userId), Some(kind), chatId, d2).value;
      id2 == id1 && |t2.rows| == |t1.rows| && |t1.rows| <= |t.rows| + 1
  {
    var (t1, id1) := Upsert(t, Some(userId), Some(kind), chatId, d1).value;
    assert LatestMatch(t1.rows, userId, kind, chatId).Some?;
  }

  /** `markNotificationRead(id)`: an ARCHIVED row stays ARCHIVED, every other status
      (NULL included) becomes READ, and the read time is set. */
  function MarkRead(t: Table, id: Option<nat>): (t': Table)
    ensures |t'.rows| == |t.rows|
    ensures id.None? || id.value >= |t.rows| ==> t' == t
    ensures forall j | 0 <= j < |t.rows| && Some(j) != id :: t'.rows[j] == t.rows[j]
    ensures id.Some? && id.value < |t.rows| ==>
      (t.rows[id.value].status == Some(Archived) ==> t'.rows[id.value].status == Some(Archived))
      && (t.rows[id.value].status != Some(Archived) ==> t'.rows[id.value].status == Some(Read))
      && t'.rows[id.value].readAt.Some?
      && t'.rows[id.value] == t.rows[id.value].(status := t'.rows[id.value].status,
           readAt := t'.rows[id.value].readAt, updatedAt := t'.rows[id.value].updatedAt)
    ensures Stamped(t) ==> Stamped(t')
  {
    if id.None? || id.value >= |t.rows| then t
    else
      var n := t.rows[id.value];
      var status := if n.status == Some(Archived) then n.status else Some(Read);
      Table(t.rows[id.value := n.(status := status, readAt := Some(t.clock), updatedAt := t.clock)], t.clock + 1)
  }

  /** `archiveNotification(id)`: the row becomes ARCHIVED whatever its status. */
  function Archive(t: Table, id: Option<nat>): (t': Table)
    ensures |t'.rows| == |t.rows|
    ensures id.None? || id.value >= |t.rows| ==> t' == t
    ensures forall j | 0 <= j < |t.rows| && Some(j) != id :: t'.rows[j] == t.rows[j]
    ensures id.Some? && id.value < |t.rows| ==>
      t'.rows[id.value].status == Some(Archived)
      && t'.rows[id.value] == t.rows[id.value].(status := Some(Archived), updatedAt := t'.rows[id.value].updatedAt)
    ensures Stamped(t) ==> Stamped(t')
  {
    if id.None? || id.value >= |t.rows| then t
    else Table(t.rows[id.value := t.rows[id.value].(status := Some(Archived), updatedAt := t.clock)], t.clock + 1)
  }

  /** Reading an archived notification does not bring it back. */
  lemma ArchivedStaysArchived(t: Table, id: nat)
    requires id < |t.rows|
    ensures MarkRead(Archive(t, Some(id)), Some(id)).rows[id].status == Some(Archived)
  {
  }

  /** Marking read twice is marking read once, as far as statuses go. */
  lemma MarkReadSettles(t: Table, id: nat)
    requires id < |t.rows|
    ensures MarkRead(MarkRead(t, Some(id)), Some(id)).rows[id].status == MarkRead(t, Some(id)).rows[id].status
  {
  }

  // ---- listing -------------------------------------------------------------------

  /** `FIELD(status, 'ACTION', 'UNREAD', 'READ', 'RESOLVED', 'ARCHIVED')`: NULL is 0. */
  function Rank(s: Option<Status>): (k: nat)
    ensures k <= 5
    ensures s.Some? ==> k >= 1
  {
    match s
    case None => 0
    case Some(Action) => 1
    case Some(Unread) => 2
    case Some(Read) => 3
    case Some(Resolved) => 4
    case Some(Archived) => 5
  }

  /** A listed notification (`mapNotificationRow`) with its id. */
  datatype View = View(id: nat, userId: nat, chatId: Option<nat>, listingId: Option<nat>, kind: Kind,
                       title: Option<string>, body: Option<string>, payload: Payload,
                       status: Option<Status>, createdAt: nat, updatedAt: nat, readAt: Option<nat>)

  /** `mapNotificationRow`: the columns as they are, with an empty payload when the
      stored JSON is missing or does not parse. */
  function MapRow(id: nat, n: Notification): (v: View)
    ensures n.payload.Json? ==> v.payload == n.payload.p
    ensures !n.payload.Json? ==> v.payload == map[]
    ensures v.id == id && v.userId == n.userId && v.status == n.status && v.kind == n.kind
            && v.createdAt == n.createdAt && v.chatId == n.chatId && v.title == n.title && v.body == n.body
  {
    View(id, n.userId, n.chatId, n.listingId, n.kind, n.title, n.body,
         if n.payload.Json? then n.payload.p else map[], n.status, n.createdAt, n.updatedAt, n.readAt)
  }

  type Entry = (nat, Notification)

  /** Each row paired with its id. */
  function Indexed(rows: seq<Notification>): (r: seq<Entry>)
    ensures |r| == |rows|
    ensures forall i | 0 <= i < |r| :: r[i] == (i, rows[i])
  {
    seq(|rows|, i requires 0 <= i < |rows| => (i, rows[i]))
  }

  /** The `WHERE` clause: the user's rows, without ARCHIVED ones (nor, as SQL compares
      NULL, rows whose status is NULL) unless archived rows are asked for. */
  predicate Eligible(userId: nat, includeArchived: bool, e: Entry) {
    e.1.userId == userId && (includeArchived || (e.1.status.Some? && e.1.status.value != Archived))
  }

  /** A bound on every creation time in the table. */
  function Latest(rows: seq<Notification>): (m: nat)
    ensures forall i | 0 <= i < |rows| :: rows[i].createdAt <= m
    decreases |rows|
  {
    if |rows| == 0 then 0
    else
      var rest := Latest(rows[1..]);
      assert forall i | 1 <= i < |rows| :: rows[i] == rows[1..][i - 1];
      if rows[0].createdAt > rest then rows[0].createdAt else rest
  }

  /** The `ORDER BY` clause as one integer: status rank first, newer rows first
      within a rank. */
  function OrderKey(bound: nat, e: Entry): int {
    Rank(e.1.status) * (bound + 1) - e.1.createdAt
  }

  predicate IsRowOf(t: Table, e: Entry) {
    e.0 < |t.rows| && e.1 == t.rows[e.0]
  }

  function Keep(userId: nat, includeArchived: bool): Entry -> bool {
    e => Eligible(userId, includeArchived, e)
  }

  function Key(bound: nat): Entry -> int {
    e => OrderKey(bound, e)
  }

  /** The eligible rows in listing order. */
  function Ranked(t: Table, userId: nat, includeArchived: bool): (r: seq<Entry>)
    ensures forall i | 0 <= i < |r| :: Eligible(userId, includeArchived, r[i]) && IsRowOf(t, r[i])
    ensures SortedBy(r, Key(Latest(t.rows)))
    ensures multiset(r) == multiset(Filter(Indexed(t.rows), Keep(userId, includeArchived)))
    ensures |r| == |Filter(Indexed(t.rows), Keep(userId, includeArchived))|
  {
    var f := Filter(Indexed(t.rows), Keep(userId, includeArchived));
    EligibleRows(t, userId, includeArchived);
    var r := SortBy(f, Key(Latest(t.rows)));
    SortedMembers(t, userId, includeArchived, f, r);
    r
  }

  lemma EligibleRows(t: Table, userId: nat, includeArchived: bool)
    ensures forall x | x in Filter(Indexed(t.rows), Keep(userId, includeArchived)) ::
      Eligible(userId, includeArchived, x) && IsRowOf(t, x)
  {
    var rows := Indexed(t.rows);
    var f := Filter(rows, Keep(userId, includeArchived));
    forall x | x in f ensures Eligible(userId, includeArchived, x) && IsRowOf(t, x) {
      var i :| 0 <= i < |f| && f[i] == x;
      assert Keep(userId, includeArchived)(f[i]);
      assert x in multiset(f);
      assert x in multiset(rows);
      var j :| 0 <= j < |rows| && rows[j] == x;
    }
  }

  lemma SortedMembers(t: Table, userId: nat, includeArchived: bool, f: seq<Entry>, r: seq<Entry>)
    requires multiset(r) == multiset(f)
    requires forall x | x in f :: Eligible(userId, includeArchived, x) && IsRowOf(t, x)
    ensures forall i | 0 <= i < |r| :: Eligible(userId, includeArchived, r[i]) && IsRowOf(t, r[i])
  {
    forall i | 0 <= i < |r| ensures Eligible(userId, includeArchived, r[i]) && IsRowOf(t, r[i]) {
      assert r[i] in multiset(r);
      assert r[i] in f;
    }
  }

  function Views(top: seq<Entry>): (r: seq<View>)
    ensures |r| == |top|
    ensures forall i | 0 <= i < |r| :: r[i] == MapRow(top[i].0, top[i].1)
  {
    seq(|top|, i requires 0 <= i < |top| => MapRow(top[i].0, top[i].1))
  }

  /** `listNotifications(userId, { limit, includeArchived })`: nothing without a
      user; otherwise at most `limit` of the user's eligible rows, by status rank
      (ACTION, UNREAD, READ, RESOLVED, ARCHIVED) and then newest first. */
  function List(t: Table, userId: Option<nat>, limit: nat, includeArchived: bool): (r: seq<View>)
    ensures userId.None? ==> r == []
    ensures |r| <= limit
    ensures forall i | 0 <= i < |r| :: (r[i].userId == userId.value
      && r[i].id < |t.rows| && r[i] == MapRow(r[i].id, t.rows[r[i].id]))
    ensures !includeArchived ==> forall i | 0 <= i < |r| :: r[i].status.Some? && r[i].status.value != Archived
    ensures forall i, j | 0 <= i < j < |r| ::
      Rank(r[i].status) < Rank(r[j].status)
      || (Rank(r[i].status) == Rank(r[j].status) && r[i].createdAt >= r[j].createdAt)
    ensures userId.Some? ==>
      var n := |Filter(Indexed(t.rows), Keep(userId.value, includeArchived))|;
      |r| == if n < limit then n else limit
  {
    if userId.None? then []
    else
      var top := Take(Ranked(t, userId.value, includeArchived), limit);
      TopFacts(t, userId.value, limit, includeArchived);
      ViewsRows(t, userId.value, includeArchived, top);
      ViewsOrder(top);
      Views(top)
  }

  lemma ViewsRows(t: Table, userId: nat, includeArchived: bool, top: seq<Entry>)
    requires forall i | 0 <= i < |top| :: Eligible(userId, includeArchived, top[i]) && IsRowOf(t, top[i])
    ensures var r := Views(top);
      forall i | 0 <= i < |r| :: r[i].userId == userId && r[i].id < |t.rows| && r[i] == MapRow(r[i].id, t.rows[r[i].id])
    ensures var r := Views(top);
      !includeArchived ==> forall i | 0 <= i < |r| :: r[i].status.Some? && r[i].status.value != Archived
  {
    var r := Views(top);
    forall i | 0 <= i < |r|
      ensures r[i].userId == userId && r[i].id < |t.rows| && r[i] == MapRow(r[i].id, t.rows[r[i].id])
      ensures !includeArchived ==> r[i].status.Some? && r[i].status.value != Archived
    {
      assert r[i] == MapRow(top[i].0, top[i].1);
      assert Eligible(userId, includeArchived, top[i]) && IsRowOf(t, top[i]);
    }
  }

  lemma ViewsOrder(top: seq<Entry>)
    requires forall i, j | 0 <= i < j < |top| ::
      Rank(top[i].1.status) < Rank(top[j].1.status)
      || (Rank(top[i].1.status) == Rank(top[j].1.status) && top[i].1.createdAt >= top[j].1.createdAt)
    ensures var r := Views(top);
      forall i, j | 0 <= i < j < |r| ::
        Rank(r[i].status) < Rank(r[j].status)
        || (Rank(r[i].status) == Rank(r[j].status) && r[i].createdAt >= r[j].createdAt)
  {
    var r := Views(top);
    forall i, j | 0 <= i < j < |r|
      ensures Rank(r[i].status) < Rank(r[j].status)
              || (Rank(r[i].status) == Rank(r[j].status) && r[i].createdAt >= r[j].createdAt)
    {
      assert r[i] == MapRow(top[i].0, top[i].1) && r[j] == MapRow(top[j].0, top[j].1);
    }
  }

  lemma TopFacts(t: Table, userId: nat, limit: nat, includeArchived: bool)
    ensures var top := Take(Ranked(t, userId, includeArchived), limit);
      (forall i | 0 <= i < |top| :: Eligible(userId, includeArchived, top[i]) && IsRowOf(t, top[i]))
      && forall i, j | 0 <= i < j < |top| ::
           Rank(top[i].1.status) < Rank(top[j].1.status)
           || (Rank(top[i].1.status) == Rank(top[j].1.status) && top[i].1.createdAt >= top[j].1.createdAt)
  {
    var ranked := Ranked(t, userId, includeArchived);
    var top := Take(ranked, limit);
    assert forall i | 0 <= i < |top| :: top[i] == ranked[i];
    ListOrder(ranked, Latest(t.rows));
  }

  /** The integer key orders by rank first and then by creation time, newest first. */
  lemma KeyOrder(bound: nat, a: Entry, b: Entry)
    requires a.1.createdAt <= bound && b.1.createdAt <= bound
    ensures OrderKey(bound, a) <= OrderKey(bound, b) ==>
      Rank(a.1.status) < Rank(b.1.status)
      || (Rank(a.1.status) == Rank(b.1.status) && a.1.createdAt >= b.1.createdAt)
  {
    var ra, rb := Rank(a.1.status), Rank(b.1.status);
    if ra > rb {
      assert ra * (bound + 1) >= (rb + 1) * (bound + 1) by {
        assert ra >= rb + 1;
      }
      assert (rb + 1) * (bound + 1) == rb * (bound + 1) + bound + 1;
    }
  }

  lemma ListOrder(s: seq<Entry>, bound: nat)
    requires SortedBy(s, Key(bound))
    requires forall i | 0 <= i < |s| :: s[i].1.createdAt <= bound
    ensures forall i, j | 0 <= i < j < |s| ::
      Rank(s[i].1.status) < Rank(s[j].1.status)
      || (Rank(s[i].1.status) == Rank(s[j].1.status) && s[i].1.createdAt >= s[j].1.createdAt)
  {
    forall i, j | 0 <= i < j < |s|
      ensures Rank(s[i].1.status) < Rank(s[j].1.status)
              || (Rank(s[i].1.status) == Rank(s[j].1.status) && s[i].1.createdAt >= s[j].1.createdAt)
    {
      KeyOrder(bound, s[i], s[j]);
      assert Key(bound)(s[i]) <= Key(bound)(s[j]);
    }
  }

  /** No eligible row is passed over for one listed after it: an eligible row that
      is not listed ranks at or after every listed row. */
  lemma ListIsTop(t: Table, userId: nat, limit: nat, includeArchived: bool, id: nat)
    requires id < |t.rows| && Eligible(userId, includeArchived, (id, t.rows[id]))
    requires forall i | 0 <= i < |List(t, Some(userId), limit, includeArchived)| ::
               List(t, Some(userId), limit, includeArchived)[i].id != id
    ensures forall v | v in List(t, Some(userId), limit, includeArchived) ::
      Rank(v.status) < Rank(t.rows[id].status)
      || (Rank(v.status) == Rank(t.rows[id].status) && v.createdAt >= t.rows[id].createdAt)
  {
    var ranked := Ranked(t, userId, includeArchived);
    var key := Key(Latest(t.rows));
    var e := (id, t.rows[id]);
    EligibleIsRanked(t, userId, includeArchived, id);
    var top := Take(ranked, limit);
    var r := List(t, Some(userId), limit, includeArchived);
    ListIsViews(t, userId, limit, includeArchived);
    RankedBounded(t, userId, includeArchived);
    assert e !in top by {
      forall i | 0 <= i < |top| ensures top[i] != e {
        assert r[i].id == top[i].0;
      }
    }
    forall v | v in r
      ensures Rank(v.status) < Rank(t.rows[id].status)
              || (Rank(v.status) == Rank(t.rows[id].status) && v.createdAt >= t.rows[id].createdAt)
    {
      var i :| 0 <= i < |r| && r[i] == v;
      assert v.status == top[i].1.status && v.createdAt == top[i].1.createdAt;
      OutsiderRanksLater(ranked, limit, Latest(t.rows), e, i);
    }
  }

  /** Every listed entry was created no later than the table's bound. */
  lemma RankedBounded(t: Table, userId: nat, includeArchived: bool)
    ensures var ranked := Ranked(t, userId, includeArchived);
      forall j | 0 <= j < |ranked| :: ranked[j].1.createdAt <= Latest(t.rows)
  {
    var ranked := Ranked(t, userId, includeArchived);
    forall j | 0 <= j < |ranked| ensures ranked[j].1.createdAt <= Latest(t.rows) {
      assert IsRowOf(t, ranked[j]);
    }
  }

  /** An entry of a sorted sequence left out of its prefix ranks at or after every
      entry of the prefix. */
  lemma OutsiderRanksLater(ranked: seq<Entry>, limit: nat, bound: nat, e: Entry, i: nat)
    requires SortedBy(ranked, Key(bound))
    requires forall j | 0 <= j < |ranked| :: ranked[j].1.createdAt <= bound
    requires e in ranked && e !in Take(ranked, limit) && i < |Take(ranked, limit)|
    ensures var a := Take(ranked, limit)[i];
      Rank(a.1.status) < Rank(e.1.status)
      || (Rank(a.1.status) == Rank(e.1.status) && a.1.createdAt >= e.1.createdAt)
  {
    var top := Take(ranked, limit);
    TakeIsTop(ranked, limit, Key(bound), e);
    assert top[i] in top && top[i] == ranked[i];
    var j :| 0 <= j < |ranked| && ranked[j] == e;
    KeyOrder(bound, top[i], e);
  }

  lemma EligibleIsRanked(t: Table, userId: nat, includeArchived: bool, id: nat)
    requires id < |t.rows| && Eligible(userId, includeArchived, (id, t.rows[id]))
    ensures (id, t.rows[id]) in multiset(Ranked(t, userId, includeArchived))
  {
    var e := (id, t.rows[id]);
    assert Indexed(t.rows)[id] == e;
    assert e in Filter(Indexed(t.rows), Keep(userId, includeArchived));
  }

  lemma ListIsViews(t: Table, userId: nat, limit: nat, includeArchived: bool)
    ensures List(t, Some(userId), limit, includeArchived) == Views(Take(Ranked(t, userId, includeArchived), limit))
  {
  }
}
