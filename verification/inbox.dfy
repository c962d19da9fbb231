/** What a user sees on the notification page for one (user, type, chat) key: the
    newest row with that key. The handlers write notifications with fixed keys,
    so an upsert or a create there must be known to leave every other key's
    newest row alone. */
module Inbox {
  import opened Wrappers
  import opened Notifications

  /** The newest row with the key, if any. */
  function Newest(t: Table, user: nat, kind: Kind, chat: nat): (r: Option<Notification>)
    ensures r.Some? <==> LatestMatch(t.rows, user, kind, Some(chat)).Some?
    ensures r.Some? ==> r.value == t.rows[LatestMatch(t.rows, user, kind, Some(chat)).value]
    ensures r.Some? ==> KeyMatches(r.value, user, kind, Some(chat))
  {
    match LatestMatch(t.rows, user, kind, Some(chat))
    case Some(i) => Some(t.rows[i])
    case None => None
  }

  /** The newest row with the key exists and has that status. */
  predicate Shows(t: Table, user: nat, kind: Kind, chat: nat, status: Status) {
    Newest(t, user, kind, chat).Some? && Newest(t, user, kind, chat).value.status == Some(status)
  }

  predicate SameKey(a: Notification, b: Notification) {
    a.userId == b.userId && a.kind == b.kind && a.chatId == b.chatId
  }

  /** Every key but one picks the same newest row, with the same contents. */
  ghost predicate KeepsOthers(t: Table, t': Table, user: nat, kind: Kind, chat: Option<nat>) {
    forall u: nat, k: Kind, c: Option<nat> | !(u == user && k == kind && c == chat) ::
      LatestMatch(t'.rows, u, k, c) == LatestMatch(t.rows, u, k, c)
      && (LatestMatch(t.rows, u, k, c).Some? ==>
            t'.rows[LatestMatch(t.rows, u, k, c).value] == t.rows[LatestMatch(t.rows, u, k, c).value])
  }

  /** The newest row with a key depends only on which rows carry the key. */
  lemma SameLatest(a: seq<Notification>, b: seq<Notification>, u: nat, k: Kind, c: Option<nat>)
    requires |a| <= |b|
    requires forall j | 0 <= j < |a| :: KeyMatches(b[j], u, k, c) == KeyMatches(a[j], u, k, c)
    requires forall j | |a| <= j < |b| :: !KeyMatches(b[j], u, k, c)
    ensures LatestMatch(b, u, k, c) == LatestMatch(a, u, k, c)
  {
    var ra := LatestMatch(a, u, k, c);
    var rb := LatestMatch(b, u, k, c);
    if ra.None? {
      assert forall j | 0 <= j < |b| :: !KeyMatches(b[j], u, k, c) by {
        forall j | 0 <= j < |b| ensures !KeyMatches(b[j], u, k, c) {
          if j < |a| {
            assert !KeyMatches(a[j], u, k, c);
          }
        }
      }
    } else {
      assert KeyMatches(b[ra.value], u, k, c);
    }
  }

  /** The last row carrying a key is the newest one. */
  lemma LatestIsLast(rows: seq<Notification>, u: nat, k: Kind, c: Option<nat>, i: nat)
    requires i < |rows| && KeyMatches(rows[i], u, k, c)
    requires forall j | i < j < |rows| :: !KeyMatches(rows[j], u, k, c)
    ensures LatestMatch(rows, u, k, c) == Some(i)
  {
    assert LatestMatch(rows, u, k, c).Some?;
  }

  /** `upsertNotification({ userId, type, chatId }, data)` with a user and a type
      present, which is how every handler calls it: at most one row is added and
      the key's newest row then carries the given status and body. What happens
      to every other key is stated by `PutKeepsOthers` and `PutElsewhere`. */
  function Put(t: Table, user: nat, kind: Kind, chat: nat, data: Data): (t': Table)
    ensures |t.rows| <= |t'.rows| <= |t.rows| + 1
    ensures Newest(t', user, kind, chat).Some?
    ensures data.status.Given? ==> Shows(t', user, kind, chat, data.status.value)
    ensures data.body.Given? ==> Newest(t', user, kind, chat).value.body == Some(data.body.value)
    ensures Stamped(t) ==> Stamped(t')
  {
    if LatestMatch(t.rows, user, kind, Some(chat)).Some? then
      PatchFacts(t, user, kind, chat, data);
      Upsert(t, Some(user), Some(kind), Some(chat), data).value.0
    else
      AppendFacts(t, user, kind, chat, data);
      Upsert(t, Some(user), Some(kind), Some(chat), data).value.0
  }

  /** The upsert of a key that has a row patches that row. */
  lemma PatchFacts(t: Table, user: nat, kind: Kind, chat: nat, data: Data)
    requires LatestMatch(t.rows, user, kind, Some(chat)).Some?
    ensures Upsert(t, Some(user), Some(kind), Some(chat), data).Success?
    ensures var t' := Upsert(t, Some(user), Some(kind), Some(chat), data).value.0;
      |t'.rows| == |t.rows|
      && (forall j | 0 <= j < |t.rows| :: SameKey(t'.rows[j], t.rows[j]))
      && LatestMatch(t'.rows, user, kind, Some(chat)) == LatestMatch(t.rows, user, kind, Some(chat))
      && (data.status.Given? ==> Shows(t', user, kind, chat, data.status.value))
      && (data.body.Given? ==> Newest(t', user, kind, chat).value.body == Some(data.body.value))
      && KeepsOthers(t, t', user, kind, Some(chat))
  {
    var (t', id) := Upsert(t, Some(user), Some(kind), Some(chat), data).value;
    assert t' == Update(t, Some(id), data);
    assert forall j | 0 <= j < |t.rows| :: SameKey(t'.rows[j], t.rows[j]);
    SameLatest(t.rows, t'.rows, user, kind, Some(chat));
    forall u: nat, k: Kind, c: Option<nat> | !(u == user && k == kind && c == Some(chat))
      ensures LatestMatch(t'.rows, u, k, c) == LatestMatch(t.rows, u, k, c)
      ensures LatestMatch(t.rows, u, k, c).Some? ==>
        t'.rows[LatestMatch(t.rows, u, k, c).value] == t.rows[LatestMatch(t.rows, u, k, c).value]
    {
      SameLatest(t.rows, t'.rows, u, k, c);
    }
  }

  /** The upsert of a key with no row appends one. */
  lemma AppendFacts(t: Table, user: nat, kind: Kind, chat: nat, data: Data)
    requires LatestMatch(t.rows, user, kind, Some(chat)).None?
    ensures Upsert(t, Some(user), Some(kind), Some(chat), data).Success?
    ensures var t' := Upsert(t, Some(user), Some(kind), Some(chat), data).value.0;
      t' == Create(t, Some(user), Some(kind), Some(chat), data).value.0
      && LatestMatch(t'.rows, user, kind, Some(chat)) == Some(|t.rows|)
      && KeepsOthers(t, t', user, kind, Some(chat))
  {
    CreateFacts(t, user, kind, chat, data);
  }

  /** Rows keep their keys, an added row carries the written key, and no other
      key's newest row changes. */
  lemma PutKeepsOthers(t: Table, user: nat, kind: Kind, chat: nat, data: Data)
    ensures var t' := Put(t, user, kind, chat, data);
      (forall j | 0 <= j < |t.rows| :: SameKey(t'.rows[j], t.rows[j]))
      && (forall j | |t.rows| <= j < |t'.rows| :: KeyMatches(t'.rows[j], user, kind, Some(chat)))
      && KeepsOthers(t, t', user, kind, Some(chat))
  {
    if LatestMatch(t.rows, user, kind, Some(chat)).Some? {
      PatchFacts(t, user, kind, chat, data);
    } else {
      AppendFacts(t, user, kind, chat, data);
    }
  }

  /** Rows keep their keys and an added row carries the written key. */
  lemma PutKeepsKeys(t: Table, user: nat, kind: Kind, chat: nat, data: Data)
    ensures var t' := Put(t, user, kind, chat, data);
      (forall j | 0 <= j < |t.rows| :: SameKey(t'.rows[j], t.rows[j]))
      && (forall j | |t.rows| <= j < |t'.rows| :: KeyMatches(t'.rows[j], user, kind, Some(chat)))
  {
    PutKeepsOthers(t, user, kind, chat, data);
  }

  /** A write under one key leaves what every other key shows. */
  lemma PutElsewhere(t: Table, user: nat, kind: Kind, chat: nat, data: Data, u: nat, k: Kind, c: nat)
    requires !(u == user && k == kind && c == chat)
    ensures Newest(Put(t, user, kind, chat, data), u, k, c) == Newest(t, u, k, c)
  {
    PutKeepsOthers(t, user, kind, chat, data);
    ThirdKey(t, Put(t, user, kind, chat, data), user, kind, Some(chat), u, k, c);
  }

  /** A status shown under a key survives a later upsert under any key, provided
      an upsert under that same key writes that status. */
  lemma PutStillShows(t: Table, user: nat, kind: Kind, chat: nat, data: Data, u: nat, k: Kind, c: nat, s: Status)
    requires Shows(t, u, k, c, s)
    requires u == user && k == kind && c == chat ==> data.status == Given(s)
    ensures Shows(Put(t, user, kind, chat, data), u, k, c, s)
  {
    if !(u == user && k == kind && c == chat) {
      PutElsewhere(t, user, kind, chat, data, u, k, c);
    }
  }

  /** `createNotification(...)` with a user and a type present: one row carrying
      the key is appended after the untouched old ones, and it is the key's newest
      row. */
  function Add(t: Table, user: nat, kind: Kind, chat: nat, data: Data): (t': Table)
    ensures |t'.rows| == |t.rows| + 1 && t'.rows[..|t.rows|] == t.rows
    ensures forall j | 0 <= j < |t.rows| :: t'.rows[j] == t.rows[j]
    ensures KeyMatches(t'.rows[|t.rows|], user, kind, Some(chat))
    ensures Newest(t', user, kind, chat) == Some(t'.rows[|t.rows|])
    ensures data.status.Given? ==> Shows(t', user, kind, chat, data.status.value)
    ensures Stamped(t) ==> Stamped(t')
  {
    CreateFacts(t, user, kind, chat, data);
    Create(t, Some(user), Some(kind), Some(chat), data).value.0
  }

  lemma CreateFacts(t: Table, user: nat, kind: Kind, chat: nat, data: Data)
    ensures Create(t, Some(user), Some(kind), Some(chat), data).Success?
    ensures var t' := Create(t, Some(user), Some(kind), Some(chat), data).value.0;
      LatestMatch(t'.rows, user, kind, Some(chat)) == Some(|t.rows|)
      && KeepsOthers(t, t', user, kind, Some(chat))
  {
    var t' := Create(t, Some(user), Some(kind), Some(chat), data).value.0;
    assert forall j | 0 <= j < |t.rows| :: t'.rows[j] == t.rows[j];
    LatestIsLast(t'.rows, user, kind, Some(chat), |t.rows|);
    forall u: nat, k: Kind, c: Option<nat> | !(u == user && k == kind && c == Some(chat))
      ensures LatestMatch(t'.rows, u, k, c) == LatestMatch(t.rows, u, k, c)
    {
      SameLatest(t.rows, t'.rows, u, k, c);
    }
  }

  /** No other key's newest row changes when a row is created. */
  lemma AddElsewhere(t: Table, user: nat, kind: Kind, chat: nat, data: Data, u: nat, k: Kind, c: nat)
    requires !(u == user && k == kind && c == chat)
    ensures Newest(Add(t, user, kind, chat, data), u, k, c) == Newest(t, u, k, c)
  {
    CreateFacts(t, user, kind, chat, data);
    ThirdKey(t, Add(t, user, kind, chat, data), user, kind, Some(chat), u, k, c);
  }

  /** A write that keeps every other key keeps the newest row of a third key. */
  lemma ThirdKey(t: Table, t': Table, user: nat, kind: Kind, chat: Option<nat>, u: nat, k: Kind, c: nat)
    requires KeepsOthers(t, t', user, kind, chat)
    requires !(u == user && k == kind && Some(c) == chat)
    ensures Newest(t', u, k, c) == Newest(t, u, k, c)
  {
    assert LatestMatch(t'.rows, u, k, Some(c)) == LatestMatch(t.rows, u, k, Some(c));
  }
}
