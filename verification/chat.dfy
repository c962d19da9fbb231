/** Chats between the author of a LOST listing (the claimant) and the author of a
    FOUND listing (the holder): the chat rows, the membership table keyed by
    (chat, user) and the message log. A chat's id is its position in the table. */
module Chats {
  import opened Wrappers
  import opened Sorting
  import Notifications

  datatype ChatType = OwnerCheck | Dialog

  datatype ChatStatus = Pending | Active | Declined | Closed

  datatype Role = Claimant | Holder | Observer

  datatype Chat = Chat(lostListing: nat, foundListing: nat, initiator: nat, holder: nat, claimant: nat,
                       kind: ChatType, status: ChatStatus, lastMessageAt: Option<nat>, updatedAt: nat)

  datatype Member = Member(chat: nat, user: nat, role: Role)

  datatype Sender = UserSender(id: nat) | SystemSender

  datatype Message = Message(chat: nat, sender: Sender, body: string, meta: Notifications.Payload, createdAt: nat)

  datatype Store = Store(chats: seq<Chat>, members: seq<Member>, messages: seq<Message>, clock: nat)

  const Empty := Store([], [], [], 0)

  /** The primary key of `chat_members`: one row per (chat, user). */
  predicate UniqueMembers(members: seq<Member>) {
    forall i, j | 0 <= i < j < |members| ::
      members[i].chat != members[j].chat || members[i].user != members[j].user
  }

  /** The row for a (chat, user) pair, if any. */
  function MemberRow(members: seq<Member>, chat: nat, user: nat): (r: Option<nat>)
    ensures r.Some? ==> r.value < |members| && members[r.value].chat == chat && members[r.value].user == user
    ensures r.None? <==> forall j | 0 <= j < |members| :: members[j].chat != chat || members[j].user != user
    decreases |members|
  {
    if |members| == 0 then None
    else if members[|members| - 1].chat == chat && members[|members| - 1].user == user then Some(|members| - 1)
    else MemberRow(members[..|members| - 1], chat, user)
  }

  /** The user's role in the chat, if a member. */
  function RoleOf(members: seq<Member>, chat: nat, user: nat): Option<Role> {
    match MemberRow(members, chat, user)
    case Some(i) => Some(members[i].role)
    case None => None
  }

  /** `ensureMember(chatId, userId, role)`: insert, or on a duplicate (chat, user)
      key overwrite the role. */
  function EnsureMember(members: seq<Member>, chat: nat, user: nat, role: Role): (r: seq<Member>)
    ensures UniqueMembers(members) ==> UniqueMembers(r)
    ensures UniqueMembers(members) ==> RoleOf(r, chat, user) == Some(role)
    ensures forall c, u | c != chat || u != user :: RoleOf(r, c, u) == RoleOf(members, c, u)
    ensures |r| == |members| + (if MemberRow(members, chat, user).None? then 1 else 0)
  {
    match MemberRow(members, chat, user)
    case Some(i) =>
      OverwriteKeepsOthers(members, i, Member(chat, user, role));
      members[i := Member(chat, user, role)]
    case None =>
      AppendKeepsOthers(members, Member(chat, user, role));
      members + [Member(chat, user, role)]
  }

  lemma OverwriteKeepsOthers(members: seq<Member>, i: nat, m: Member)
    requires i < |members| && members[i].chat == m.chat && members[i].user == m.user
    ensures forall c, u | c != m.chat || u != m.user ::
      MemberRow(members[i := m], c, u) == MemberRow(members, c, u)
    ensures UniqueMembers(members) ==> (UniqueMembers(members[i := m])
      && MemberRow(members[i := m], m.chat, m.user) == Some(i))
  {
    var r := members[i := m];
    forall c, u | c != m.chat || u != m.user ensures MemberRow(r, c, u) == MemberRow(members, c, u) {
      SameRowsSameLookup(members, r, c, u);
    }
    if UniqueMembers(members) {
      UniqueLookup(r, i);
    }
  }

  lemma AppendKeepsOthers(members: seq<Member>, m: Member)
    requires MemberRow(members, m.chat, m.user).None?
    ensures forall c, u | c != m.chat || u != m.user ::
      MemberRow(members + [m], c, u) == MemberRow(members, c, u)
    ensures MemberRow(members + [m], m.chat, m.user) == Some(|members|)
    ensures UniqueMembers(members) ==> UniqueMembers(members + [m])
  {
    assert (members + [m])[..|members|] == members;
  }

  /** Two tables that agree on every row of a key agree on the lookup of that key. */
  lemma {:induction false} SameRowsSameLookup(a: seq<Member>, b: seq<Member>, chat: nat, user: nat)
    requires |a| == |b|
    requires forall j | 0 <= j < |a| :: (a[j].chat == chat && a[j].user == user) <==> (b[j].chat == chat && b[j].user == user)
    ensures MemberRow(a, chat, user) == MemberRow(b, chat, user)
    decreases |a|
  {
    if |a| > 0 {
      SameRowsSameLookup(a[..|a| - 1], b[..|b| - 1], chat, user);
    }
  }

  /** With unique keys the lookup of a row's own key finds that row. */
  lemma UniqueLookup(members: seq<Member>, i: nat)
    requires UniqueMembers(members) && i < |members|
    ensures MemberRow(members, members[i].chat, members[i].user) == Some(i)
  {
  }

  /** The first open chat (PENDING or ACTIVE) of a type for a pair of listings. */
  function FindOpen(chats: seq<Chat>, kind: ChatType, lost: nat, found: nat): (r: Option<nat>)
    ensures r.Some? ==> r.value < |chats| && IsOpenFor(chats[r.value], kind, lost, found)
    ensures r.None? <==> forall j | 0 <= j < |chats| :: !IsOpenFor(chats[j], kind, lost, found)
    decreases |chats|
  {
    if |chats| == 0 then None
    else match FindOpen(chats[..|chats| - 1], kind, lost, found)
      case Some(i) => Some(i)
      case None => if IsOpenFor(chats[|chats| - 1], kind, lost, found) then Some(|chats| - 1) else None
  }

  predicate IsOpen(s: ChatStatus) {
    s == Pending || s == Active
  }

  predicate IsOpenFor(c: Chat, kind: ChatType, lost: nat, found: nat) {
    c.lostListing == lost && c.foundListing == found && c.kind == kind && IsOpen(c.status)
  }

  /** The status a new chat of a type starts in: owner checks wait for the holder,
      dialogs are open at once. */
  function InitialStatus(kind: ChatType): ChatStatus {
    match kind
    case OwnerCheck => Pending
    case Dialog => Active
  }

  /** `getOrCreateOwnerCheckChat` / `getOrCreateDialogChat`: the open chat of that
      type for the pair if there is one, else a new one; either way the claimant
      joins as CLAIMANT and then the holder as HOLDER. */
  function GetOrCreate(s: Store, kind: ChatType, lost: nat, found: nat, initiator: nat, holder: nat, claimant: nat)
    : (r: (Store, nat))
    ensures var (s', id) := r;
      id < |s'.chats| && s'.chats[id].lostListing == lost && s'.chats[id].foundListing == found
      && s'.chats[id].kind == kind && IsOpen(s'.chats[id].status) && s'.messages == s.messages
    ensures FindOpen(s.chats, kind, lost, found).Some? ==>
      r.1 == FindOpen(s.chats, kind, lost, found).value && r.0.chats == s.chats
    ensures FindOpen(s.chats, kind, lost, found).None? ==>
      r.1 == |s.chats|
      && r.0.chats == s.chats + [Chat(lost, found, initiator, holder, claimant, kind, InitialStatus(kind), None, s.clock)]
    ensures UniqueMembers(s.members) ==> (UniqueMembers(r.0.members)
      && RoleOf(r.0.members, r.1, holder) == Some(Holder)
      && (claimant != holder ==> RoleOf(r.0.members, r.1, claimant) == Some(Claimant)))
  {
    var (chats, id, clock) := match FindOpen(s.chats, kind, lost, found)
      case Some(i) => (s.chats, i, s.clock)
      case None =>
        (s.chats + [Chat(lost, found, initiator, holder, claimant, kind, InitialStatus(kind), None, s.clock)],
         |s.chats|, s.clock + 1);
    var members := EnsureMember(EnsureMember(s.members, id, claimant, Claimant), id, holder, Holder);
    (Store(chats, members, s.messages, clock), id)
  }

  /** Asking again for the same pair returns the same chat and adds no chat. */
  lemma GetOrCreateIdempotent(s: Store, kind: ChatType, lost: nat, found: nat, initiator: nat, holder: nat,
                              claimant: nat, initiator2: nat)
    ensures var (s1, id1) := GetOrCreate(s, kind, lost, found, initiator, holder, claimant);
      var (s2, id2) := GetOrCreate(s1, kind, lost, found, initiator2, holder, claimant);
      id2 == id1 && s2.chats == s1.chats
  {
    var (s1, id1) := GetOrCreate(s, kind, lost, found, initiator, holder, claimant);
    if FindOpen(s.chats, kind, lost, found).None? {
      assert s1.chats[..|s.chats|] == s.chats;
      assert FindOpen(s1.chats[..|s1.chats| - 1], kind, lost, found).None?;
    }
  }

  /** A declined or closed chat is never handed out again: the call returns another
      chat (a new one when no other is open). */
  lemma FinishedChatIsNotReused(s: Store, kind: ChatType, lost: nat, found: nat, initiator: nat, holder: nat,
                                claimant: nat, i: nat)
    requires i < |s.chats| && !IsOpen(s.chats[i].status)
    ensures GetOrCreate(s, kind, lost, found, initiator, holder, claimant).1 != i
  {
  }

  /** `createChatMessage(chatId, senderId, body, meta)`: one message appended and the
      chat's last-message time set; nothing else changes. */
  function CreateChatMessage(s: Store, chat: nat, sender: Sender, body: string, meta: Notifications.Payload)
    : (s': Store)
    ensures s'.messages == s.messages + [Message(chat, sender, body, meta, s.clock)]
    ensures s'.members == s.members && |s'.chats| == |s.chats|
    ensures forall j | 0 <= j < |s.chats| && j != chat :: s'.chats[j] == s.chats[j]
    ensures chat < |s.chats| ==> s'.chats[chat] == s.chats[chat].(lastMessageAt := Some(s.clock))
    ensures s'.clock > s.clock
  {
    var chats := if chat < |s.chats| then s.chats[chat := s.chats[chat].(lastMessageAt := Some(s.clock))] else s.chats;
    Store(chats, s.members, s.messages + [Message(chat, sender, body, meta, s.clock)], s.clock + 1)
  }

  /** `appendSystemMessage(chatId, body, meta)`: a message from `system` whose meta is
      the given one with `system: true`. */
  function AppendSystemMessage(s: Store, chat: nat, body: string, meta: Notifications.Payload): (s': Store)
    ensures |s'.messages| == |s.messages| + 1 && s'.messages[..|s.messages|] == s.messages
    ensures var m := s'.messages[|s.messages|];
      m.sender == SystemSender && m.chat == chat && m.body == body
      && "system" in m.meta && m.meta["system"] == Notifications.Flag(true)
      && forall k | k in meta && k != "system" :: k in m.meta && m.meta[k] == meta[k]
    ensures s'.members == s.members && |s'.chats| == |s.chats|
    ensures forall j | 0 <= j < |s.chats| :: s'.chats[j].status == s.chats[j].status
  {
    CreateChatMessage(s, chat, SystemSender, body, meta["system" := Notifications.Flag(true)])
  }

  /** `updateChatStatus(chatId, status)`: the status is set whatever it was; the
      guards live in the callers. An unknown id changes nothing. */
  function UpdateChatStatus(s: Store, chat: nat, status: ChatStatus): (s': Store)
    ensures |s'.chats| == |s.chats| && s'.members == s.members && s'.messages == s.messages
    ensures chat < |s.chats| ==> s'.chats[chat] == s.chats[chat].(status := status, updatedAt := s'.chats[chat].updatedAt)
    ensures chat >= |s.chats| ==> s' == s
    ensures forall j | 0 <= j < |s.chats| && j != chat :: s'.chats[j] == s.chats[j]
  {
    if chat < |s.chats| then
      Store(s.chats[chat := s.chats[chat].(status := status, updatedAt := s.clock)], s.members, s.messages, s.clock + 1)
    else s
  }

  /** `fetchChatById(chatId)`. */
  function FetchChat(s: Store, chat: Option<nat>): (r: Option<Chat>)
    ensures r.Some? <==> chat.Some? && chat.value < |s.chats|
    ensures r.Some? ==> r.value == s.chats[chat.value]
  {
    if chat.Some? && chat.value < |s.chats| then Some(s.chats[chat.value]) else None
  }

  /** `fetchChatMembers(chatId)`: exactly the chat's membership rows, each as often
      as in the table. */
  function FetchMembers(s: Store, chat: nat): (r: seq<Member>)
    ensures forall i | 0 <= i < |r| :: r[i].chat == chat
    ensures forall m | m in s.members && m.chat == chat :: m in r
    ensures multiset(r) <= multiset(s.members)
    ensures forall m | m in s.members && m.chat == chat :: multiset(r)[m] == multiset(s.members)[m]
  {
    Filter(s.members, (m: Member) => m.chat == chat)
  }

  /** `participants.find(member => member.role === role)`: the first member with the
      role, as a user id. */
  function FirstWithRole(members: seq<Member>, role: Role): (r: Option<nat>)
    ensures r.Some? ==> exists i | 0 <= i < |members| :: members[i].role == role && members[i].user == r.value
    ensures r.None? <==> forall i | 0 <= i < |members| :: members[i].role != role
    decreases |members|
  {
    if |members| == 0 then None
    else if members[0].role == role then Some(members[0].user)
    else
      var r := FirstWithRole(members[1..], role);
      assert forall i | 1 <= i < |members| :: members[i] == members[1..][i - 1];
      r
  }

  /** The user of the first membership row of a chat with a role, in row order. */
  function FirstInChat(members: seq<Member>, chat: nat, role: Role): Option<nat>
    decreases |members|
  {
    if |members| == 0 then None
    else if members[0].chat == chat && members[0].role == role then Some(members[0].user)
    else FirstInChat(members[1..], chat, role)
  }

  /** Fetching a chat's members and taking the first with a role finds the user of
      the first row of that chat with that role. */
  lemma {:induction false} FirstInChatFetched(s: Store, chat: nat, role: Role)
    ensures FirstWithRole(FetchMembers(s, chat), role) == FirstInChat(s.members, chat, role)
    decreases |s.members|
  {
    if |s.members| > 0 {
      var rest := s.(members := s.members[1..]);
      FirstInChatFetched(rest, chat, role);
      var m := s.members[0];
      if m.chat == chat {
        assert FetchMembers(s, chat) == [m] + FetchMembers(rest, chat);
        assert ([m] + FetchMembers(rest, chat))[1..] == FetchMembers(rest, chat);
      } else {
        assert FetchMembers(s, chat) == FetchMembers(rest, chat);
      }
    }
  }

  /** Right after `GetOrCreate` the chat has a member in the HOLDER role, so the
      holder's side of a new chat is always found. */
  lemma HolderIsFound(s: Store, kind: ChatType, lost: nat, found: nat, initiator: nat, holder: nat, claimant: nat)
    requires UniqueMembers(s.members)
    ensures var (s', id) := GetOrCreate(s, kind, lost, found, initiator, holder, claimant);
      FirstWithRole(FetchMembers(s', id), Holder).Some?
  {
    var (s', id) := GetOrCreate(s, kind, lost, found, initiator, holder, claimant);
    var i := MemberRow(s'.members, id, holder).value;
    assert s'.members[i] in s'.members;
  }
}
