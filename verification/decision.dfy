/** The holder's decision on an ownership check and the exchange of contacts that
    follows: the review buttons, the holder's exchange request, the claimant's
    share button, and the phone number a claimant shares. */
module Decision {
  import opened Wrappers
  import opened Text
  import opened Store
  import opened Inbox
  import opened Owner
  import N = Notifications
  import Chats
  import Flows
  import Users

  const ConfirmedReviewBody := "Вы подтвердили, что ответы совпадают. Запросите обмен контактами, когда будете готовы передать вещь."
  const ExchangeActionBody := "Нажмите кнопку ниже, чтобы отправить запрос владельцу на обмен контактами."
  const ConfirmedWaitingBody := "Нашедший подтвердил ответы. Скоро он запросит обмен контактами — следите за уведомлениями."
  const DeclinedReviewBody := "Вы отклонили претендента. Если появится другой запрос, мы сообщим."
  const DeclinedWaitingBody := "Ответы не совпали. Попробуйте уточнить данные или создать новое объявление."
  const DeclinedBody := "Нашедший указал, что ответы не совпали. Попробуйте уточнить информацию или добавить дополнительные приметы."
  const RequestSentBody := "Запрос отправлен потерявшему. Ждём, пока он поделится контактом."
  const ShareNumberLine := "Поделитесь своим номером, чтобы открыть телефон нашедшего."
  const SwapTitle := "Обмен контактами — "
  const DeclinedTitle := "Заявка отклонена — "
  const ContactTitle := "Связаться по объявлению "

  // ---------------------------------------------------------------------------
  // The review buttons

  datatype Verdict = Approve | Reject

  /** `parseOwnerReviewValue(value)` with the chat id read as a number and the
      decision as one of the two the handler knows. */
  function ParseReview(value: string): (r: Option<(nat, Verdict)>)
    ensures r.Some? <==>
      var (chatText, decision) := Flows.ParsePair(value);
      chatText.Some? && decision.Some? && ParseNat(chatText.value).Some?
      && (decision.value == "confirm" || decision.value == "decline")
    ensures r.Some? ==>
      r.value.0 == ParseNat(Flows.ParsePair(value).0.value).value
      && (r.value.1 == Approve <==> Flows.ParsePair(value).1.value == "confirm")
  {
    var (chatText, decision) := Flows.ParsePair(value);
    if chatText.None? || decision.None? then None
    else match ParseNat(chatText.value)
      case None => None
      case Some(chat) =>
        if decision.value == "confirm" then Some((chat, Approve))
        else if decision.value == "decline" then Some((chat, Reject))
        else None
  }

  /** The two buttons of `buildOwnerReviewKeyboard(chatId)` read back as the
      decision they stand for on exactly that chat. */
  lemma ReviewButtons(chat: nat)
    ensures ParseReview(Flows.BuildPair(NatToText(chat), "confirm")) == Some((chat, Approve))
    ensures ParseReview(Flows.BuildPair(NatToText(chat), "decline")) == Some((chat, Reject))
  {
    NatToTextNoBar(chat);
    Flows.PairRoundTrip(NatToText(chat), "confirm");
    Flows.PairRoundTrip(NatToText(chat), "decline");
    ParseNatOfNatToText(chat);
  }

  /** `handleOwnerReviewAction` once the value is read: only the chat's holder may
      decide. */
  predicate MayReview(w: World, chat: nat, user: Users.UserId) {
    StatusOf(w, chat).Some? && HolderOf(w, chat) == Some(user)
  }

  /** Chats that differ at most in statuses have the same participants. */
  lemma SameParticipants(w: World, w': World, chat: nat)
    requires w'.chats.members == w.chats.members
    ensures HolderOf(w', chat) == HolderOf(w, chat) && ClaimantOf(w', chat) == ClaimantOf(w, chat)
  {
  }

  // ---------------------------------------------------------------------------
  // Confirming

  /** What a confirmation leaves behind. A CLOSED or ACTIVE chat is left alone; any
      other, a DECLINED one included, becomes ACTIVE, the review is resolved, the
      holder is asked to request the exchange, the claimant is told, and the
      holder's session ends. */
  predicate ConfirmOutcome(w: World, w': World, chat: nat, user: Users.UserId) {
    (!MayReview(w, chat, user) ==> w' == w)
    && (MayReview(w, chat, user) && StatusOf(w, chat) in {Some(Chats.Closed), Some(Chats.Active)} ==> w' == w)
    && (MayReview(w, chat, user) && StatusOf(w, chat) !in {Some(Chats.Closed), Some(Chats.Active)} ==>
          w'.chats == Chats.UpdateChatStatus(w.chats, chat, Chats.Active)
          && StatusOf(w', chat) == Some(Chats.Active)
          && user !in w'.sessions
          && Shows(w'.notes, user, N.OwnerReview, chat, N.Resolved)
          && Shows(w'.notes, user, N.ContactShareRequest, chat, N.Action)
          && (ClaimantOf(w, chat).Some? ==> Shows(w'.notes, ClaimantOf(w, chat).value, N.OwnerWaiting, chat, N.Unread))
          && w'.users == w.users && w'.listings == w.listings)
  }

  /** The holder confirms the answers. */
  method Confirm(w: World, chat: nat, user: Users.UserId) returns (w': World)
    ensures ConfirmOutcome(w, w', chat, user)
  {
    if !MayReview(w, chat, user) {
      return w;
    }
    var c := w.chats.chats[chat];
    if c.status == Chats.Closed || c.status == Chats.Active {
      return w;
    }
    var foundTitle := ListingTitle(w, Some(c.foundListing));
    var lostTitle := ListingTitle(w, Some(c.lostListing));
    var ref := Ref(chat, foundTitle);
    var w1 := SetStatus(w, chat, Chats.Active);
    var d1 := Note(Some(ReviewTitle + Quoted(foundTitle)), Some(ConfirmedReviewBody), N.Resolved, ref);
    var d2 := Note(Some(SwapTitle + Quoted(foundTitle)), Some(ExchangeActionBody), N.Action, ref);
    var t1 := Put(w1.notes, user, N.OwnerReview, chat, d1);
    var t2 := Put(t1, user, N.ContactShareRequest, chat, d2);
    PutElsewhere(t1, user, N.ContactShareRequest, chat, d2, user, N.OwnerReview, chat);
    var t3 := t2;
    if ClaimantOf(w, chat).Some? {
      var cl := ClaimantOf(w, chat).value;
      var title := EitherTitle(foundTitle, lostTitle);
      var d3 := Note(Some(CheckTitle + Quoted(title)), Some(ConfirmedWaitingBody), N.Unread, Ref(chat, title));
      t3 := Put(t2, cl, N.OwnerWaiting, chat, d3);
      PutElsewhere(t2, cl, N.OwnerWaiting, chat, d3, user, N.OwnerReview, chat);
      PutElsewhere(t2, cl, N.OwnerWaiting, chat, d3, user, N.ContactShareRequest, chat);
    }
    w' := ClearRecord(w1.(notes := t3), user);
  }

  // ---------------------------------------------------------------------------
  // Declining

  /** What a decline leaves behind, whatever the chat's status was: the chat is
      DECLINED, the review resolved and the holder's session ended; a claimant's
      waiting notification is resolved and a new OWNER_DECLINED row is created for
      the claimant after every old row, which keep their keys. */
  predicate DeclineOutcome(w: World, w': World, chat: nat, user: Users.UserId) {
    (!MayReview(w, chat, user) ==> w' == w)
    && (MayReview(w, chat, user) ==>
          w'.chats == Chats.UpdateChatStatus(w.chats, chat, Chats.Declined)
          && StatusOf(w', chat) == Some(Chats.Declined)
          && user !in w'.sessions
          && Shows(w'.notes, user, N.OwnerReview, chat, N.Resolved)
          && |w'.notes.rows| >= |w.notes.rows|
          && (forall j | 0 <= j < |w.notes.rows| :: SameKey(w'.notes.rows[j], w.notes.rows[j]))
          && (ClaimantOf(w, chat).Some? ==>
                |w'.notes.rows| > |w.notes.rows|
                && N.KeyMatches(w'.notes.rows[|w'.notes.rows| - 1], ClaimantOf(w, chat).value, N.OwnerDeclined, Some(chat))
                && Shows(w'.notes, ClaimantOf(w, chat).value, N.OwnerWaiting, chat, N.Resolved)
                && Shows(w'.notes, ClaimantOf(w, chat).value, N.OwnerDeclined, chat, N.Unread)))
  }

  /** The holder declines. */
  method Decline(w: World, chat: nat, user: Users.UserId) returns (w': World)
    ensures DeclineOutcome(w, w', chat, user)
  {
    if !MayReview(w, chat, user) {
      return w;
    }
    var c := w.chats.chats[chat];
    var foundTitle := ListingTitle(w, Some(c.foundListing));
    var lostTitle := ListingTitle(w, Some(c.lostListing));
    var w1 := SetStatus(w, chat, Chats.Declined);
    var t3 := DeclineNotes(w1.notes, user, chat, ClaimantOf(w, chat), foundTitle, EitherTitle(foundTitle, lostTitle));
    w' := ClearRecord(w1.(notes := t3), user);
  }

  /** The notifications of a decline: the holder's review is resolved, then the
      claimant, if any, is told. */
  method DeclineNotes(t: N.Table, user: nat, chat: nat, claimant: Option<nat>, foundTitle: Option<string>,
                      title: Option<string>) returns (t': N.Table)
    ensures Shows(t', user, N.OwnerReview, chat, N.Resolved)
    ensures |t'.rows| >= |t.rows|
    ensures forall j | 0 <= j < |t.rows| :: SameKey(t'.rows[j], t.rows[j])
    ensures claimant.Some? ==> |t'.rows| > |t.rows|
    ensures claimant.Some? ==> N.KeyMatches(t'.rows[|t'.rows| - 1], claimant.value, N.OwnerDeclined, Some(chat))
    ensures claimant.Some? ==> Shows(t', claimant.value, N.OwnerWaiting, chat, N.Resolved)
    ensures claimant.Some? ==> Shows(t', claimant.value, N.OwnerDeclined, chat, N.Unread)
  {
    t' := ResolveReview(t, user, chat, foundTitle);
    if claimant.Some? {
      var t1 := t';
      t' := NotifyDeclined(t1, claimant.value, chat, title, user);
      SameKeysChain(t, t1, t');
    }
  }

  /** The holder's review notification is resolved with the decline text. */
  method ResolveReview(t: N.Table, user: nat, chat: nat, foundTitle: Option<string>) returns (t': N.Table)
    ensures Shows(t', user, N.OwnerReview, chat, N.Resolved)
    ensures |t'.rows| >= |t.rows|
    ensures forall j | 0 <= j < |t.rows| :: SameKey(t'.rows[j], t.rows[j])
  {
    var d1 := Note(Some(ReviewTitle + Quoted(foundTitle)), Some(DeclinedReviewBody), N.Resolved, Ref(chat, foundTitle));
    t' := Put(t, user, N.OwnerReview, chat, d1);
    PutKeepsKeys(t, user, N.OwnerReview, chat, d1);
  }

  /** Two writes that each keep the keys of the rows they found keep them together. */
  lemma SameKeysChain(t: N.Table, t1: N.Table, t2: N.Table)
    requires |t.rows| <= |t1.rows| <= |t2.rows|
    requires forall j | 0 <= j < |t.rows| :: SameKey(t1.rows[j], t.rows[j])
    requires forall j | 0 <= j < |t1.rows| :: SameKey(t2.rows[j], t1.rows[j])
    ensures forall j | 0 <= j < |t.rows| :: SameKey(t2.rows[j], t.rows[j])
  {
  }

  /** The claimant's side of a decline: the waiting notification is resolved and an
      OWNER_DECLINED row is created. */
  method NotifyDeclined(t: N.Table, cl: nat, chat: nat, title: Option<string>, holder: nat) returns (t': N.Table)
    requires Shows(t, holder, N.OwnerReview, chat, N.Resolved)
    ensures |t'.rows| > |t.rows|
    ensures forall j | 0 <= j < |t.rows| :: SameKey(t'.rows[j], t.rows[j])
    ensures N.KeyMatches(t'.rows[|t'.rows| - 1], cl, N.OwnerDeclined, Some(chat))
    ensures Shows(t', cl, N.OwnerWaiting, chat, N.Resolved)
    ensures Shows(t', cl, N.OwnerDeclined, chat, N.Unread)
    ensures Shows(t', holder, N.OwnerReview, chat, N.Resolved)
  {
    var d2 := Note(Some(CheckTitle + Quoted(title)), Some(DeclinedWaitingBody), N.Resolved, Ref(chat, title));
    var d3 := Note(Some(DeclinedTitle + Quoted(title)), Some(DeclinedBody), N.Unread, Ref(chat, title));
    var t2 := Put(t, cl, N.OwnerWaiting, chat, d2);
    PutKeepsKeys(t, cl, N.OwnerWaiting, chat, d2);
    PutStillShows(t, cl, N.OwnerWaiting, chat, d2, holder, N.OwnerReview, chat, N.Resolved);
    t' := Add(t2, cl, N.OwnerDeclined, chat, d3);
    AddElsewhere(t2, cl, N.OwnerDeclined, chat, d3, holder, N.OwnerReview, chat);
    AddElsewhere(t2, cl, N.OwnerDeclined, chat, d3, cl, N.OwnerWaiting, chat);
  }

  /** Declining twice leaves the claimant two OWNER_DECLINED notifications for the
      same chat: a decline adds its notification rather than updating one. */
  lemma DeclineTwiceDuplicates(w: World, w1: World, w2: World, chat: nat, user: Users.UserId)
    requires MayReview(w, chat, user) && ClaimantOf(w, chat).Some?
    requires DeclineOutcome(w, w1, chat, user) && DeclineOutcome(w1, w2, chat, user)
    ensures var n := |w2.notes.rows|;
      (exists i | 0 <= i < n - 1 :: N.KeyMatches(w2.notes.rows[i], ClaimantOf(w, chat).value, N.OwnerDeclined, Some(chat)))
      && N.KeyMatches(w2.notes.rows[n - 1], ClaimantOf(w, chat).value, N.OwnerDeclined, Some(chat))
  {
    SameParticipants(w, w1, chat);
    assert MayReview(w1, chat, user);
    var i := |w1.notes.rows| - 1;
    assert SameKey(w2.notes.rows[i], w1.notes.rows[i]);
  }

  /** `handleOwnerReviewAction(value)`: an unreadable value, an unknown chat, a user
      other than the holder or a decision other than `confirm` and `decline`
      changes nothing; otherwise the decision is carried out. */
  method HandleOwnerReview(w: World, user: Users.UserId, value: string) returns (w': World)
    ensures ParseReview(value).None? ==> w' == w
    ensures ParseReview(value).Some? && ParseReview(value).value.1 == Approve ==>
      ConfirmOutcome(w, w', ParseReview(value).value.0, user)
    ensures ParseReview(value).Some? && ParseReview(value).value.1 == Reject ==>
      DeclineOutcome(w, w', ParseReview(value).value.0, user)
  {
    match ParseReview(value)
    case None =>
      return w;
    case Some((chat, Approve)) =>
      w' := Confirm(w, chat, user);
    case Some((chat, Reject)) =>
      w' := Decline(w, chat, user);
  }

  // ---------------------------------------------------------------------------
  // The exchange request

  /** The body that asks a claimant without a phone on file to share one: the
      holder's contact with the number masked. */
  function MaskedOffer(title: Option<string>, holderContact: Option<Users.User>): string {
    "Пользователь, нашедший " + Quoted(title) + ", готов связаться.\n\n"
    + Announcement(FinderRole, holderContact, true, "") + "\n\n" + ShareNumberLine
  }

  /** The masked offer depends on the holder's number only through its digit
      count. */
  lemma MaskedOfferHidesNumber(title: Option<string>, a: Users.User, b: Users.User)
    requires Users.Truthy(a.phone) && Users.Truthy(b.phone)
    requires |Users.DigitsOf(a.phone.value)| == |Users.DigitsOf(b.phone.value)|
    ensures MaskedOffer(title, Some(a)) == MaskedOffer(title, Some(b))
  {
    AnnouncementMasking(FinderRole, a, b, "");
  }

  /** The claimant's side of a request when the claimant has no phone on file. */
  method OfferExchange(t: N.Table, holder: nat, cl: nat, id: nat, title: Option<string>, body: string) returns (t': N.Table)
    requires Shows(t, holder, N.ContactShareRequest, id, N.Resolved)
    ensures Shows(t', holder, N.ContactShareRequest, id, N.Resolved)
    ensures Shows(t', cl, N.OwnerApproved, id, N.Action)
    ensures Newest(t', cl, N.OwnerApproved, id).value.body == Some(body)
    ensures Shows(t', cl, N.OwnerWaiting, id, N.Resolved)
  {
    var ref := Ref(id, title);
    var d2 := Note(Some(ContactTitle + Quoted(title)), Some(body), N.Action, ref);
    var d3 := Note(None, None, N.Resolved, ref);
    var t2 := Put(t, cl, N.OwnerApproved, id, d2);
    PutStillShows(t, cl, N.OwnerApproved, id, d2, holder, N.ContactShareRequest, id, N.Resolved);
    t' := Put(t2, cl, N.OwnerWaiting, id, d3);
    PutStillShows(t2, cl, N.OwnerWaiting, id, d3, holder, N.ContactShareRequest, id, N.Resolved);
    PutElsewhere(t2, cl, N.OwnerWaiting, id, d3, cl, N.OwnerApproved, id);
  }

  /** `handleOwnerContactRequest(chatId)`: only the holder of an ACTIVE chat gets
      anywhere. The request is marked sent; a claimant with a phone on file gets
      the exchange at once, one without is asked to share a number and shown the
      holder's contact with the number masked. */
  method ContactRequest(w: World, user: Users.UserId, chat: Option<nat>) returns (w': World)
    ensures chat.None? || !MayReview(w, chat.value, user) || StatusOf(w, chat.value) != Some(Chats.Active) ==> w' == w
    ensures chat.Some? && MayReview(w, chat.value, user) && StatusOf(w, chat.value) == Some(Chats.Active) ==>
      Shows(w'.notes, user, N.ContactShareRequest, chat.value, N.Resolved)
      && (ClaimantOf(w, chat.value).None? ==> w'.chats == w.chats && w'.sessions == w.sessions)
      && (ClaimantOf(w, chat.value).Some? && Users.HasPhone(w.users, ClaimantOf(w, chat.value)) ==>
            StatusOf(w', chat.value) == Some(Chats.Closed)
            && Revealed(w', user, ClaimantOf(w, chat.value).value, chat.value)
            && user !in w'.sessions && ClaimantOf(w, chat.value).value !in w'.sessions)
      && (ClaimantOf(w, chat.value).Some? && !Users.HasPhone(w.users, ClaimantOf(w, chat.value)) ==>
            var cl := ClaimantOf(w, chat.value).value;
            w'.chats == w.chats && w'.sessions == w.sessions
            && Shows(w'.notes, cl, N.OwnerApproved, chat.value, N.Action)
            && Newest(w'.notes, cl, N.OwnerApproved, chat.value).value.body
               == Some(MaskedOffer(ListingTitle(w, Some(w.chats.chats[chat.value].foundListing)),
                                   Users.FetchContact(w.users, Some(user))))
            && Shows(w'.notes, cl, N.OwnerWaiting, chat.value, N.Resolved))
  {
    if chat.None? || !MayReview(w, chat.value, user) || StatusOf(w, chat.value) != Some(Chats.Active) {
      return w;
    }
    var id := chat.value;
    var foundTitle := ListingTitle(w, Some(w.chats.chats[id].foundListing));
    var d1 := Note(Some(SwapTitle + Quoted(foundTitle)), Some(RequestSentBody), N.Resolved, Ref(id, foundTitle));
    var t1 := Put(w.notes, user, N.ContactShareRequest, id, d1);
    var w1 := w.(notes := t1);
    if ClaimantOf(w, id).None? {
      return w1;
    }
    var cl := ClaimantOf(w, id).value;
    if Users.HasPhone(w.users, Some(cl)) {
      assert CanFinalize(w1, id);
      w' := FinalizeAsWritten(w1, id, foundTitle);
    } else {
      var t3 := OfferExchange(t1, user, cl, id, foundTitle, MaskedOffer(foundTitle, Users.FetchContact(w.users, Some(user))));
      w' := w1.(notes := t3);
    }
  }

  /** `handleOwnerShareContactAction(chatId)`: only the chat's claimant gets
      anywhere, and a PENDING or CLOSED chat is refused; a claimant with a phone on
      file then has the exchange finalised. A DECLINED chat is not refused, so the
      claimant the holder turned down is shown the holder's contact. */
  method ShareContact(w: World, user: Users.UserId, chat: Option<nat>) returns (w': World)
    ensures (chat.None? || StatusOf(w, chat.value).None? || ClaimantOf(w, chat.value) != Some(user)
             || StatusOf(w, chat.value) in {Some(Chats.Pending), Some(Chats.Closed)}
             || !Users.HasPhone(w.users, Some(user)) || HolderOf(w, chat.value).None?) ==> w' == w
    ensures chat.Some? && StatusOf(w, chat.value) in {Some(Chats.Active), Some(Chats.Declined)}
            && ClaimantOf(w, chat.value) == Some(user)
            && HolderOf(w, chat.value).Some? && Users.HasPhone(w.users, Some(user)) ==>
      Exchanged(w, w', chat.value)
    ensures chat.Some? && StatusOf(w, chat.value) == Some(Chats.Declined) && ClaimantOf(w, chat.value) == Some(user)
            && HolderOf(w, chat.value).Some? && Users.HasPhone(w.users, Some(user)) ==>
      StatusOf(w', chat.value) == Some(Chats.Closed) && Revealed(w', HolderOf(w, chat.value).value, user, chat.value)
  {
    if chat.None? || StatusOf(w, chat.value).None? || ClaimantOf(w, chat.value) != Some(user) {
      return w;
    }
    var status := StatusOf(w, chat.value).value;
    if status == Chats.Pending || status == Chats.Closed || !Users.HasPhone(w.users, Some(user)) {
      return w;
    }
    w' := FinalizeAsWritten(w, chat.value, ListingTitle(w, Some(w.chats.chats[chat.value].foundListing)));
  }

  /** The share handler as evidently intended: a DECLINED chat is refused like a
      CLOSED one, so a turned-down claimant never sees the holder's contact. */
  method ShareContactIntended(w: World, user: Users.UserId, chat: Option<nat>) returns (w': World)
    ensures (chat.None? || StatusOf(w, chat.value).None? || ClaimantOf(w, chat.value) != Some(user)
             || StatusOf(w, chat.value) in {Some(Chats.Pending), Some(Chats.Closed), Some(Chats.Declined)}
             || !Users.HasPhone(w.users, Some(user)) || HolderOf(w, chat.value).None?) ==> w' == w
    ensures chat.Some? && StatusOf(w, chat.value) == Some(Chats.Active) && ClaimantOf(w, chat.value) == Some(user)
            && HolderOf(w, chat.value).Some? && Users.HasPhone(w.users, Some(user)) ==>
      Exchanged(w, w', chat.value)
  {
    if chat.None? || StatusOf(w, chat.value).None? || ClaimantOf(w, chat.value) != Some(user) {
      return w;
    }
    var status := StatusOf(w, chat.value).value;
    if status == Chats.Pending || status == Chats.Closed || !Users.HasPhone(w.users, Some(user)) {
      return w;
    }
    w' := Finalize(w, chat.value, ListingTitle(w, Some(w.chats.chats[chat.value].foundListing)));
  }

  // ---------------------------------------------------------------------------
  // A shared contact
  /** An OWNER_APPROVED notification of the user still waiting for action. */
  predicate ApprovalRow(n: N.Notification, user: Users.UserId) {
    n.userId == user && n.kind == N.OwnerApproved && n.status == Some(N.Action) && n.chatId.Some?
  }

  /** `payload?.listingTitle ?? null` of a stored payload. */
  function PayloadTitle(p: N.StoredPayload): Option<string> {
    match p
    case Json(m) => if "listingTitle" in m && m["listingTitle"].Str? then Some(m["listingTitle"].s) else None
    case _ => None
  }

  predicate Listed(items: seq<(nat, Option<string>)>, chat: nat) {
    exists i | 0 <= i < |items| :: items[i].0 == chat
  }

  /** The chats of the user's waiting approvals, each once, with the title of its
      first row (a `Map` filled in row order). */
  function ApprovedChats(rows: seq<N.Notification>, user: Users.UserId): (r: seq<(nat, Option<string>)>)
    ensures forall i, j | 0 <= i < j < |r| :: r[i].0 != r[j].0
    ensures forall k | 0 <= k < |rows| && ApprovalRow(rows[k], user) :: Listed(r, rows[k].chatId.value)
    ensures forall i | 0 <= i < |r| :: exists k | 0 <= k < |rows| :: ApprovalRow(rows[k], user) && rows[k].chatId == Some(r[i].0)
    decreases |rows|
  {
    if |rows| == 0 then []
    else
      var init := rows[..|rows| - 1];
      var acc := ApprovedChats(init, user);
      var n := rows[|rows| - 1];
      assert forall k | 0 <= k < |init| :: rows[k] == init[k];
      if ApprovalRow(n, user) && !Listed(acc, n.chatId.value) then
        var r := acc + [(n.chatId.value, PayloadTitle(n.payload))];
        assert forall k | 0 <= k < |init| && ApprovalRow(rows[k], user) :: Listed(r, rows[k].chatId.value) by {
          forall k | 0 <= k < |init| && ApprovalRow(rows[k], user) ensures Listed(r, rows[k].chatId.value) {
            var i :| 0 <= i < |acc| && acc[i].0 == rows[k].chatId.value;
            assert r[i] == acc[i];
          }
        }
        assert r[|acc|].0 == n.chatId.value;
        r
      else
        acc
  }

  /** The user's ACTIVE chats as claimant, in table order, with no title. */
  function ActiveChatsOf(chats: seq<Chats.Chat>, user: Users.UserId): (r: seq<(nat, Option<string>)>)
    ensures forall i | 0 <= i < |r| :: r[i].0 < |chats| && chats[r[i].0].claimant == user
                                       && chats[r[i].0].status == Chats.Active && r[i].1.None?
    ensures forall j | 0 <= j < |chats| && chats[j].claimant == user && chats[j].status == Chats.Active :: Listed(r, j)
    decreases |chats|
  {
    if |chats| == 0 then []
    else
      var init := chats[..|chats| - 1];
      var acc := ActiveChatsOf(init, user);
      var last := |chats| - 1;
      if chats[last].claimant == user && chats[last].status == Chats.Active then
        var r := acc + [(last, None)];
        assert forall j | 0 <= j < last && chats[j].claimant == user && chats[j].status == Chats.Active :: Listed(r, j) by {
          forall j | 0 <= j < last && chats[j].claimant == user && chats[j].status == Chats.Active ensures Listed(r, j) {
            assert init[j] == chats[j];
            var i :| 0 <= i < |acc| && acc[i].0 == j;
            assert r[i] == acc[i];
          }
        }
        assert r[|acc|].0 == last;
        r
      else
        assert forall j | 0 <= j < last :: init[j] == chats[j];
        acc
  }

  /** Which finalisation a batch runs: the one written, which also closes DECLINED
      chats, or the intended one, which leaves them alone. */
  datatype Rule = AsWritten | Intended

  /** Does the rule's finalisation act on the chat? */
  predicate Ready(rule: Rule, w: World, chat: nat) {
    if rule == AsWritten then CanFinalize(w, chat) else Exchangeable(w, chat)
  }

  /** Every chat keeps its status, except that a chat the rule acts on in `w0` may
      have been CLOSED. */
  predicate ClosesOnly(rule: Rule, w0: World, w: World) {
    |w.chats.chats| == |w0.chats.chats| && w.chats.members == w0.chats.members
    && forall j | 0 <= j < |w0.chats.chats| ::
         StatusOf(w, j) == StatusOf(w0, j) || (Ready(rule, w0, j) && StatusOf(w, j) == Some(Chats.Closed))
  }

  /** The first `k` listed chats the rule acts on in `w0` are CLOSED. */
  predicate ClosedUpTo(rule: Rule, w0: World, w: World, items: seq<(nat, Option<string>)>, k: nat)
    requires k <= |items|
  {
    forall i | 0 <= i < k && Ready(rule, w0, items[i].0) :: StatusOf(w, items[i].0) == Some(Chats.Closed)
  }

  /** Whether the rule acts on a chat depends only on its status and the members. */
  lemma ReadyFrame(rule: Rule, w: World, w': World, chat: nat)
    requires w'.chats.members == w.chats.members && StatusOf(w', chat) == StatusOf(w, chat)
    ensures Ready(rule, w', chat) == Ready(rule, w, chat)
  {
    SameParticipants(w, w', chat);
  }

  /** What one exchange of the batch does to the chat statuses. */
  predicate StepEffect(rule: Rule, w: World, next: World, chat: nat) {
    |next.chats.chats| == |w.chats.chats| && next.chats.members == w.chats.members
    && (forall j | 0 <= j < |w.chats.chats| && j != chat :: next.chats.chats[j] == w.chats.chats[j])
    && (!Ready(rule, w, chat) ==> next == w)
    && (Ready(rule, w, chat) ==> StatusOf(next, chat) == Some(Chats.Closed))
  }

  /** One exchange of the batch keeps `ClosesOnly`. */
  lemma StepClosesOnly(rule: Rule, w0: World, w: World, next: World, chat: nat)
    requires ClosesOnly(rule, w0, w) && StepEffect(rule, w, next, chat)
    ensures ClosesOnly(rule, w0, next)
  {
    forall j | 0 <= j < |w0.chats.chats|
      ensures StatusOf(next, j) == StatusOf(w0, j) || (Ready(rule, w0, j) && StatusOf(next, j) == Some(Chats.Closed))
    {
      if j != chat {
        assert StatusOf(next, j) == StatusOf(w, j);
      } else if Ready(rule, w, chat) {
        assert StatusOf(w, chat) != Some(Chats.Closed);
        ReadyFrame(rule, w0, w, chat);
      }
    }
  }

  /** One exchange of the batch extends `ClosedUpTo` by its own chat. */
  lemma StepClosedUpTo(rule: Rule, w0: World, w: World, next: World, items: seq<(nat, Option<string>)>, k: nat)
    requires k < |items|
    requires ClosesOnly(rule, w0, w) && ClosedUpTo(rule, w0, w, items, k) && StepEffect(rule, w, next, items[k].0)
    ensures ClosedUpTo(rule, w0, next, items, k + 1)
  {
    var chat := items[k].0;
    forall i | 0 <= i < k + 1 && Ready(rule, w0, items[i].0)
      ensures StatusOf(next, items[i].0) == Some(Chats.Closed)
    {
      var j := items[i].0;
      if StatusOf(w, j) == Some(Chats.Closed) {
        if j == chat {
          assert !Ready(rule, w, chat);
        }
      } else {
        assert i == k;
        ReadyFrame(rule, w0, w, chat);
      }
    }
  }

  /** Every chat not in the list keeps its status. */
  predicate KeepsUnlisted(w0: World, w: World, items: seq<(nat, Option<string>)>) {
    forall j | 0 <= j < |w0.chats.chats| && !Listed(items, j) :: StatusOf(w, j) == StatusOf(w0, j)
  }

  /** One exchange of the batch touches only its own chat, which joins the list. */
  lemma StepKeepsUnlisted(rule: Rule, w0: World, w: World, next: World, items: seq<(nat, Option<string>)>, k: nat)
    requires k < |items| && |w.chats.chats| == |w0.chats.chats|
    requires KeepsUnlisted(w0, w, items[..k]) && StepEffect(rule, w, next, items[k].0)
    ensures KeepsUnlisted(w0, next, items[..k + 1])
  {
    forall j | 0 <= j < |w0.chats.chats| && !Listed(items[..k + 1], j)
      ensures StatusOf(next, j) == StatusOf(w0, j)
    {
      assert items[..k + 1][k] == items[k];
      assert j != items[k].0;
      assert StatusOf(next, j) == StatusOf(w, j);
    }
  }

  /** One exchange of a batch, seen only through what the batch needs. */
  method CloseOne(rule: Rule, w: World, chat: nat, title: Option<string>) returns (w': World)
    ensures StepEffect(rule, w, w', chat)
  {
    if rule == AsWritten {
      w' := FinalizeAsWritten(w, chat, title);
    } else {
      w' := Finalize(w, chat, title);
    }
  }

  /** Finalising a list of chats in turn: every listed chat the rule acts on ends
      CLOSED, no chat changes except by being closed under the rule, and a chat
      not in the list keeps its status. */
  method FinalizeAll(rule: Rule, w: World, items: seq<(nat, Option<string>)>) returns (w': World)
    ensures ClosesOnly(rule, w, w')
    ensures forall i | 0 <= i < |items| && Ready(rule, w, items[i].0) :: StatusOf(w', items[i].0) == Some(Chats.Closed)
    ensures KeepsUnlisted(w, w', items)
  {
    w' := w;
    var k := 0;
    while k < |items|
      invariant 0 <= k <= |items|
      invariant ClosesOnly(rule, w, w') && ClosedUpTo(rule, w, w', items, k)
      invariant KeepsUnlisted(w, w', items[..k])
    {
      var next := CloseOne(rule, w', items[k].0, items[k].1);
      StepClosesOnly(rule, w, w', next, items[k].0);
      StepClosedUpTo(rule, w, w', next, items, k);
      StepKeepsUnlisted(rule, w, w', next, items, k);
      w' := next;
      k := k + 1;
    }
    assert ClosedUpTo(rule, w, w', items, |items|);
    assert items[..|items|] == items;
  }

  /** The chats a shared contact finalises: those of the user's waiting
      OWNER_APPROVED notifications, or, when there are none, the ACTIVE chats in
      which the user is the claimant. */
  function SharedChats(w: World, user: Users.UserId): (items: seq<(nat, Option<string>)>)
    ensures forall k | 0 <= k < |w.notes.rows| && ApprovalRow(w.notes.rows[k], user) ::
      Listed(items, w.notes.rows[k].chatId.value)
    ensures (forall k | 0 <= k < |w.notes.rows| :: !ApprovalRow(w.notes.rows[k], user)) ==>
      forall j | 0 <= j < |w.chats.chats| && w.chats.chats[j].claimant == user
                 && w.chats.chats[j].status == Chats.Active :: Listed(items, j)
  {
    var approved := ApprovedChats(w.notes.rows, user);
    assert forall k | 0 <= k < |w.notes.rows| && ApprovalRow(w.notes.rows[k], user) :: |approved| > 0;
    assert |approved| > 0 ==> exists k | 0 <= k < |w.notes.rows| :: ApprovalRow(w.notes.rows[k], user) && w.notes.rows[k].chatId == Some(approved[0].0);
    if |approved| > 0 then approved else ActiveChatsOf(w.chats.chats, user)
  }

  /** `handleContactShareEvent(userId)`, run when a user shares a phone number: every
      chat of the user's waiting OWNER_APPROVED notifications, or, when there are
      none, every ACTIVE chat in which the user is the claimant, has its exchange
      finalised. CLOSED chats keep their status; a DECLINED chat named by an
      approval row is closed and its contacts revealed like any other. */
  method ContactShareEvent(w: World, user: Users.UserId) returns (w': World)
    ensures ClosesOnly(AsWritten, w, w')
    ensures forall j | 0 <= j < |w.chats.chats| && StatusOf(w, j) == Some(Chats.Closed) ::
      StatusOf(w', j) == Some(Chats.Closed)
    ensures forall k | 0 <= k < |w.notes.rows| && ApprovalRow(w.notes.rows[k], user)
                       && CanFinalize(w, w.notes.rows[k].chatId.value) ::
      StatusOf(w', w.notes.rows[k].chatId.value) == Some(Chats.Closed)
    ensures (forall k | 0 <= k < |w.notes.rows| :: !ApprovalRow(w.notes.rows[k], user)) ==>
      forall j | 0 <= j < |w.chats.chats| && w.chats.chats[j].claimant == user
                 && w.chats.chats[j].status == Chats.Active && CanFinalize(w, j) ::
        StatusOf(w', j) == Some(Chats.Closed)
    ensures KeepsUnlisted(w, w', SharedChats(w, user))
  {
    var items := SharedChats(w, user);
    w' := FinalizeAll(AsWritten, w, items);
    ListedCloses(AsWritten, w, w', items);
  }

  /** The shared-contact handler as evidently intended: DECLINED chats, like
      CLOSED ones, keep their status. */
  method ContactShareEventIntended(w: World, user: Users.UserId) returns (w': World)
    ensures ClosesOnly(Intended, w, w')
    ensures forall j | 0 <= j < |w.chats.chats| && StatusOf(w, j) in {Some(Chats.Declined), Some(Chats.Closed)} ::
      StatusOf(w', j) == StatusOf(w, j)
    ensures forall k | 0 <= k < |w.notes.rows| && ApprovalRow(w.notes.rows[k], user)
                       && Exchangeable(w, w.notes.rows[k].chatId.value) ::
      StatusOf(w', w.notes.rows[k].chatId.value) == Some(Chats.Closed)
    ensures KeepsUnlisted(w, w', SharedChats(w, user))
  {
    var items := SharedChats(w, user);
    w' := FinalizeAll(Intended, w, items);
    ListedCloses(Intended, w, w', items);
  }

  /** Every listed chat the rule acts on is closed by the batch. */
  lemma ListedCloses(rule: Rule, w: World, w': World, items: seq<(nat, Option<string>)>)
    requires forall i | 0 <= i < |items| && Ready(rule, w, items[i].0) :: StatusOf(w', items[i].0) == Some(Chats.Closed)
    ensures forall c | Listed(items, c) && Ready(rule, w, c) :: StatusOf(w', c) == Some(Chats.Closed)
  {
  }
}
