/** The ownership check between the person who lost a thing (the claimant) and the
    person who found it (the holder): a match button opens an owner-check chat,
    the claimant answers the holder's secret questions, the holder is asked to
    review them, and the contacts are revealed once the exchange is finalised.
    The holder's decision and the exchange requests are in `Decision`. */
module Owner {
  import opened Wrappers
  import opened Text
  import opened Store
  import opened Inbox
  import N = Notifications
  import Chats
  import Sessions
  import Flows
  import Drafts
  import Display
  import Users

  // ---------------------------------------------------------------------------
  // Texts

  const DefaultPostscript := "Договоритесь о передаче и подтвердите, когда всё успешно завершится."
  const PhoneLabel := "• Телефон: "
  const MaskedNote := "• Телефон откроется после того, как вы поделитесь своим контактом."
  const NoPhoneLine := "• Телефон: не передан (попросите поделиться контактом в MAX)"
  const NoDataNote := ": пока нет данных. Попробуйте запросить повторно или свяжитесь через мини-приложение."
  const NoAnswers := "Ответов нет."
  /** The role labels: the holder is shown the owner's contact, the claimant the finder's. */
  const OwnerRole := "владельца"
  const FinderRole := "нашедшего"
  const OwnerContactTitle := "Контакт владельца — "
  const FinderContactTitle := "Контакт нашедшего — "
  const ContactsOpenBody := "Контакты владельца открыты. Свяжитесь с ним напрямую."
  const ReviewTitle := "Заявка по находке "
  const CheckTitle := "Проверка по объявлению "
  const ReviewIntro := "Пользователь утверждает, что вещь принадлежит ему."
  const ReviewOutro := "Сравните ответы с вашими секретами и решите, совпадает ли всё."
  const WaitingBody := "⌛ Ждём подтверждения найденного. Как только найдётся совпадение, вы увидите результат в уведомлениях."
  const AnswerPrefix := "Ответ на вопрос "

  /** `«title»` in the shortened form every notification title uses. */
  function Quoted(title: Option<string>): string {
    "«" + Display.FormatListingTitle(title) + "»"
  }

  /** `a || b` on two titles. */
  function EitherTitle(a: Option<string>, b: Option<string>): (r: Option<string>)
    ensures Users.Truthy(a) ==> r == a
    ensures !Users.Truthy(a) ==> r == b
  {
    if Users.Truthy(a) then a else b
  }

  /** The `{ chatId, listingTitle }` payload the owner notifications carry. */
  function Ref(chat: nat, title: Option<string>): (p: N.Payload)
    ensures "chatId" in p && p["chatId"] == N.Num(chat)
  {
    map["chatId" := N.Num(chat), "listingTitle" := if title.Some? then N.Str(title.value) else N.JsonNull]
  }

  /** A notification patch with a status, a payload and optionally a title and a
      body. */
  function Note(title: Option<string>, body: Option<string>, status: N.Status, payload: N.Payload): (d: N.Data)
    ensures d.status == N.Given(status)
    ensures body.Some? ==> d.body == N.Given(body.value)
  {
    N.Data(if title.Some? then N.Given(title.value) else N.Absent,
           if body.Some? then N.Given(body.value) else N.Absent,
           N.Given(status), N.Given(payload), N.Absent)
  }

  // ---------------------------------------------------------------------------
  // Contact announcements

  /** The lines of `formatContactAnnouncement` for a known account. */
  function AnnouncementLines(role: string, contact: Users.User, mask: bool, postscript: string): (lines: seq<string>)
    ensures |lines| >= 2 && lines[0] == "📇 Контакт " + role + ":"
    ensures |lines| == 2 <==> postscript == "" && !(mask && Users.Truthy(contact.phone))
  {
    var phoneLines :=
      if Users.Truthy(contact.phone) then
        [PhoneLabel + (if mask then Display.MaskPhone(contact.phone) else contact.phone.value)]
        + (if mask then [MaskedNote] else [])
      else [NoPhoneLine];
    ["📇 Контакт " + role + ":"] + phoneLines + (if postscript != "" then ["", postscript] else [])
  }

  /** `formatContactAnnouncement(roleLabel, contact, { maskPhone, postscript })`. */
  function Announcement(role: string, contact: Option<Users.User>, mask: bool, postscript: string): (r: string)
    ensures contact.None? ==> r == "📇 Контакт " + role + NoDataNote
  {
    match contact
    case None => "📇 Контакт " + role + NoDataNote
    case Some(c) => Join(AnnouncementLines(role, c, mask, postscript), '\n')
  }

  lemma {:induction false} JoinStartsWithSecond(parts: seq<string>, sep: char)
    requires |parts| >= 2
    ensures StartsWith(Join(parts, sep), parts[0] + [sep] + parts[1])
    decreases |parts|
  {
    if |parts| > 2 {
      var rest := parts[1..];
      JoinStartsWithFirst(rest, sep);
      assert Join(parts, sep) == parts[0] + [sep] + Join(rest, sep);
      assert Join(parts, sep)[..|parts[0] + [sep] + parts[1]|] == parts[0] + [sep] + Join(rest, sep)[..|parts[1]|];
    }
  }

  lemma JoinStartsWithFirst(parts: seq<string>, sep: char)
    requires |parts| >= 1
    ensures StartsWith(Join(parts, sep), parts[0])
  {
  }

  /** The plain announcement shows the account's phone number as stored; the masked
      one depends on the number only through its digit count, so two numbers with
      as many digits give the same text, and it shows no digit of the number. */
  lemma {:induction false} AnnouncementMasking(role: string, a: Users.User, b: Users.User, postscript: string)
    requires Users.Truthy(a.phone) && Users.Truthy(b.phone)
    requires |Users.DigitsOf(a.phone.value)| == |Users.DigitsOf(b.phone.value)|
    ensures Includes(Announcement(role, Some(a), false, postscript), PhoneLabel + a.phone.value)
    ensures Announcement(role, Some(a), true, postscript) == Announcement(role, Some(b), true, postscript)
    ensures forall i | 0 <= i < |Display.MaskPhone(a.phone)| :: !IsDigit(Display.MaskPhone(a.phone)[i])
  {
    Display.MaskRevealsOnlyLength(a.phone.value, b.phone.value);
    var lines := AnnouncementLines(role, a, false, postscript);
    var text := Join(lines, '\n');
    JoinStartsWithSecond(lines, '\n');
    var j := |lines[0]| + 1;
    var pat := PhoneLabel + a.phone.value;
    assert lines[1] == pat;
    assert text[j..j + |pat|] == pat by {
      assert text[..|lines[0] + ['\n'] + lines[1]|] == lines[0] + ['\n'] + lines[1];
      assert (lines[0] + ['\n'] + lines[1])[j..j + |pat|] == pat;
    }
    assert OccursAt(text, pat, j);
  }

  /** What the holder is shown: the claimant's contact, the owner's. */
  function HolderText(w: World, claimant: nat): string {
    Announcement(OwnerRole, Users.FetchContact(w.users, Some(claimant)), false, DefaultPostscript)
  }

  /** What the claimant is shown: the holder's contact, the finder's. */
  function ClaimantText(w: World, holder: nat): string {
    Announcement(FinderRole, Users.FetchContact(w.users, Some(holder)), false, DefaultPostscript)
  }

  // ---------------------------------------------------------------------------
  // Chat participants

  /** `participants.find(m => m.role === 'HOLDER')` over the chat's fetched
      members, which `Chats.FirstInChatFetched` shows is the first HOLDER row of
      the chat. */
  function HolderOf(w: World, chat: nat): Option<nat> {
    Chats.FirstInChat(w.chats.members, chat, Chats.Holder)
  }

  /** `participants.find(m => m.role === 'CLAIMANT')`, likewise. */
  function ClaimantOf(w: World, chat: nat): Option<nat> {
    Chats.FirstInChat(w.chats.members, chat, Chats.Claimant)
  }

  /** The status of a chat, when it exists. */
  function StatusOf(w: World, chat: nat): Option<Chats.ChatStatus> {
    if chat < |w.chats.chats| then Some(w.chats.chats[chat].status) else None
  }

  function SetStatus(w: World, chat: nat, status: Chats.ChatStatus): (w': World)
    ensures w' == w.(chats := Chats.UpdateChatStatus(w.chats, chat, status))
    ensures chat < |w.chats.chats| ==> StatusOf(w', chat) == Some(status)
    ensures HolderOf(w', chat) == HolderOf(w, chat) && ClaimantOf(w', chat) == ClaimantOf(w, chat)
  {
    w.(chats := Chats.UpdateChatStatus(w.chats, chat, status))
  }

  /** Every chat keeps its status. */
  predicate SameStatuses(w: World, w': World) {
    |w'.chats.chats| == |w.chats.chats|
    && forall j | 0 <= j < |w.chats.chats| :: w'.chats.chats[j].status == w.chats.chats[j].status
  }

  /** Both sides see the other's contact for the chat: each has an unread
      CONTACT_AVAILABLE notification, the holder's showing the claimant's contact
      and the claimant's showing the holder's. */
  predicate Revealed(w: World, holder: nat, claimant: nat, chat: nat) {
    Shows(w.notes, holder, N.ContactAvailable, chat, N.Unread)
    && Shows(w.notes, claimant, N.ContactAvailable, chat, N.Unread)
    && (holder != claimant ==>
          Newest(w.notes, holder, N.ContactAvailable, chat).value.body == Some(HolderText(w, claimant))
          && Newest(w.notes, claimant, N.ContactAvailable, chat).value.body == Some(ClaimantText(w, holder)))
  }

  /** Two states with the same notifications and users reveal the same contacts. */
  lemma RevealedFrame(w: World, w': World, holder: nat, claimant: nat, chat: nat)
    requires Revealed(w, holder, claimant, chat)
    requires w'.users == w.users
    requires Newest(w'.notes, holder, N.ContactAvailable, chat) == Newest(w.notes, holder, N.ContactAvailable, chat)
    requires Newest(w'.notes, claimant, N.ContactAvailable, chat) == Newest(w.notes, claimant, N.ContactAvailable, chat)
    ensures Revealed(w', holder, claimant, chat)
  {
  }

  // ---------------------------------------------------------------------------
  // Revealing contacts

  /** `revealContacts(holderId, claimantId, { chatId, listingTitle })`: each side
      is sent the other's contact; with a chat the holder's exchange request and
      the claimant's approval are resolved and both get a CONTACT_AVAILABLE
      notification. Only notifications change. */
  method RevealContacts(w: World, holder: nat, claimant: nat, chat: Option<nat>, title: Option<string>) returns (w': World)
    ensures w' == w.(notes := w'.notes)
    ensures chat.None? ==> w' == w
    ensures chat.Some? ==> Revealed(w', holder, claimant, chat.value)
    ensures chat.Some? ==> Shows(w'.notes, holder, N.ContactShareRequest, chat.value, N.Resolved)
    ensures chat.Some? ==> Shows(w'.notes, claimant, N.OwnerApproved, chat.value, N.Resolved)
    ensures chat.Some? && holder != claimant ==>
      Newest(w'.notes, claimant, N.OwnerApproved, chat.value).value.body == Some(ClaimantText(w, holder))
  {
    if chat.None? {
      return w;
    }
    var c := chat.value;
    var ref := Ref(c, title);
    var d1 := Note(None, Some(ContactsOpenBody), N.Resolved, ref);
    var d2 := Note(None, Some(ClaimantText(w, holder)), N.Resolved, ref);
    var t2 := ResolveRequests(w.notes, holder, claimant, c, d1, d2);
    var t4 := ShowContacts(t2, holder, claimant, c, title, HolderText(w, claimant), ClaimantText(w, holder));
    w' := w.(notes := t4);
  }

  /** The first half of `revealContacts`: the holder's exchange request and the
      claimant's approval are upserted. */
  method ResolveRequests(t: N.Table, holder: nat, claimant: nat, c: nat, d1: N.Data, d2: N.Data) returns (t': N.Table)
    requires d1.status == N.Given(N.Resolved) && d2.status == N.Given(N.Resolved) && d2.body.Given?
    ensures t' == Put(Put(t, holder, N.ContactShareRequest, c, d1), claimant, N.OwnerApproved, c, d2)
    ensures Shows(t', holder, N.ContactShareRequest, c, N.Resolved)
    ensures Shows(t', claimant, N.OwnerApproved, c, N.Resolved)
    ensures Newest(t', claimant, N.OwnerApproved, c).value.body == Some(d2.body.value)
  {
    var t1 := Put(t, holder, N.ContactShareRequest, c, d1);
    t' := Put(t1, claimant, N.OwnerApproved, c, d2);
    PutElsewhere(t1, claimant, N.OwnerApproved, c, d2, holder, N.ContactShareRequest, c);
  }

  /** The second half of `revealContacts`: each side gets an unread
      CONTACT_AVAILABLE with the other's contact; the two keys written before keep
      their newest rows. */
  method ShowContacts(t: N.Table, holder: nat, claimant: nat, c: nat, title: Option<string>,
                      holderText: string, claimantText: string) returns (t': N.Table)
    ensures Shows(t', holder, N.ContactAvailable, c, N.Unread)
    ensures Shows(t', claimant, N.ContactAvailable, c, N.Unread)
    ensures holder != claimant ==>
      Newest(t', holder, N.ContactAvailable, c).value.body == Some(holderText)
      && Newest(t', claimant, N.ContactAvailable, c).value.body == Some(claimantText)
    ensures Newest(t', holder, N.ContactShareRequest, c) == Newest(t, holder, N.ContactShareRequest, c)
    ensures Newest(t', claimant, N.OwnerApproved, c) == Newest(t, claimant, N.OwnerApproved, c)
  {
    var ref := Ref(c, title);
    var d3 := Note(Some(OwnerContactTitle + Quoted(title)), Some(holderText), N.Unread, ref);
    var d4 := Note(Some(FinderContactTitle + Quoted(title)), Some(claimantText), N.Unread, ref);
    var t3 := Put(t, holder, N.ContactAvailable, c, d3);
    PutElsewhere(t, holder, N.ContactAvailable, c, d3, holder, N.ContactShareRequest, c);
    PutElsewhere(t, holder, N.ContactAvailable, c, d3, claimant, N.OwnerApproved, c);
    t' := Put(t3, claimant, N.ContactAvailable, c, d4);
    PutElsewhere(t3, claimant, N.ContactAvailable, c, d4, holder, N.ContactShareRequest, c);
    PutElsewhere(t3, claimant, N.ContactAvailable, c, d4, claimant, N.OwnerApproved, c);
    if holder != claimant {
      PutElsewhere(t3, claimant, N.ContactAvailable, c, d4, holder, N.ContactAvailable, c);
    }
  }

  // ---------------------------------------------------------------------------
  // Finalising the exchange

  /** Can `finalizeContactExchange` go ahead on a chat? It exists, is not CLOSED,
      and has a holder and a claimant. */
  predicate CanFinalize(w: World, chat: nat) {
    StatusOf(w, chat).Some? && StatusOf(w, chat) != Some(Chats.Closed)
    && HolderOf(w, chat).Some? && ClaimantOf(w, chat).Some?
  }

  /** A chat whose exchange can still happen: it has both sides and is PENDING or
      ACTIVE. */
  predicate Exchangeable(w: World, chat: nat) {
    CanFinalize(w, chat) && StatusOf(w, chat) != Some(Chats.Declined)
  }

  /** The state after an exchange on a chat: CLOSED, the contacts revealed, the
      holder's request and the claimant's approval and waiting notifications
      resolved, both sessions ended, and users and listings untouched. */
  predicate Exchanged(w: World, w': World, chat: nat)
    requires CanFinalize(w, chat)
  {
    var (h, c) := (HolderOf(w, chat).value, ClaimantOf(w, chat).value);
    w'.chats == Chats.UpdateChatStatus(w.chats, chat, Chats.Closed)
    && StatusOf(w', chat) == Some(Chats.Closed)
    && Revealed(w', h, c, chat)
    && Shows(w'.notes, h, N.ContactShareRequest, chat, N.Resolved)
    && Shows(w'.notes, c, N.OwnerApproved, chat, N.Resolved)
    && Shows(w'.notes, c, N.OwnerWaiting, chat, N.Resolved)
    && h !in w'.sessions && c !in w'.sessions
    && w'.users == w.users && w'.listings == w.listings
  }

  /** The title an exchange shows: the one passed in, else the found listing's,
      else the lost listing's (`??` at each step). */
  function ExchangeTitle(w: World, chat: nat, title: Option<string>): (r: Option<string>)
    requires chat < |w.chats.chats|
    ensures title.Some? ==> r == title
    ensures title.None? && FetchListing(w, Some(w.chats.chats[chat].foundListing)).Some? ==>
      r == Some(w.listings[w.chats.chats[chat].foundListing].payload.title)
  {
    var c := w.chats.chats[chat];
    title.OrElse(ListingTitle(w, Some(c.foundListing))).OrElse(ListingTitle(w, Some(c.lostListing)))
  }

  /** `finalizeContactExchange(chatId, { listingTitle })` as written: a chat that
      is not CLOSED and has both sides is CLOSED and its contacts revealed. A
      DECLINED chat is not refused, so a chat the holder turned down is closed
      and both sides are shown each other's contact. */
  method FinalizeAsWritten(w: World, chat: nat, title: Option<string>) returns (w': World)
    ensures !CanFinalize(w, chat) ==> w' == w
    ensures CanFinalize(w, chat) ==> Exchanged(w, w', chat)
    ensures |w'.chats.chats| == |w.chats.chats| && w'.chats.members == w.chats.members
    ensures forall j | 0 <= j < |w.chats.chats| && j != chat :: w'.chats.chats[j] == w.chats.chats[j]
    ensures StatusOf(w, chat) == Some(Chats.Declined) && HolderOf(w, chat).Some? && ClaimantOf(w, chat).Some? ==>
      StatusOf(w', chat) == Some(Chats.Closed) && Revealed(w', HolderOf(w, chat).value, ClaimantOf(w, chat).value, chat)
  {
    if !CanFinalize(w, chat) {
      return w;
    }
    var holder := HolderOf(w, chat).value;
    var claimant := ClaimantOf(w, chat).value;
    var effective := ExchangeTitle(w, chat, title);
    var w1 := SetStatus(w, chat, Chats.Closed);
    var w2 := RevealContacts(w1, holder, claimant, Some(chat), effective);
    var d := Note(None, None, N.Resolved, Ref(chat, effective));
    var t3 := Put(w2.notes, claimant, N.OwnerWaiting, chat, d);
    PutElsewhere(w2.notes, claimant, N.OwnerWaiting, chat, d, holder, N.ContactAvailable, chat);
    PutElsewhere(w2.notes, claimant, N.OwnerWaiting, chat, d, claimant, N.ContactAvailable, chat);
    PutElsewhere(w2.notes, claimant, N.OwnerWaiting, chat, d, holder, N.ContactShareRequest, chat);
    PutElsewhere(w2.notes, claimant, N.OwnerWaiting, chat, d, claimant, N.OwnerApproved, chat);
    RevealedFrame(w2, w2.(notes := t3), holder, claimant, chat);
    w' := ClearRecord(ClearRecord(w2.(notes := t3), holder), claimant);
  }

  /** The exchange as evidently intended: it goes ahead only on a PENDING or ACTIVE
      chat, so a chat the holder DECLINED is never closed and its contacts are
      never revealed. Only the chat's own row changes among the chats. */
  method Finalize(w: World, chat: nat, title: Option<string>) returns (w': World)
    ensures StatusOf(w, chat) == Some(Chats.Declined) ==> w' == w
    ensures !Exchangeable(w, chat) ==> w' == w
    ensures Exchangeable(w, chat) ==> Exchanged(w, w', chat)
    ensures |w'.chats.chats| == |w.chats.chats| && w'.chats.members == w.chats.members
    ensures forall j | 0 <= j < |w.chats.chats| && j != chat :: w'.chats.chats[j] == w.chats.chats[j]
  {
    if StatusOf(w, chat) == Some(Chats.Declined) {
      return w;
    }
    w' := FinalizeAsWritten(w, chat, title);
  }

  // ---------------------------------------------------------------------------
  // The review request

  function OwnerPayload(check: Sessions.OwnerCheck): (p: Sessions.Payload)
    ensures p.flow == Some(Flows.Owner) && p.ownerCheck == Some(check) && p.listing.None?
  {
    Sessions.Payload(Some(Flows.Owner), None, Drafts.NoMeta, Some(check), None)
  }

  /** One answered question in the summary. */
  function AnswerBlock(n: nat, qa: Sessions.QA): string {
    "Вопрос " + NatToText(n) + ": " + qa.question + "\nОтвет: " + qa.answer
  }

  function AnswerBlocks(answers: seq<Sessions.QA>, from: nat): (r: seq<string>)
    ensures |r| == |answers|
    ensures forall i | 0 <= i < |r| :: r[i] == AnswerBlock(from + i, answers[i])
    decreases |answers|
  {
    if |answers| == 0 then [] else [AnswerBlock(from, answers[0])] + AnswerBlocks(answers[1..], from + 1)
  }

  function JoinParagraphs(blocks: seq<string>): string
    decreases |blocks|
  {
    if |blocks| == 0 then ""
    else if |blocks| == 1 then blocks[0]
    else blocks[0] + "\n\n" + JoinParagraphs(blocks[1..])
  }

  /** `buildOwnerReviewSummary(answers)`: the answers numbered from one, or a note
      that there are none. */
  function ReviewSummary(answers: seq<Sessions.QA>): (r: string)
    ensures |answers| == 0 <==> r == NoAnswers
    ensures |answers| > 0 ==> StartsWith(r, AnswerBlock(1, answers[0]))
  {
    if |answers| == 0 then NoAnswers
    else
      var blocks := AnswerBlocks(answers, 1);
      assert StartsWith(JoinParagraphs(blocks), blocks[0]);
      assert blocks[0][..|"Вопрос "|] == "Вопрос ";
      JoinParagraphs(blocks)
  }

  const ReviewMessageType := map["type" := N.Str("owner_review")]

  /** The body of the holder's review request. */
  function ReviewBody(summary: string): string {
    ReviewIntro + "\n\n" + summary + "\n\n" + ReviewOutro
  }

  /** `notifyOwnerForReview(ownerCheck)`: the summary of the answers goes into the
      chat, the holder's session is set to the waiting step with the check (over
      whatever the holder was doing), the holder gets an OWNER_REVIEW asking for a
      decision with the answers in its body, and the claimant an unread
      OWNER_WAITING. Chat statuses, users and listings do not change. */
  method NotifyOwnerForReview(w: World, check: Sessions.OwnerCheck) returns (w': World)
    ensures w'.chats == Chats.AppendSystemMessage(w.chats, check.chat, ReviewSummary(check.answers), ReviewMessageType)
    ensures SameStatuses(w, w') && w'.chats.members == w.chats.members
    ensures w'.sessions == w.sessions[check.holder := Sessions.Record(Flows.OwnerWaiting, OwnerPayload(check))]
    ensures Shows(w'.notes, check.holder, N.OwnerReview, check.chat, N.Action)
    ensures Newest(w'.notes, check.holder, N.OwnerReview, check.chat).value.body
            == Some(ReviewBody(ReviewSummary(check.answers)))
    ensures Shows(w'.notes, check.claimant, N.OwnerWaiting, check.chat, N.Unread)
    ensures w'.users == w.users && w'.listings == w.listings
  {
    var summary := ReviewSummary(check.answers);
    var chats := Chats.AppendSystemMessage(w.chats, check.chat, summary, ReviewMessageType);
    var w1 := SaveRecord(w.(chats := chats), check.holder, Sessions.Record(Flows.OwnerWaiting, OwnerPayload(check)));
    var ref := Ref(check.chat, check.foundTitle);
    var d1 := Note(Some(ReviewTitle + Quoted(check.foundTitle)), Some(ReviewBody(summary)), N.Action, ref);
    var d2 := Note(Some(CheckTitle + Quoted(check.foundTitle)), Some(WaitingBody), N.Unread, ref);
    var t1 := Put(w1.notes, check.holder, N.OwnerReview, check.chat, d1);
    var t2 := Put(t1, check.claimant, N.OwnerWaiting, check.chat, d2);
    PutElsewhere(t1, check.claimant, N.OwnerWaiting, check.chat, d2, check.holder, N.OwnerReview, check.chat);
    w' := w1.(notes := t2);
  }

  // ---------------------------------------------------------------------------
  // Answering the questions

  /** A check whose answers are the first `index` questions, in order. */
  predicate Consistent(check: Sessions.OwnerCheck) {
    |check.answers| == check.index <= |check.questions|
    && forall i | 0 <= i < check.index :: check.answers[i].question == check.questions[i]
  }

  function AnswerMessageMeta(question: string, step: nat): N.Payload {
    map["type" := N.Str("owner_answer"), "question" := N.Str(question), "step" := N.Num(step)]
  }

  /** The check after answering its current question. */
  function Answered(check: Sessions.OwnerCheck, text: string): (c: Sessions.OwnerCheck)
    requires check.index < |check.questions|
    ensures c == check.(answers := c.answers, index := check.index + 1)
    ensures c.answers == check.answers + [Sessions.QA(check.questions[check.index], text)]
    ensures Consistent(check) ==> Consistent(c)
  {
    check.(answers := check.answers + [Sessions.QA(check.questions[check.index], text)], index := check.index + 1)
  }

  /** Entering the question step on an unanswered question, or the waiting step,
      saves that step as it is. */
  lemma OwnerStepLanding(step: Flows.Step, p: Sessions.Payload)
    requires step == Flows.OwnerWaiting
      || (step == Flows.OwnerQuestion && p.ownerCheck.Some? && p.ownerCheck.value.index < |p.ownerCheck.value.questions|)
    ensures Sessions.Settle(step, Some(p)) == Some(Sessions.Record(step, p))
  {
    Sessions.SettlePlain(step, p);
    assert Sessions.CreateRuntime(Some(Sessions.Record(step, p))).payload.value.ownerCheck == p.ownerCheck;
    Sessions.EnterStays(Sessions.Record(step, p));
  }

  /** The message logged in the chat for the answer to question `n`. */
  function AnswerText(n: nat, answer: string): string {
    AnswerPrefix + NatToText(n) + ": " + answer
  }

  /** Recording a non-blank answer to the current question of a check: the answer
      is logged in the chat and added to the check; the claimant gets the next
      question or, after the last one, waits while the holder is asked to review. */
  method RecordAnswer(w: World, user: Users.UserId, p: Sessions.Payload, answer: string) returns (w': World)
    requires p.ownerCheck.Some? && p.ownerCheck.value.index < |p.ownerCheck.value.questions|
    ensures var check := p.ownerCheck.value;
      var next := Answered(check, answer);
      user in w'.sessions
      && w'.sessions[user] == Sessions.Record(
           if next.index < |check.questions| then Flows.OwnerQuestion else Flows.OwnerWaiting,
           p.(ownerCheck := Some(next)))
      && |w'.chats.messages| > |w.chats.messages|
      && w'.chats.messages[|w.chats.messages|].body == AnswerText(check.index + 1, answer)
      && (next.index == |check.questions| && check.holder != user ==>
            check.holder in w'.sessions
            && w'.sessions[check.holder] == Sessions.Record(Flows.OwnerWaiting, OwnerPayload(next))
            && Shows(w'.notes, check.holder, N.OwnerReview, check.chat, N.Action))
  {
    var check := p.ownerCheck.value;
    var q := check.questions[check.index];
    var next := Answered(check, answer);
    var np := p.(ownerCheck := Some(next));
    var body := AnswerText(check.index + 1, answer);
    var n := |w.chats.messages|;
    var w1 := w.(chats := Chats.AppendSystemMessage(w.chats, check.chat, body, AnswerMessageMeta(q, check.index + 1)));
    assert w1.chats.messages[n].body == body;
    var hasMore := next.index < |check.questions|;
    var w2 := SaveRecord(w1, user, Sessions.Record(if hasMore then Flows.OwnerQuestion else Flows.OwnerWaiting, np));
    if hasMore {
      // `transitionToStep` saves the step as it is (`OwnerStepLanding`)
      OwnerStepLanding(Flows.OwnerQuestion, np);
      w' := SaveRecord(w2, user, Sessions.Record(Flows.OwnerQuestion, np));
    } else {
      var w3 := NotifyOwnerForReview(w2, next);
      assert w3.chats.messages[n] == (w3.chats.messages[..|w2.chats.messages|])[n];
      OwnerStepLanding(Flows.OwnerWaiting, np);
      w' := SaveRecord(w3, user, Sessions.Record(Flows.OwnerWaiting, np));
    }
  }

  /** The owner question step's `onMessage`: without a check or with a blank answer
      nothing changes; past the last question the claimant moves to waiting;
      otherwise the trimmed answer is recorded. The recorded answers stay one per
      question asked, in order. */
  method AnswerOwnerQuestion(w: World, user: Users.UserId, rt: Sessions.Runtime, text: string) returns (w': World)
    ensures rt.payload.None? || rt.payload.value.ownerCheck.None? || Trim(text) == "" ==> w' == w
    ensures rt.payload.Some? && rt.payload.value.ownerCheck.Some? && Trim(text) != ""
            && rt.payload.value.ownerCheck.value.index >= |rt.payload.value.ownerCheck.value.questions| ==>
      w' == w.(sessions := w.sessions[user := Sessions.Record(Flows.OwnerWaiting, rt.payload.value)])
    ensures rt.payload.Some? && rt.payload.value.ownerCheck.Some? && Trim(text) != ""
            && rt.payload.value.ownerCheck.value.index < |rt.payload.value.ownerCheck.value.questions| ==>
      var check := rt.payload.value.ownerCheck.value;
      user in w'.sessions
      && w'.sessions[user].payload == rt.payload.value.(ownerCheck := Some(Answered(check, Trim(text))))
      && |w'.chats.messages| > |w.chats.messages|
      && w'.chats.messages[|w.chats.messages|].body == AnswerText(check.index + 1, Trim(text))
    ensures rt.payload.Some? && rt.payload.value.ownerCheck.Some? && Trim(text) != ""
            && Consistent(rt.payload.value.ownerCheck.value) ==>
      user in w'.sessions && w'.sessions[user].payload.ownerCheck.Some?
      && Consistent(w'.sessions[user].payload.ownerCheck.value)
  {
    var answer := Trim(text);
    if rt.payload.None? || rt.payload.value.ownerCheck.None? || answer == "" {
      return w;
    }
    var p := rt.payload.value;
    var check := p.ownerCheck.value;
    if check.index >= |check.questions| {
      OwnerStepLanding(Flows.OwnerWaiting, p);
      return SaveSettled(w, user, Sessions.Settle(Flows.OwnerWaiting, Some(p)));
    }
    w' := RecordAnswer(w, user, p, answer);
  }

  // ---------------------------------------------------------------------------
  // Launching a check from a match

  /** The owner-check session a launch prepares. */
  function LaunchCheck(w: World, chat: nat, lost: nat, found: nat): (c: Sessions.OwnerCheck)
    requires lost < |w.listings| && found < |w.listings|
    ensures c.index == 0 && c.answers == [] && Consistent(c)
    ensures c.chat == chat && c.holder == w.listings[found].author && c.claimant == w.listings[lost].author
    ensures c.questions == Questions(w.listings[found])
  {
    Sessions.OwnerCheck(chat, lost, found, w.listings[found].author, w.listings[lost].author,
                        Questions(w.listings[found]), [], 0,
                        Some(w.listings[lost].payload.title), Some(w.listings[found].payload.title))
  }

  /** What `launchOwnerCheck` leaves behind. The open owner-check chat for the pair
      is found or created. If it is already ACTIVE the contacts are revealed at
      once, whether or not anyone shared a phone. Otherwise the chat is PENDING;
      with no questions both sides wait and the holder is asked to review, else
      the user is put on the first question. */
  predicate Launched(w: World, w': World, user: Users.UserId, lost: nat, found: nat)
    requires lost < |w.listings| && found < |w.listings|
  {
    var (chats, chat) := Chats.GetOrCreate(w.chats, Chats.OwnerCheck, lost, found, user,
                                           w.listings[found].author, w.listings[lost].author);
    var check := LaunchCheck(w, chat, lost, found);
    (chats.chats[chat].status == Chats.Active ==>
       w'.chats == chats && w'.sessions == w.sessions && w'.users == w.users
       && Revealed(w', check.holder, check.claimant, chat))
    && (chats.chats[chat].status != Chats.Active ==>
       StatusOf(w', chat) == Some(Chats.Pending)
       && (|check.questions| > 0 ==>
             w'.notes == w.notes
             && w'.sessions == w.sessions[user := Sessions.Record(Flows.OwnerQuestion, OwnerPayload(check))])
       && (|check.questions| == 0 ==>
             ReviewRequested(w', check)))
  }

  /** Entering the owner intro with a check under way moves to its first question. */
  lemma IntroLanding(check: Sessions.OwnerCheck)
    requires check.index < |check.questions|
    ensures Sessions.Settle(Flows.OwnerIntro, Some(OwnerPayload(check)))
            == Some(Sessions.Record(Flows.OwnerQuestion, OwnerPayload(check)))
  {
    var p := OwnerPayload(check);
    var saved := Sessions.Record(Flows.OwnerIntro, p);
    Sessions.SettlePlain(Flows.OwnerIntro, p);
    assert Sessions.CreateRuntime(Some(saved)).payload == Some(p);
    Sessions.EnterMoves(saved, Flows.OwnerQuestion, p);
    OwnerStepLanding(Flows.OwnerQuestion, p);
  }

  /** The part of `launchOwnerCheck` for a chat that is not yet ACTIVE: it is set
      PENDING; with no questions both sides wait and the holder is asked to
      review, else the user is put on the first question. */
  method StartCheck(w: World, user: Users.UserId, check: Sessions.OwnerCheck) returns (w': World)
    requires check.chat < |w.chats.chats| && check.index == 0
    ensures StatusOf(w', check.chat) == Some(Chats.Pending)
    ensures |check.questions| > 0 ==>
      w'.notes == w.notes && w'.sessions == w.sessions[user := Sessions.Record(Flows.OwnerQuestion, OwnerPayload(check))]
    ensures |check.questions| == 0 ==> ReviewRequested(w', check)
    ensures w'.listings == w.listings && w'.users == w.users
  {
    var w1 := SetStatus(w, check.chat, Chats.Pending);
    if |check.questions| == 0 {
      w' := RequestReview(w1, check);
    } else {
      var data := OwnerPayload(check);
      var w2 := SaveRecord(w1, user, Sessions.Record(Flows.OwnerIntro, data));
      IntroLanding(check);
      w' := SaveSettled(w2, user, Sessions.Settle(Flows.OwnerIntro, Some(data)));
    }
  }

  /** Both sides of a check wait and the holder is asked to review it. */
  predicate ReviewRequested(w: World, check: Sessions.OwnerCheck) {
    check.holder in w.sessions
    && w.sessions[check.holder] == Sessions.Record(Flows.OwnerWaiting, OwnerPayload(check))
    && (check.claimant != check.holder ==>
          check.claimant in w.sessions && w.sessions[check.claimant] == Sessions.Record(Flows.OwnerWaiting, OwnerPayload(check)))
    && Shows(w.notes, check.holder, N.OwnerReview, check.chat, N.Action)
    && Shows(w.notes, check.claimant, N.OwnerWaiting, check.chat, N.Unread)
  }

  /** A check with no questions: the claimant is saved waiting, then the holder is
      asked to review. */
  method RequestReview(w: World, check: Sessions.OwnerCheck) returns (w': World)
    ensures ReviewRequested(w', check)
    ensures SameStatuses(w, w') && w'.listings == w.listings && w'.users == w.users
  {
    var w1 := SaveRecord(w, check.claimant, Sessions.Record(Flows.OwnerWaiting, OwnerPayload(check)));
    w' := NotifyOwnerForReview(w1, check);
  }

  /** `launchOwnerCheck(user, { lostListing, foundListing })`. */
  method LaunchOwnerCheck(w: World, user: Users.UserId, lost: nat, found: nat) returns (w': World)
    requires lost < |w.listings| && found < |w.listings|
    ensures Launched(w, w', user, lost, found)
    ensures w'.listings == w.listings && w'.users == w.users
  {
    var holder := w.listings[found].author;
    var claimant := w.listings[lost].author;
    var (chats, chat) := Chats.GetOrCreate(w.chats, Chats.OwnerCheck, lost, found, user, holder, claimant);
    var w1 := w.(chats := chats);
    var status := chats.chats[chat].status;
    if status == Chats.Active || status == Chats.Closed {
      w' := RevealContacts(w1, holder, claimant, Some(chat), Some(w.listings[found].payload.title));
    } else {
      w' := StartCheck(w1, user, LaunchCheck(w, chat, lost, found));
    }
  }

  /** A pair the match button may launch a check for: the user's own LOST listing
      against someone else's FOUND listing. */
  predicate Launchable(w: World, user: Users.UserId, lost: nat, found: nat) {
    lost < |w.listings| && found < |w.listings|
    && w.listings[lost].author == user && w.listings[found].author != user
    && w.listings[lost].payload.kind == Drafts.LostListing
    && w.listings[found].payload.kind == Drafts.FoundListing
  }

  /** `parseMatchValue` followed by the handler's checks: the value is
      `<target>|<origin>`; the origin must be a listing of the user and the target
      a listing of someone else; only a LOST origin against a FOUND target yields
      the (lost, found) pair to launch. */
  function MatchPair(w: World, user: Users.UserId, value: string): (r: Option<(nat, nat)>)
    ensures r.Some? <==>
      var (target, origin) := Flows.ParsePair(value);
      target.Some? && origin.Some? && ParseNat(origin.value).Some? && ParseNat(target.value).Some?
      && Launchable(w, user, ParseNat(origin.value).value, ParseNat(target.value).value)
    ensures r.Some? ==>
      r.value == (ParseNat(Flows.ParsePair(value).1.value).value, ParseNat(Flows.ParsePair(value).0.value).value)
  {
    var (target, origin) := Flows.ParsePair(value);
    if target.None? || origin.None? then None
    else
      match FetchListing(w, ParseNat(origin.value))
      case None => None
      case Some(o) =>
        if o.author != user then None
        else
          match FetchListing(w, ParseNat(target.value))
          case None => None
          case Some(t) =>
            if t.author == o.author then None
            else if o.payload.kind == Drafts.LostListing && t.payload.kind == Drafts.FoundListing then
              Some((ParseNat(origin.value).value, ParseNat(target.value).value))
            else None
  }

  /** The match button handler: a value naming a launchable pair launches the check
      for it, any other value only answers. */
  method HandleMatchAction(w: World, user: Users.UserId, value: string) returns (w': World)
    ensures MatchPair(w, user, value).None? ==> w' == w
    ensures MatchPair(w, user, value).Some? ==>
      var (lost, found) := MatchPair(w, user, value).value;
      Launchable(w, user, lost, found) && Launched(w, w', user, lost, found)
  {
    match MatchPair(w, user, value)
    case None =>
      return w;
    case Some((lost, found)) =>
      w' := LaunchOwnerCheck(w, user, lost, found);
  }

  lemma NatToTextNoBar(n: nat)
    ensures NatToText(n) != "" && '|' !in NatToText(n)
  {
    var s := NatToText(n);
    assert forall i | 0 <= i < |s| :: s[i] != '|';
  }

  /** The button a match card carries (`<found>|<lost>`) for a launchable pair reads
      back as exactly that pair. */
  lemma MatchButtonLaunches(w: World, user: Users.UserId, lost: nat, found: nat)
    requires Launchable(w, user, lost, found)
    ensures MatchPair(w, user, Flows.BuildPair(NatToText(found), NatToText(lost))) == Some((lost, found))
  {
    NatToTextNoBar(found);
    NatToTextNoBar(lost);
    Flows.PairRoundTrip(NatToText(found), NatToText(lost));
    ParseNatOfNatToText(found);
    ParseNatOfNatToText(lost);
  }
}
