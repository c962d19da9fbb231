/** The bot's two entry points: `handleMessage`, which routes a text message first
    by the commands every step shares and then to the step's own handler, and
    `handleCallback`, which routes an inline button by its `flow:<flow>:<action>`
    payload. Replies are not modelled; only what is stored changes. */
module Dispatch {
  import opened Wrappers
  import opened Text
  import opened Flows
  import opened Sessions
  import opened Store
  import Drafts
  import Users
  import Wizard
  import Owner
  import Decision
  import Matching
  import Chats
  import N = Notifications

  /** Who an update comes from: `ctx.user.id`, and the phone number of a contact
      card shared with the update (`ctx.contactInfo.tel`). */
  datatype Sender = Sender(maxId: Option<string>, tel: Option<string>)

  /** A text message as the step handlers see it: the raw text, `ctx.location`, the
      location found among the attachments, the photo attachments, and the moment
      `parseDateTimeInput` reads in the text. */
  datatype Message = Message(raw: string, location: Option<Drafts.Point>, attached: Option<Drafts.Point>,
                             photos: seq<Drafts.Photo>, when: Option<int>)

  /** The message text, trimmed. */
  function TextOf(msg: Message): string {
    Trim(msg.raw)
  }

  /** The trimmed text, lower-cased: what the commands are compared with. */
  function LowerOf(msg: Message): string {
    Lower(TextOf(msg))
  }

  // ---------------------------------------------------------------------------
  // The sender

  /** `resolveUser(ctx)`: an update without a messenger id is refused (the error is
      caught and only answered); otherwise the sender's account is found or
      created, taking the shared phone number when there is one. */
  function Resolve(w: World, s: Sender): (r: Option<(World, Users.UserId)>)
    ensures r.None? <==> !Users.Truthy(s.maxId)
    ensures r.Some? ==>
      var (w', user) := r.value;
      w' == w.(users := w'.users) && |w'.users| >= |w.users|
      && user < |w'.users| && w'.users[user].maxId == s.maxId.value
      && (Users.Truthy(s.tel) ==> w'.users[user].phone == s.tel)
      && forall j | 0 <= j < |w.users| && j != user :: w'.users[j] == w.users[j]
  {
    match Users.EnsureUser(w.users, s.maxId, s.tel)
    case Failure(_) => None
    case Success((rows, user)) => Some((w.(users := rows), user))
  }

  /** Every update from the same messenger account resolves to the same user, and
      the second adds no account. */
  lemma ResolveStable(w: World, s: Sender, t: Sender)
    requires Resolve(w, s).Some? && t.maxId == s.maxId
    ensures var (w1, user) := Resolve(w, s).value;
      Resolve(w1, t).Some? && Resolve(w1, t).value.1 == user
      && |Resolve(w1, t).value.0.users| == |w1.users|
  {
    Users.EnsureUserStable(w.users, s.maxId, s.tel, t.tel);
  }

  // ---------------------------------------------------------------------------
  // Starting a flow and the notification list

  /** Where `startFlow` leaves a flow's session: the flow's start step, except
      that the volunteer intro moves straight on to the location step. */
  function Landing(f: Flow): (s: Step)
    ensures StepFlow(s) == Some(f)
  {
    if f == Volunteer then VolunteerLocation else StartStep(f)
  }

  /** The session has been started afresh on the flow. */
  predicate Started(w: World, user: Users.UserId, f: Flow) {
    FetchRecord(w, user) == Some(Record(Landing(f), InitialPayload(Some(f))))
  }

  /** `startFlow(flow)`: the session is cleared and the flow's start step entered
      with the flow's initial payload; nothing else changes. */
  method StartFlow(w: World, user: Users.UserId, f: Flow) returns (w': World)
    ensures Started(w', user, f)
    ensures w' == w.(sessions := w'.sessions)
    ensures forall u | u != user :: (u in w'.sessions <==> u in w.sessions)
    ensures forall u | u != user && u in w.sessions :: w'.sessions[u] == w.sessions[u]
  {
    var p := InitialPayload(Some(f));
    match f {
      case Lost => StartWizardLanding(f);
      case Found => StartWizardLanding(f);
      case Volunteer => StartVolunteerLanding();
      case Owner => StartOwnerLanding();
      case My => Wizard.QuietLanding(MyList, p);
    }
    w' := Wizard.Apply(ClearRecord(w, user), user, Wizard.Go(StartStep(f), Some(p)));
  }

  const NotificationLimit: nat := 10

  /** The notifications the list shows: the user's ten first, archived ones left
      out. */
  function Shown(t: N.Table, user: Users.UserId): seq<N.View> {
    N.List(t, Some(user), NotificationLimit, false)
  }

  /** The ids of the listed notifications that were UNREAD when listed. */
  function UnreadIds(views: seq<N.View>): (ids: set<nat>)
    ensures forall i | 0 <= i < |views| && views[i].status == Some(N.Unread) :: views[i].id in ids
    ensures forall id | id in ids :: exists i | 0 <= i < |views| :: views[i].id == id && views[i].status == Some(N.Unread)
  {
    if |views| == 0 then {}
    else
      var last := views[|views| - 1];
      assert forall i | 0 <= i < |views| - 1 :: views[..|views| - 1][i] == views[i];
      UnreadIds(views[..|views| - 1]) + (if last.status == Some(N.Unread) then {last.id} else {})
  }

  /** The notification list has been shown: the listed notifications that were
      UNREAD, all of them the user's, are READ, and no other row changed. */
  predicate ShownRead(t: N.Table, t': N.Table, user: Users.UserId) {
    |t'.rows| == |t.rows|
    && (forall id | id in UnreadIds(Shown(t, user)) ::
          id < |t.rows| && t.rows[id].userId == user && t.rows[id].status == Some(N.Unread)
          && t'.rows[id].status == Some(N.Read))
    && forall j | 0 <= j < |t.rows| && j !in UnreadIds(Shown(t, user)) :: t'.rows[j] == t.rows[j]
  }

  /** `showNotifications`: every listed notification is shown, and those UNREAD when
      listed are marked READ. Only the user's UNREAD rows change, and only those
      shown. */
  method ShowNotifications(t: N.Table, user: Users.UserId) returns (t': N.Table)
    ensures ShownRead(t, t', user)
  {
    t' := MarkShown(t, Shown(t, user));
    ListedUnread(t, user);
  }

  /** Marking the listed views that were UNREAD as READ, one at a time. */
  method MarkShown(t: N.Table, views: seq<N.View>) returns (t': N.Table)
    requires forall i | 0 <= i < |views| :: views[i].id < |t.rows|
    requires forall i | 0 <= i < |views| && views[i].status == Some(N.Unread) :: t.rows[views[i].id].status == Some(N.Unread)
    ensures |t'.rows| == |t.rows|
    ensures forall id | id in UnreadIds(views) :: id < |t.rows| && t'.rows[id].status == Some(N.Read)
    ensures forall j | 0 <= j < |t.rows| && j !in UnreadIds(views) :: t'.rows[j] == t.rows[j]
  {
    t' := t;
    var k := 0;
    while k < |views|
      invariant 0 <= k <= |views|
      invariant |t'.rows| == |t.rows|
      invariant forall id | id in UnreadIds(views[..k]) :: id < |t.rows| && t'.rows[id].status == Some(N.Read)
      invariant forall j | 0 <= j < |t.rows| && j !in UnreadIds(views[..k]) :: t'.rows[j] == t.rows[j]
    {
      assert views[..k + 1][..k] == views[..k];
      assert UnreadIds(views[..k + 1])
        == UnreadIds(views[..k]) + (if views[k].status == Some(N.Unread) then {views[k].id} else {});
      if views[k].status == Some(N.Unread) {
        t' := N.MarkRead(t', Some(views[k].id));
      }
      k := k + 1;
    }
    assert views[..|views|] == views;
  }

  /** A listed UNREAD view is one of the user's UNREAD rows. */
  lemma ListedUnread(t: N.Table, user: Users.UserId)
    ensures forall id | id in UnreadIds(Shown(t, user)) ::
      id < |t.rows| && t.rows[id].userId == user && t.rows[id].status == Some(N.Unread)
  {
    var views := Shown(t, user);
    forall id | id in UnreadIds(views)
      ensures id < |t.rows| && t.rows[id].userId == user && t.rows[id].status == Some(N.Unread)
    {
      var i :| 0 <= i < |views| && views[i].id == id && views[i].status == Some(N.Unread);
      assert views[i] == N.MapRow(id, t.rows[id]);
    }
  }

  // ---------------------------------------------------------------------------
  // Text messages

  /** The runtime `handleMessage` and `handleCallback` work on. */
  function RuntimeOf(w: World, user: Users.UserId): Runtime {
    CreateRuntime(FetchRecord(w, user))
  }

  /** The steps whose message handler only replies, or that have none. */
  predicate RepliesOnly(s: Step) {
    s.LostCategory? || s.FoundCategory? || s.LostConfirm? || s.FoundConfirm?
    || s.OwnerIntro? || s.OwnerWaiting? || s.VolunteerIntro? || s.VolunteerList?
  }

  predicate IsPhotoStep(s: Step) {
    s.LostPhoto? || s.FoundPhoto?
  }

  predicate IsLocationStep(s: Step) {
    s.LostLocation? || s.FoundLocation?
  }

  predicate IsSecretsStep(s: Step) {
    s.LostSecrets? || s.FoundSecrets?
  }

  /** The wizard a wizard step belongs to. */
  function WizardOf(s: Step): (f: Flow)
    requires IsAttributesStep(s) || IsPhotoStep(s) || IsLocationStep(s) || IsSecretsStep(s)
    ensures IsWizardFlow(f) && StepFlow(s) == Some(f)
  {
    StepFlow(s).value
  }

  /** The location step kept the session or moved its stage exactly one on. */
  predicate StageAdvanced(w: World, w': World, user: Users.UserId, rt: Runtime) {
    w' == w
    || (user in w'.sessions && w'.sessions[user].payload.meta.locationStage.Some?
        && Wizard.StageRank(w'.sessions[user].payload.meta.locationStage.value) == Wizard.StageRank(Wizard.StageOf(rt)) + 1)
  }

  /** At the location step a message either changes nothing or saves the draft one
      location stage further on, whichever step it lands on: the stage only
      advances. */
  lemma {:induction false} LocationStageAdvances(w: World, user: Users.UserId, f: Flow, rt: Runtime, text: string,
                                                 lower: string, point: Option<Drafts.Point>, when: Option<int>)
    requires IsWizardFlow(f)
    ensures StageAdvanced(w, Wizard.Apply(w, user, Wizard.LocationMessage(f, rt, text, lower, point, when)), user, rt)
  {
    var m := Wizard.LocationMessage(f, rt, text, lower, point, when);
    if m.Go? {
      var p := m.payload.value;
      if m.step == LostSecrets {
        var saved := Record(LostSecrets, p);
        var q := ClearSecrets(Draft(CreateRuntime(Some(saved))));
        SettlePlain(LostSecrets, p);
        LostSecretsMoves(p);
        EnterMoves(saved, LostConfirm, q);
        Wizard.QuietLanding(LostConfirm, q);
        assert q.meta == p.meta;
      } else {
        Wizard.QuietLanding(m.step, p);
      }
    }
  }

  /** Only the user's session changed. */
  ghost predicate SessionOnly(w: World, w': World, user: Users.UserId) {
    w' == w.(sessions := w'.sessions)
    && (forall u | u != user :: (u in w'.sessions <==> u in w.sessions))
    && forall u | u != user && u in w.sessions :: w'.sessions[u] == w.sessions[u]
  }

  /** `StepHandlers[step].onMessage` on the trimmed text and its lower-cased form:
      the wizard steps, the owner question step and the volunteer location step
      act on the message; the others only reply. At the location step the stage
      only advances; every step but the owner question changes no more than the
      user's session. */
  method StepMessage(w: World, user: Users.UserId, rt: Runtime, text: string, lower: string, msg: Message,
                     v: Wizard.Vaulting) returns (w': World)
    ensures RepliesOnly(rt.step) || StepFlow(rt.step) == Some(My) || rt.step == Idle ==> w' == w
    ensures rt.step != OwnerQuestion ==> SessionOnly(w, w', user)
    ensures IsLocationStep(rt.step) ==> StageAdvanced(w, w', user, rt)
    ensures rt.step == OwnerQuestion && (rt.payload.None? || rt.payload.value.ownerCheck.None? || Trim(text) == "") ==>
      w' == w
    ensures rt.step == OwnerQuestion && rt.payload.Some? && rt.payload.value.ownerCheck.Some? && Trim(text) != "" ==>
      user in w'.sessions
  {
    var s := rt.step;
    if IsAttributesStep(s) || IsPhotoStep(s) || s == VolunteerLocation {
      w' := EarlyStepMessage(w, user, rt, text, lower, msg);
    } else if IsLocationStep(s) || IsSecretsStep(s) {
      w' := LateStepMessage(w, user, rt, text, lower, msg, v);
    } else if s == OwnerQuestion {
      w' := OnOwnerQuestion(w, user, rt, text);
    } else {
      w' := w;
    }
  }

  /** The owner question step records the trimmed answer, or moves a check that
      has run out of questions on to the waiting step; without a check or with a
      blank answer nothing changes. */
  method OnOwnerQuestion(w: World, user: Users.UserId, rt: Runtime, text: string) returns (w': World)
    ensures rt.payload.None? || rt.payload.value.ownerCheck.None? || Trim(text) == "" ==> w' == w
    ensures rt.payload.Some? && rt.payload.value.ownerCheck.Some? && Trim(text) != "" ==> user in w'.sessions
  {
    w' := Owner.AnswerOwnerQuestion(w, user, rt, text);
  }

  /** The attribute, photo and volunteer location steps. */
  method EarlyStepMessage(w: World, user: Users.UserId, rt: Runtime, text: string, lower: string, msg: Message)
    returns (w': World)
    requires IsAttributesStep(rt.step) || IsPhotoStep(rt.step) || rt.step == VolunteerLocation
    ensures SessionOnly(w, w', user)
  {
    if IsAttributesStep(rt.step) {
      w' := OnAttributes(w, user, WizardOf(rt.step), rt, text, lower);
    } else if IsPhotoStep(rt.step) {
      w' := OnPhotos(w, user, WizardOf(rt.step), rt, lower, msg);
    } else {
      w' := OnVolunteerLocation(w, user, rt, lower, msg);
    }
  }

  /** The location and secrets steps. */
  method LateStepMessage(w: World, user: Users.UserId, rt: Runtime, text: string, lower: string, msg: Message,
                         v: Wizard.Vaulting) returns (w': World)
    requires IsLocationStep(rt.step) || IsSecretsStep(rt.step)
    ensures SessionOnly(w, w', user)
    ensures IsLocationStep(rt.step) ==> StageAdvanced(w, w', user, rt)
  {
    if IsLocationStep(rt.step) {
      w' := OnLocation(w, user, WizardOf(rt.step), rt, text, lower, msg);
    } else {
      w' := OnSecrets(w, user, WizardOf(rt.step), rt, text, lower, v);
    }
  }

  /** The attribute step hands the text to the question being asked. */
  method OnAttributes(w: World, user: Users.UserId, f: Flow, rt: Runtime, text: string, lower: string)
    returns (w': World)
    requires IsWizardFlow(f)
    ensures w' == Wizard.Apply(w, user, Wizard.AnswerQuestion(f, rt, text, lower))
    ensures SessionOnly(w, w', user)
  {
    w' := Wizard.Apply(w, user, Wizard.AnswerQuestion(f, rt, text, lower));
  }

  /** The photo step takes the message's photo attachments. */
  method OnPhotos(w: World, user: Users.UserId, f: Flow, rt: Runtime, lower: string, msg: Message)
    returns (w': World)
    requires IsWizardFlow(f)
    ensures w' == Wizard.Apply(w, user, Wizard.AddPhotos(f, rt, lower, msg.photos))
    ensures SessionOnly(w, w', user)
  {
    w' := Wizard.Apply(w, user, Wizard.AddPhotos(f, rt, lower, msg.photos));
  }

  /** The location step takes the shared location, or else the attached one, and
      the moment read in the text; its stage only advances. */
  method OnLocation(w: World, user: Users.UserId, f: Flow, rt: Runtime, text: string, lower: string, msg: Message)
    returns (w': World)
    requires IsWizardFlow(f)
    ensures w' == Wizard.Apply(w, user, Wizard.LocationMessage(f, rt, text, lower, msg.location.OrElse(msg.attached), msg.when))
    ensures SessionOnly(w, w', user)
    ensures StageAdvanced(w, w', user, rt)
  {
    var point := msg.location.OrElse(msg.attached);
    LocationStageAdvances(w, user, f, rt, text, lower, point, msg.when);
    w' := Wizard.Apply(w, user, Wizard.LocationMessage(f, rt, text, lower, point, msg.when));
  }

  /** The secrets step reads the text as the finder's secrets. */
  method OnSecrets(w: World, user: Users.UserId, f: Flow, rt: Runtime, text: string, lower: string, v: Wizard.Vaulting)
    returns (w': World)
    requires IsWizardFlow(f)
    ensures w' == Wizard.Apply(w, user, Wizard.SecretsMessage(f, rt, text, lower, v))
    ensures SessionOnly(w, w', user)
  {
    w' := Wizard.Apply(w, user, Wizard.SecretsMessage(f, rt, text, lower, v));
  }

  /** The volunteer location step takes only the shared location (`ctx.location`),
      not an attached one. */
  method OnVolunteerLocation(w: World, user: Users.UserId, rt: Runtime, lower: string, msg: Message)
    returns (w': World)
    ensures w' == Wizard.Apply(w, user, Wizard.VolunteerLocated(rt, lower, msg.location))
    ensures SessionOnly(w, w', user)
  {
    w' := Wizard.Apply(w, user, Wizard.VolunteerLocated(rt, lower, msg.location));
  }

  // ---------------------------------------------------------------------------
  // Routing a message

  /** The flows a text keyword starts from IDLE: the lost, found and volunteer
      flows. The my-listings keywords are not looked at. */
  predicate Launches(lower: string, f: Flow) {
    (f == Lost || f == Found || f == Volunteer) && MatchesFlowKeyword(lower, f)
  }

  /** The commands every step understands, and `/start`. */
  predicate IsCommand(lower: string) {
    lower == "/start" || lower in CancelKeywords || lower in BackKeywords || lower in PreviewKeywords
  }

  /** The first two characters of every command and notification keyword. */
  lemma CommandPrefixes(lower: string)
    requires IsCommand(lower) || lower in NotificationKeywords
    ensures |lower| >= 2
    ensures lower[..2] in {"/s", "/c", "от", "/b", "на", "/p", "че", "ув", "no", "/n"}
    ensures lower[..2] == "на" ==> lower == "назад"
  {
    if lower == "/start" {
      assert lower[..2] == "/s";
    } else if lower == "/cancel" {
      assert lower[..2] == "/c";
    } else if lower == "отмена" {
      assert lower[..2] == "от";
    } else if lower == "/back" {
      assert lower[..2] == "/b";
    } else if lower == "назад" {
      assert lower[..2] == "на";
    } else if lower == "/preview" {
      assert lower[..2] == "/p";
    } else if lower == "черновик" {
      assert lower[..2] == "че";
    } else if lower == "уведомления" || lower == "уведомление" {
      assert lower[..2] == "ув";
    } else if lower == "notifications" {
      assert lower[..2] == "no";
    } else {
      assert lower[..2] == "/n";
    }
  }

  /** No command and no notification keyword is a flow keyword, so the order in
      which `handleMessage` tries them does not matter. */
  lemma {:induction false} CommandsAreNotFlowKeywords(lower: string, f: Flow)
    requires IsCommand(lower) || lower in NotificationKeywords
    ensures !MatchesFlowKeyword(lower, f)
  {
    if MatchesFlowKeyword(lower, f) {
      CommandPrefixes(lower);
      KeywordPrefix(lower, f);
      assert false;
    }
  }

  /** What a message does to a user in IDLE: a keyword of the lost, found or
      volunteer flow starts that flow; otherwise a notification keyword shows the
      notifications, and anything else changes nothing. */
  ghost predicate IdleOutcome(w: World, w': World, user: Users.UserId, lower: string) {
    (forall f | Launches(lower, f) :: Started(w', user, f) && SessionOnly(w, w', user))
    && ((forall f :: !Launches(lower, f)) && lower in NotificationKeywords ==>
          w' == w.(notes := w'.notes) && ShownRead(w.notes, w'.notes, user))
    && ((forall f :: !Launches(lower, f)) && lower !in NotificationKeywords ==> w' == w)
  }

  /** Starting the flow a keyword names; the keyword names no other flow. */
  method Launch(w: World, user: Users.UserId, lower: string, f: Flow) returns (w': World)
    requires Launches(lower, f)
    ensures forall g | Launches(lower, g) :: Started(w', user, g) && SessionOnly(w, w', user)
  {
    w' := StartFlow(w, user, f);
    forall g | Launches(lower, g) ensures g == f { KeywordFlowIsUnique(lower, f, g); }
  }

  /** `handleMessage` once the user is known and IDLE, past the commands. */
  method IdleMessage(w: World, user: Users.UserId, lower: string) returns (w': World)
    ensures IdleOutcome(w, w', user, lower)
  {
    if Launches(lower, Lost) {
      w' := Launch(w, user, lower, Lost);
    } else if Launches(lower, Found) {
      w' := Launch(w, user, lower, Found);
    } else if Launches(lower, Volunteer) {
      w' := Launch(w, user, lower, Volunteer);
    } else {
      assert forall f :: !Launches(lower, f);
      if lower in NotificationKeywords {
        var notes := ShowNotifications(w.notes, user);
        w' := w.(notes := notes);
      } else {
        w' := w;
      }
    }
  }

  /** What `/back` does: the flow's previous step is entered again with the
      payload, and on the first step (or outside a step sequence) nothing
      changes. */
  predicate WentBack(w: World, w': World, user: Users.UserId, rt: Runtime) {
    (PreviousStep(rt.flow, rt.step).None? ==> w' == w)
    && (PreviousStep(rt.flow, rt.step).Some? ==>
          w' == SaveSettled(w, user, Settle(PreviousStep(rt.flow, rt.step).value, rt.payload)))
  }

  /** `/back` outside IDLE. */
  method GoBack(w: World, user: Users.UserId, rt: Runtime) returns (w': World)
    ensures WentBack(w, w', user, rt)
  {
    match PreviousStep(rt.flow, rt.step)
    case None => w' := w;
    case Some(prev) => w' := SaveSettled(w, user, Settle(prev, rt.payload));
  }

  /** What `handleMessage` does with a message (lower-cased as `lower`) once the
      user is known and any shared contact is handled. */
  ghost predicate Routed(w: World, w': World, user: Users.UserId, lower: string) {
    var rt := RuntimeOf(w, user);
    (lower == "/start" ==> w' == w)
    && (lower in CancelKeywords ==> w' == ClearRecord(w, user))
    && (rt.step != Idle && lower in BackKeywords ==> WentBack(w, w', user, rt))
    && (rt.step != Idle && lower in PreviewKeywords ==> w' == w)
    && (rt.step == Idle && (lower in BackKeywords || lower in PreviewKeywords) ==> w' == w)
    && (!IsCommand(lower) ==> Stepped(w, w', user, lower))
    && (rt.step == Idle ==> NotMy(w, w', user))
  }

  /** The session of an IDLE user either stays as it was, is cleared, or lands in
      the lost, found or volunteer flow. */
  predicate NotMy(w: World, w': World, user: Users.UserId) {
    FetchRecord(w', user) == FetchRecord(w, user) || user !in w'.sessions
    || StepFlow(w'.sessions[user].step) in {Some(Lost), Some(Found), Some(Volunteer)}
  }

  /** What a message that is no command does: IDLE reads the keywords, a step
      that only replies or belongs to the my-listings flow changes nothing, and a
      location step only moves forward. */
  ghost predicate Stepped(w: World, w': World, user: Users.UserId, lower: string) {
    var rt := RuntimeOf(w, user);
    (rt.step == Idle ==> IdleOutcome(w, w', user, lower))
    && (rt.step != Idle && (RepliesOnly(rt.step) || StepFlow(rt.step) == Some(My)) ==> w' == w)
    && (rt.step != Idle ==> SessionOnly(w, w', user) || rt.step == OwnerQuestion)
    && (rt.step != Idle && IsLocationStep(rt.step) ==> StageAdvanced(w, w', user, rt))
  }

  /** `handleMessage` once the user is known: `/start` does nothing, a cancel word
      ends the session, `/back` and the preview word act outside IDLE only, and
      any other message goes to IDLE's keywords or to the step's handler. */
  method Route(w: World, user: Users.UserId, text: string, lower: string, msg: Message, v: Wizard.Vaulting)
    returns (w': World)
    ensures Routed(w, w', user, lower)
  {
    var rt := RuntimeOf(w, user);
    if lower == "/start" {
      return w;
    }
    if lower in CancelKeywords {
      return ClearRecord(w, user);
    }
    if rt.step != Idle && lower in BackKeywords {
      w' := GoBack(w, user, rt);
      return;
    }
    if rt.step != Idle && lower in PreviewKeywords {
      return w;
    }
    if rt.step == Idle && IsCommand(lower) {
      return w;
    }
    w' := RouteOther(w, user, text, lower, msg, v);
  }

  /** A message that is no command. */
  method RouteOther(w: World, user: Users.UserId, text: string, lower: string, msg: Message, v: Wizard.Vaulting)
    returns (w': World)
    ensures Stepped(w, w', user, lower)
    ensures RuntimeOf(w, user).step == Idle ==> NotMy(w, w', user)
  {
    var rt := RuntimeOf(w, user);
    if rt.step == Idle {
      w' := IdleMessage(w, user, lower);
      IdleNeverEntersMy(w, w', user, lower);
    } else {
      w' := StepMessage(w, user, rt, text, lower, msg, v);
    }
  }

  /** From IDLE the session either stays as it was or lands in the lost, found or
      volunteer flow; a message never starts the my-listings flow. */
  lemma IdleNeverEntersMy(w: World, w': World, user: Users.UserId, lower: string)
    requires IdleOutcome(w, w', user, lower)
    ensures NotMy(w, w', user)
  {
    if f :| Launches(lower, f) {
      assert Started(w', user, f);
    } else {
      assert forall f :: !Launches(lower, f);
    }
  }

  // ---------------------------------------------------------------------------
  // Handling a message

  /** `handleMessage`: a sender that cannot be resolved changes nothing (the error
      is caught); a shared phone number first finalises the user's waiting
      exchanges; then the lower-cased trimmed text is routed. */
  method HandleMessage(w: World, s: Sender, msg: Message, v: Wizard.Vaulting) returns (w': World)
    ensures Resolve(w, s).None? ==> w' == w
    ensures Resolve(w, s).Some? && LowerOf(msg) in CancelKeywords ==> Resolve(w, s).value.1 !in w'.sessions
    ensures Resolve(w, s).Some? && !Users.Truthy(s.tel) ==>
      Routed(Resolve(w, s).value.0, w', Resolve(w, s).value.1, LowerOf(msg))
  {
    match Resolve(w, s)
    case None =>
      return w;
    case Some((w0, user)) =>
      var w1 := w0;
      if Users.Truthy(s.tel) {
        w1 := Decision.ContactShareEvent(w0, user);
      }
      w' := Route(w1, user, TextOf(msg), LowerOf(msg), msg, v);
  }

  // ---------------------------------------------------------------------------
  // Handling a button

  /** The actions `handleCallback` answers before looking at the session. */
  predicate IsGeneric(c: Callback) {
    c.action in {"start", "menu", "cancel"} || (c.flow == "menu" && c.action in {"notifications", "show_listing"})
  }

  /** What the generic actions do: `start` starts the named flow afresh (an
      unknown flow only gets a reply), `menu` and `cancel` end the session, the
      menu's notification button shows the notifications, and showing a listing
      changes nothing. */
  ghost predicate GenericDone(w: World, w': World, user: Users.UserId, c: Callback) {
    (c.action == "start" && ParseFlowName(c.flow).Some? ==>
       Started(w', user, ParseFlowName(c.flow).value) && SessionOnly(w, w', user))
    && (c.action == "start" && ParseFlowName(c.flow).None? ==> w' == w)
    && (c.action in {"menu", "cancel"} ==> w' == ClearRecord(w, user))
    && (c.action !in {"start", "menu", "cancel"} && c.action == "notifications" ==>
          w' == w.(notes := w'.notes) && ShownRead(w.notes, w'.notes, user))
    && (c.action !in {"start", "menu", "cancel"} && c.action == "show_listing" ==> w' == w)
  }

  method GenericCallback(w: World, user: Users.UserId, c: Callback) returns (w': World)
    requires IsGeneric(c)
    ensures GenericDone(w, w', user, c)
  {
    if c.action == "start" {
      match ParseFlowName(c.flow)
      case Some(f) => w' := StartFlow(w, user, f);
      case None => w' := w;
    } else if c.action in {"menu", "cancel"} {
      w' := ClearRecord(w, user);
    } else if c.action == "notifications" {
      var notes := ShowNotifications(w.notes, user);
      w' := w.(notes := notes);
    } else {
      w' := w;
    }
  }

  /** The buttons of the owner check and of the chat decisions, which do not
      depend on the session. */
  predicate IsOwnerAction(c: Callback) {
    c.action == "match" || (c.flow == "owner" && c.action in {"review", "contact_request", "share_contact"})
  }

  /** What they do: a match button launches the check for a launchable pair; the
      holder's review confirms or declines; the holder's exchange request needs
      an ACTIVE chat of theirs; the claimant's shared contact is answered as
      `ShareDone` says. */
  ghost predicate OwnerDone(w: World, w': World, user: Users.UserId, c: Callback) {
    var chat := ParseNat(c.value);
    (c.action == "match" ==>
       (Owner.MatchPair(w, user, c.value).None? ==> w' == w)
       && (Owner.MatchPair(w, user, c.value).Some? ==>
             var (lost, found) := Owner.MatchPair(w, user, c.value).value;
             Owner.Launchable(w, user, lost, found) && Owner.Launched(w, w', user, lost, found)))
    && (c.action == "review" ==>
          (Decision.ParseReview(c.value).None? ==> w' == w)
          && (Decision.ParseReview(c.value).Some? && Decision.ParseReview(c.value).value.1 == Decision.Approve ==>
                Decision.ConfirmOutcome(w, w', Decision.ParseReview(c.value).value.0, user))
          && (Decision.ParseReview(c.value).Some? && Decision.ParseReview(c.value).value.1 == Decision.Reject ==>
                Decision.DeclineOutcome(w, w', Decision.ParseReview(c.value).value.0, user)))
    && (c.action == "contact_request" ==>
          ((chat.None? || !Decision.MayReview(w, chat.value, user)
            || Owner.StatusOf(w, chat.value) != Some(Chats.Active)) ==> w' == w))
    && (c.action == "share_contact" ==> ShareDone(w, w', user, chat))
  }

  /** The claimant's shared contact: a missing or unknown chat, another user, a
      PENDING or CLOSED chat, a chat without a holder or a claimant without a
      phone is refused; any other chat of the claimant's, an ACTIVE or a DECLINED
      one, is closed and the contacts are exchanged. */
  ghost predicate ShareDone(w: World, w': World, user: Users.UserId, chat: Option<nat>) {
    (ShareRefused(w, user, chat) ==> w' == w)
    && (!ShareRefused(w, user, chat) ==>
          Owner.StatusOf(w, chat.value) in {Some(Chats.Active), Some(Chats.Declined)}
          && Owner.Exchanged(w, w', chat.value)
          && Owner.StatusOf(w', chat.value) == Some(Chats.Closed)
          && Owner.Revealed(w', Owner.HolderOf(w, chat.value).value, user, chat.value))
  }

  predicate ShareRefused(w: World, user: Users.UserId, chat: Option<nat>) {
    chat.None? || Owner.StatusOf(w, chat.value).None? || Owner.ClaimantOf(w, chat.value) != Some(user)
    || Owner.StatusOf(w, chat.value) in {Some(Chats.Pending), Some(Chats.Closed)}
    || Owner.HolderOf(w, chat.value).None? || !Users.HasPhone(w.users, Some(user))
  }

  method OwnerCallback(w: World, user: Users.UserId, c: Callback) returns (w': World)
    requires IsOwnerAction(c)
    ensures OwnerDone(w, w', user, c)
  {
    if c.action == "match" {
      w' := Owner.HandleMatchAction(w, user, c.value);
    } else if c.action == "review" {
      w' := Decision.HandleOwnerReview(w, user, c.value);
    } else if c.action == "contact_request" {
      w' := Decision.ContactRequest(w, user, ParseNat(c.value));
    } else {
      w' := ShareContact(w, user, ParseNat(c.value));
    }
  }

  /** `handleOwnerShareContactAction` on the chat id read from the button: the
      PENDING and CLOSED guards are the only status checks before the exchange. */
  method ShareContact(w: World, user: Users.UserId, chat: Option<nat>) returns (w': World)
    ensures ShareDone(w, w', user, chat)
  {
    w' := Decision.ShareContact(w, user, chat);
    if !ShareRefused(w, user, chat) {
      var st := Owner.StatusOf(w, chat.value).value;
      assert st in {Chats.Active, Chats.Declined} by {
        assert st != Chats.Pending && st != Chats.Closed;
      }
    }
  }

  /** The button belongs to the session's flow, or to the owner check, whose
      buttons reach whatever step the session is at. */
  predicate Addressed(rt: Runtime, c: Callback) {
    c.flow == "owner" || (rt.flow.Some? && FlowName(rt.flow.value) == c.flow)
  }

  /** `StepHandlers[step].onCallback`, reached by an addressed button outside
      IDLE. Only the category, photo, location, confirmation and volunteer
      location steps have button handlers; at any other step a button changes
      nothing. */
  ghost predicate StepCallbackDone(w: World, w': World, user: Users.UserId, rt: Runtime, c: Callback) {
    WizardButtonDone(w, w', user, rt, c) && OtherButtonDone(w, w', user, rt, c)
  }

  /** The buttons of the category, photo, location and volunteer location steps
      go to the step's handler. */
  ghost predicate WizardButtonDone(w: World, w': World, user: Users.UserId, rt: Runtime, c: Callback) {
    (rt.step.LostCategory? || rt.step.FoundCategory? ==>
       w' == Wizard.Apply(w, user, Wizard.ChooseCategory(StepFlow(rt.step).value, rt, c.value)))
    && (IsPhotoStep(rt.step) ==>
          w' == Wizard.Apply(w, user, Wizard.AcknowledgePhotos(StepFlow(rt.step).value, rt, c.action)))
    && (IsLocationStep(rt.step) ==>
          w' == Wizard.Apply(w, user, Wizard.ChooseLocationMode(StepFlow(rt.step).value, rt, c.action, c.value)))
    && (rt.step == VolunteerLocation ==> w' == Wizard.Apply(w, user, Wizard.VolunteerSkip(rt, c.action)))
  }

  /** The confirmation step acts on its three buttons only, and a finder who has
      not accepted the legal notice cannot publish; the steps without a button
      handler change nothing, and every step but the confirmation touches only
      the user's session. */
  ghost predicate OtherButtonDone(w: World, w': World, user: Users.UserId, rt: Runtime, c: Callback) {
    (IsConfirmStep(rt.step) ==>
       (c.action != "confirm" || c.value !in {"legal_ack", "publish", "edit"} ==> w' == w)
       && ((c.action == "confirm" && c.value == "publish" && rt.step == FoundConfirm
            && !(rt.payload.Some? && rt.payload.value.meta.legalAccepted)) ==> w' == w))
    && (!HasButtons(rt.step) ==> w' == w)
    && (!IsConfirmStep(rt.step) ==> SessionOnly(w, w', user))
  }

  predicate IsConfirmStep(s: Step) {
    s.LostConfirm? || s.FoundConfirm?
  }

  /** The wizard steps whose handler reads buttons (the confirmation step aside). */
  predicate IsButtonStep(s: Step) {
    s.LostCategory? || s.FoundCategory? || IsPhotoStep(s) || IsLocationStep(s) || s == VolunteerLocation
  }

  /** The steps of the lost, found, owner and volunteer flows that have a button
      handler; the volunteer list and my-listings steps are not modelled here. */
  predicate HasButtons(s: Step) {
    IsButtonStep(s) || IsConfirmStep(s) || s.VolunteerList? || StepFlow(s) == Some(My)
  }

  method StepCallback(w: World, user: Users.UserId, rt: Runtime, c: Callback, now: int,
                      candidates: seq<Matching.Candidate>) returns (w': World)
    ensures WizardButtonDone(w, w', user, rt, c)
    ensures OtherButtonDone(w, w', user, rt, c)
  {
    if IsButtonStep(rt.step) {
      w' := ButtonStep(w, user, rt, c);
    } else if IsConfirmStep(rt.step) {
      w' := OnConfirm(w, user, rt, c, now, candidates);
    } else {
      w' := w;
    }
  }

  method ButtonStep(w: World, user: Users.UserId, rt: Runtime, c: Callback) returns (w': World)
    requires IsButtonStep(rt.step)
    ensures WizardButtonDone(w, w', user, rt, c)
    ensures SessionOnly(w, w', user)
  {
    if rt.step.LostCategory? || rt.step.FoundCategory? || IsPhotoStep(rt.step) {
      w' := EarlyStepCallback(w, user, rt, c);
    } else {
      w' := LateStepCallback(w, user, rt, c);
    }
  }

  /** The confirmation step's buttons: only the three known ones act, and a
      finder who has not accepted the legal notice cannot publish. */
  method OnConfirm(w: World, user: Users.UserId, rt: Runtime, c: Callback, now: int,
                   candidates: seq<Matching.Candidate>) returns (w': World)
    requires IsConfirmStep(rt.step)
    ensures c.action != "confirm" || c.value !in {"legal_ack", "publish", "edit"} ==> w' == w
    ensures (c.action == "confirm" && c.value == "publish" && rt.step == FoundConfirm
             && !(rt.payload.Some? && rt.payload.value.meta.legalAccepted)) ==> w' == w
  {
    w' := Wizard.Confirm(w, user, StepFlow(rt.step).value, rt, c.action, c.value, now, candidates);
  }

  /** The category and photo steps' buttons. */
  method EarlyStepCallback(w: World, user: Users.UserId, rt: Runtime, c: Callback) returns (w': World)
    requires rt.step.LostCategory? || rt.step.FoundCategory? || IsPhotoStep(rt.step)
    ensures rt.step.LostCategory? || rt.step.FoundCategory? ==>
      w' == Wizard.Apply(w, user, Wizard.ChooseCategory(StepFlow(rt.step).value, rt, c.value))
    ensures IsPhotoStep(rt.step) ==>
      w' == Wizard.Apply(w, user, Wizard.AcknowledgePhotos(StepFlow(rt.step).value, rt, c.action))
    ensures SessionOnly(w, w', user)
  {
    var f := StepFlow(rt.step).value;
    if IsPhotoStep(rt.step) {
      w' := Wizard.Apply(w, user, Wizard.AcknowledgePhotos(f, rt, c.action));
    } else {
      w' := Wizard.Apply(w, user, Wizard.ChooseCategory(f, rt, c.value));
    }
  }

  /** The location and volunteer location steps' buttons. */
  method LateStepCallback(w: World, user: Users.UserId, rt: Runtime, c: Callback) returns (w': World)
    requires IsLocationStep(rt.step) || rt.step == VolunteerLocation
    ensures IsLocationStep(rt.step) ==>
      w' == Wizard.Apply(w, user, Wizard.ChooseLocationMode(StepFlow(rt.step).value, rt, c.action, c.value))
    ensures rt.step == VolunteerLocation ==> w' == Wizard.Apply(w, user, Wizard.VolunteerSkip(rt, c.action))
    ensures SessionOnly(w, w', user)
  {
    if IsLocationStep(rt.step) {
      w' := Wizard.Apply(w, user, Wizard.ChooseLocationMode(StepFlow(rt.step).value, rt, c.action, c.value));
    } else {
      w' := Wizard.Apply(w, user, Wizard.VolunteerSkip(rt, c.action));
    }
  }

  /** What a button does once the user is known: the generic actions first, then
      the owner and decision buttons; past those a button in IDLE (other than
      the owner check's) or one of another flow changes nothing, and the rest go
      to the step's button handler. */
  ghost predicate Pressed(w: World, w': World, user: Users.UserId, c: Callback, rt: Runtime) {
    (IsGeneric(c) ==> GenericDone(w, w', user, c))
    && (!IsGeneric(c) && IsOwnerAction(c) ==> OwnerDone(w, w', user, c))
    && (!IsGeneric(c) && !IsOwnerAction(c) && rt.step == Idle && c.flow != "owner" ==> w' == w)
    && (!IsGeneric(c) && !IsOwnerAction(c) && !Addressed(rt, c) ==> w' == w)
    && (!IsGeneric(c) && !IsOwnerAction(c) && Addressed(rt, c) && rt.step != Idle ==>
          StepCallbackDone(w, w', user, rt, c))
  }

  method Press(w: World, user: Users.UserId, c: Callback, now: int, candidates: seq<Matching.Candidate>)
    returns (w': World)
    ensures Pressed(w, w', user, c, RuntimeOf(w, user))
  {
    if IsGeneric(c) {
      w' := GenericCallback(w, user, c);
      return;
    }
    if IsOwnerAction(c) {
      w' := OwnerCallback(w, user, c);
      return;
    }
    var rt := RuntimeOf(w, user);
    if (rt.step == Idle && c.flow != "owner") || !Addressed(rt, c) {
      return w;
    }
    w' := StepCallback(w, user, rt, c, now, candidates);
  }

  /** `handleCallback`: an unreadable payload or an unresolvable sender changes
      nothing; otherwise the button is pressed. `now` is the clock and
      `candidates` what the matching query returns, for a publication. */
  method HandleCallback(w: World, s: Sender, raw: Option<string>, now: int, candidates: seq<Matching.Candidate>)
    returns (w': World)
    ensures ParseFlowPayload(raw).None? || Resolve(w, s).None? ==> w' == w
    ensures ParseFlowPayload(raw).Some? && Resolve(w, s).Some? ==>
      var (w0, user) := Resolve(w, s).value;
      Pressed(w0, w', user, ParseFlowPayload(raw).value, RuntimeOf(w0, user))
  {
    if ParseFlowPayload(raw).None? {
      return w;
    }
    match Resolve(w, s)
    case None =>
      return w;
    case Some((w0, user)) =>
      w' := Press(w0, user, ParseFlowPayload(raw).value, now, candidates);
  }

  /** A button of another flow never touches the session: while the user is in
      one flow, a step button of a different flow (not the owner check's and not
      a generic action) leaves everything as it was. */
  lemma ForeignButtonIgnored(w: World, w': World, user: Users.UserId, c: Callback, f: Flow)
    requires Pressed(w, w', user, c, RuntimeOf(w, user))
    requires RuntimeOf(w, user).flow == Some(f) && ParseFlowName(c.flow).Some? && ParseFlowName(c.flow) != Some(f)
    requires c.flow != "owner" && !IsGeneric(c) && c.action != "match"
    ensures w' == w
  {
    FlowNamesRoundTrip(f, c.flow);
  }
}
