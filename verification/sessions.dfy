/** The per-user conversation state: the `states` row (a step and a JSON payload),
    the runtime view the handlers work on, and `transitionToStep`, which saves a
    step and runs the step's entry action, itself possibly moving on. */
module Sessions {
  import opened Wrappers
  import opened Flows
  import opened Drafts
  import Categories
  import Users

  /** One answer given during an ownership check. */
  datatype QA = QA(question: string, answer: string)

  /** `payload.ownerCheck`: the claimant's run through the finder's questions. */
  datatype OwnerCheck = OwnerCheck(
    chat: nat, lostListing: nat, foundListing: nat, holder: nat, claimant: nat,
    questions: seq<string>, answers: seq<QA>, index: nat,
    lostTitle: Option<string>, foundTitle: Option<string>)

  /** `payload.volunteer`. */
  datatype VolunteerState = VolunteerState(location: Option<Point>)

  /** The session payload; a missing `meta` reads as the empty one. */
  datatype Payload = Payload(flow: Option<Flow>, listing: Option<Listing>, meta: Meta,
                             ownerCheck: Option<OwnerCheck>, volunteer: Option<VolunteerState>)

  /** The payload `{}` a record with an unreadable payload is read with. */
  const EmptyPayload := Payload(None, None, NoMeta, None, None)

  /** A row of `states`. */
  datatype Record = Record(step: Step, payload: Payload)

  /** The `states` table, keyed by user (its primary key). */
  type Table = map<Users.UserId, Record>

  /** `createEmptyListing(flow)` for a flow that may be missing. */
  function EmptyListingOf(flow: Option<Flow>): (l: Listing)
    ensures l.kind == LostListing <==> flow == Some(Lost)
  {
    EmptyListing(if flow == Some(Lost) then Lost else Found)
  }

  /** `createInitialPayload(flow)`: the my-listings flow keeps no draft; every
      other flow starts with an empty one of its type. */
  function InitialPayload(flow: Option<Flow>): (p: Payload)
    ensures p.flow == flow && p.meta == NoMeta && p.ownerCheck.None? && p.volunteer.None?
    ensures p.listing.Some? <==> flow != Some(My)
    ensures p.listing.Some? ==>
      p.listing.value.category.None? && p.listing.value.attributes == map[] && p.listing.value.photos == []
      && (p.listing.value.kind == LostListing <==> flow == Some(Lost))
  {
    if flow == Some(My) then Payload(flow, None, NoMeta, None, None)
    else Payload(flow, Some(EmptyListingOf(flow)), NoMeta, None, None)
  }

  /** What a handler sees: the step, the flow and the payload. */
  datatype Runtime = Runtime(step: Step, flow: Option<Flow>, payload: Option<Payload>)

  /** The draft with its category normalised. */
  function NormalizeCategory(p: Payload): (q: Payload)
    ensures q.listing.Some? <==> p.listing.Some?
    ensures q == p.(listing := q.listing)
    ensures p.listing.Some? ==>
      q.listing.value == p.listing.value.(category := Categories.Normalize(p.listing.value.category))
  {
    match p.listing
    case None => p
    case Some(l) => p.(listing := Some(l.(category := Categories.Normalize(l.category))))
  }

  /** `createRuntime(user, record)`: IDLE without a record; otherwise the record's
      step, its payload with the draft's category normalised, and the payload's
      flow or else the flow the step belongs to. */
  function CreateRuntime(rec: Option<Record>): (rt: Runtime)
    ensures rec.None? ==> rt == Runtime(Idle, None, None)
    ensures rec.Some? ==>
      rt.step == rec.value.step && rt.payload == Some(NormalizeCategory(rec.value.payload))
      && (rec.value.payload.flow.Some? ==> rt.flow == rec.value.payload.flow)
      && (rec.value.payload.flow.None? ==> rt.flow == StepFlow(rec.value.step))
    ensures rec.Some? && rec.value.step != Idle ==> rt.flow.Some?
  {
    match rec
    case None => Runtime(Idle, None, None)
    case Some(r) => Runtime(r.step, r.payload.flow.OrElse(StepFlow(r.step)), Some(NormalizeCategory(r.payload)))
  }

  /** Reading a session back from what the runtime holds changes nothing more. */
  lemma CreateRuntimeStable(rec: Record)
    ensures var rt := CreateRuntime(Some(rec));
      CreateRuntime(Some(Record(rt.step, rt.payload.value))) == rt
  {
    if rec.payload.listing.Some? {
      Categories.NormalizeIdempotent(rec.payload.listing.value.category);
    }
  }

  /** `withListing(runtime, …)` before the mutation: the payload (or the initial
      one for the runtime's flow), with the flow filled in when missing and an
      empty draft when there is none. */
  function Draft(rt: Runtime): (p: Payload)
    ensures p.listing.Some?
    ensures rt.payload.Some? ==>
      var q := rt.payload.value;
      p.meta == q.meta && p.ownerCheck == q.ownerCheck && p.volunteer == q.volunteer
      && (q.listing.Some? ==> p.listing == q.listing)
      && (q.listing.None? ==> p.listing == Some(EmptyListingOf(rt.flow)))
      && (q.flow.Some? ==> p.flow == q.flow)
      && (q.flow.None? ==> p.flow == rt.flow)
    ensures rt.payload.None? ==> p == InitialPayload(rt.flow).(listing := p.listing)
  {
    var base := rt.payload.GetOr(InitialPayload(rt.flow));
    base.(flow := base.flow.OrElse(rt.flow), listing := Some(base.listing.GetOr(EmptyListingOf(rt.flow))))
  }

  /** `withVolunteerPayload(runtime, …)` before the mutation. */
  function VolunteerDraft(rt: Runtime): (p: Payload)
    ensures p.volunteer.Some? && p.flow.Some?
    ensures rt.payload.Some? ==>
      p == rt.payload.value.(flow := p.flow, volunteer := p.volunteer)
      && (rt.payload.value.volunteer.Some? ==> p.volunteer == rt.payload.value.volunteer)
  {
    var flow := rt.flow.GetOr(Volunteer);
    var base := rt.payload.GetOr(Payload(Some(flow), None, NoMeta, None, None));
    base.(flow := Some(base.flow.GetOr(flow)), volunteer := Some(base.volunteer.GetOr(VolunteerState(None))))
  }

  // ---------------------------------------------------------------------------
  // The step map

  /** The keys of `FLOW_STEP_MAP[flow]` the wizard handlers look up. */
  datatype Part = CategoryPart | AttributesPart | PhotoPart | LocationPart | SecretsPart | ConfirmPart

  predicate IsWizardFlow(f: Flow) {
    f == Lost || f == Found
  }

  /** `FLOW_STEP_MAP[flow][part]`: defined for the lost and found flows, and for the
      volunteer flow's location. */
  function WizardStep(f: Flow, k: Part): (r: Option<Step>)
    ensures IsWizardFlow(f) <==> r.Some? && !(f == Volunteer && k == LocationPart)
    ensures r.Some? ==> StepFlow(r.value) == Some(f)
    ensures r.Some? && IsWizardFlow(f) ==> Sequence(f).Some? && r.value in Sequence(f).value
    ensures r.Some? && (k == CategoryPart || k == PhotoPart) ==>
      ChainRank(r.value) == 0 && !IsAttributesStep(r.value) && r.value != Idle
  {
    match (f, k)
    case (Lost, CategoryPart) => Some(LostCategory)
    case (Lost, AttributesPart) => Some(LostAttributes)
    case (Lost, PhotoPart) => Some(LostPhoto)
    case (Lost, LocationPart) => Some(LostLocation)
    case (Lost, SecretsPart) => Some(LostSecrets)
    case (Lost, ConfirmPart) => Some(LostConfirm)
    case (Found, CategoryPart) => Some(FoundCategory)
    case (Found, AttributesPart) => Some(FoundAttributes)
    case (Found, PhotoPart) => Some(FoundPhoto)
    case (Found, LocationPart) => Some(FoundLocation)
    case (Found, SecretsPart) => Some(FoundSecrets)
    case (Found, ConfirmPart) => Some(FoundConfirm)
    case (Volunteer, LocationPart) => Some(VolunteerLocation)
    case _ => None
  }

  predicate IsAttributesStep(s: Step) {
    s.LostAttributes? || s.FoundAttributes?
  }

  // ---------------------------------------------------------------------------
  // Attribute preparation

  datatype PreparedPayload = PreparedPayload(payload: Payload, field: Option<Categories.Field>)

  /** `prepareAttributesPayload(payload, flow)`: the draft (an empty one of the flow
      when missing) prepared for its next question. */
  function PrepareAttributesPayload(p: Payload, flow: Flow): (r: PreparedPayload)
    ensures r.payload == p.(listing := r.payload.listing, meta := r.payload.meta)
    ensures r.payload.listing.Some?
    ensures var prep := PrepareAttributes(p.listing.GetOr(EmptyListing(flow)), p.meta);
      r.payload.listing == Some(prep.listing) && r.payload.meta == prep.meta && r.field == prep.field
  {
    var prep := PrepareAttributes(p.listing.GetOr(EmptyListing(flow)), p.meta);
    PreparedPayload(p.(listing := Some(prep.listing), meta := prep.meta), prep.field)
  }

  /** The draft sits on a question: preparing it again asks the same question and
      changes nothing. */
  predicate AsksQuestion(p: Payload) {
    p.listing.Some?
    && var prep := PrepareAttributes(p.listing.value, p.meta);
    prep.field.Some? && prep.listing == p.listing.value && prep.meta == p.meta
  }

  lemma FindDistinct(fields: seq<Categories.Field>, i: nat)
    requires Categories.DistinctKeys(fields) && i < |fields|
    ensures Categories.FindField(fields, fields[i].key) == Some(fields[i])
  {
    var r := Categories.FindField(fields, fields[i].key);
    var j :| 0 <= j < |fields| && fields[j] == r.value;
    if j < i {
      assert fields[j].key != fields[i].key;
    } else if i < j {
      assert fields[i].key != fields[j].key;
    }
  }

  /** Preparing is a fixed point once a question is chosen. */
  lemma PrepareStable(listing: Listing, meta: Meta)
    requires PrepareAttributes(listing, meta).field.Some?
    ensures var prep := PrepareAttributes(listing, meta);
      PrepareAttributes(prep.listing, prep.meta) == prep
  {
    Categories.NormalizeIdempotent(listing.category);
    var prep := PrepareAttributes(listing, meta);
    var fields := Categories.FieldsOf(listing.category);
    assert Categories.FieldsOf(prep.listing.category) == fields;
    var f := prep.field.value;
    var i :| 0 <= i < |fields| && fields[i] == f;
    FindDistinct(fields, i);
    assert PendingKey(fields, prep.listing.attributes, prep.meta.currentAttributeKey);
  }

  // ---------------------------------------------------------------------------
  // transitionToStep

  /** How deep a chain of entry actions can go from a step. */
  function ChainRank(s: Step): nat {
    if s.OwnerIntro? then 2
    else if IsAttributesStep(s) || s.LostSecrets? || s.OwnerQuestion? || s.VolunteerIntro? then 1
    else 0
  }

  /** The flow `transitionToStep` works in: the payload's, else the step's. */
  function FlowOf(step: Step, payload: Option<Payload>): (f: Option<Flow>)
    ensures step != Idle ==> f.Some?
  {
    (if payload.Some? then payload.value.flow else None).OrElse(StepFlow(step))
  }

  /** The draft with its secrets dropped, as the LOST secrets step leaves it. */
  function ClearSecrets(p: Payload): (q: Payload)
    requires p.listing.Some?
    ensures q.listing.Some? && q == p.(listing := q.listing)
    ensures q.listing.value == p.listing.value.(secretEntries := [], encryptedSecrets := [], pendingSecrets := [])
  {
    p.(listing := Some(p.listing.value.(secretEntries := [], encryptedSecrets := [], pendingSecrets := [])))
  }

  /** The transition a step's `enter` action makes, if any: an attribute step
      without a category goes back to the category step and one without a current
      question moves to the photo step; the LOST secrets step clears the secrets and
      moves to the confirmation; the owner intro moves to the first question when a
      check is running, and a question past the last one to the waiting step; the
      volunteer intro moves to the location step. */
  function EnterTransition(saved: Record): (r: Option<(Step, Payload)>)
    ensures r.Some? ==> ChainRank(r.value.0) < ChainRank(saved.step) && r.value.0 != Idle
                        && !IsAttributesStep(r.value.0)
  {
    var p := NormalizeCategory(saved.payload);
    if IsAttributesStep(saved.step) then
      var hf := if saved.step.LostAttributes? then Lost else Found;
      var category := if p.listing.Some? then p.listing.value.category else None;
      if !Users.Truthy(category) then Some((WizardStep(hf, CategoryPart).value, p))
      else if Categories.FieldOf(category, p.meta.currentAttributeKey).None? then
        Some((WizardStep(hf, PhotoPart).value, p))
      else None
    else if saved.step.LostSecrets? then Some((LostConfirm, ClearSecrets(Draft(CreateRuntime(Some(saved))))))
    else if saved.step.OwnerIntro? then
      if p.ownerCheck.Some? then Some((OwnerQuestion, p)) else None
    else if saved.step.OwnerQuestion? then
      if p.ownerCheck.Some? && p.ownerCheck.value.index >= |p.ownerCheck.value.questions| then
        Some((OwnerWaiting, p))
      else None
    else if saved.step.VolunteerIntro? then Some((VolunteerLocation, p))
    else None
  }

  /** A saved session that its step's entry action leaves where it is. */
  predicate Resting(rec: Record) {
    if IsAttributesStep(rec.step) then AsksQuestion(rec.payload)
    else if rec.step.LostSecrets? || rec.step.VolunteerIntro? then false
    else if rec.step.OwnerIntro? then rec.payload.ownerCheck.None?
    else if rec.step.OwnerQuestion? then
      rec.payload.ownerCheck.Some? ==> rec.payload.ownerCheck.value.index < |rec.payload.ownerCheck.value.questions|
    else true
  }

  /** `transitionToStep(step, payload)`: the record it finally leaves saved, or
      nothing when it saves nothing (no flow, or an attribute step whose flow has
      no photo step). An attribute step with no question left moves on to the photo
      step unsaved; otherwise the step is saved and its entry action runs. Every
      record it leaves behind is one its entry action keeps. */
  function Settle(step: Step, payload: Option<Payload>): (r: Option<Record>)
    ensures r.Some? ==> Resting(r.value)
    ensures FlowOf(step, payload).Some? && !IsAttributesStep(step) ==> r.Some?
    decreases ChainRank(step), 2
  {
    var flow := FlowOf(step, payload);
    if flow.None? then None
    else
      var p := payload.GetOr(InitialPayload(flow));
      if IsAttributesStep(step) then SettleAttributes(step, flow.value, p)
      else Some(Enter(Record(step, p)))
  }

  /** An attribute step: saved with its question when one is left, otherwise the
      flow's photo step is saved (and entered) in its place. */
  function SettleAttributes(step: Step, flow: Flow, p: Payload): (r: Option<Record>)
    requires IsAttributesStep(step)
    ensures r.Some? ==> Resting(r.value)
    decreases ChainRank(step), 1
  {
    var prepared := PrepareAttributesPayload(p, flow);
    if prepared.field.None? then
      match WizardStep(flow, PhotoPart)
      case None => None
      case Some(photo) => Some(Enter(Record(photo, prepared.payload)))
    else
      PrepareStable(p.listing.GetOr(EmptyListing(flow)), p.meta);
      Some(Enter(Record(step, prepared.payload)))
  }

  /** `transitionToStep` saves nothing exactly when there is no flow, or when an
      attribute step has no question left and its flow has no photo step. */
  lemma SettleSavesNothing(step: Step, payload: Option<Payload>)
    ensures Settle(step, payload).None? <==>
      FlowOf(step, payload).None?
      || (IsAttributesStep(step)
          && PrepareAttributesPayload(payload.GetOr(InitialPayload(FlowOf(step, payload))), FlowOf(step, payload).value).field.None?
          && WizardStep(FlowOf(step, payload).value, PhotoPart).None?)
  {
    var flow := FlowOf(step, payload);
    if flow.Some? && IsAttributesStep(step) {
      var p := payload.GetOr(InitialPayload(flow));
      assert Settle(step, payload) == SettleAttributes(step, flow.value, p);
    }
  }

  /** The record saved for `saved.step` once its entry action has run. */
  function Enter(saved: Record): (r: Record)
    requires IsAttributesStep(saved.step) ==> AsksQuestion(saved.payload)
    ensures Resting(r)
    decreases ChainRank(saved.step), 0
  {
    EnterKeepsQuestion(saved);
    match EnterTransition(saved)
    case None => saved
    case Some((next, p)) => Settle(next, Some(p)).value
  }

  /** An attribute step on a question stays where it is. */
  lemma EnterKeepsQuestion(saved: Record)
    requires IsAttributesStep(saved.step) ==> AsksQuestion(saved.payload)
    ensures EnterTransition(saved).None? ==> Resting(saved)
    ensures IsAttributesStep(saved.step) ==> EnterTransition(saved).None?
  {
    if IsAttributesStep(saved.step) {
      var l := saved.payload.listing.value;
      var prep := PrepareAttributes(l, saved.payload.meta);
      var fields := Categories.FieldsOf(l.category);
      Categories.NormalizeIdempotent(l.category);
      var f := prep.field.value;
      assert f in fields && f.key != "" by {
        var i :| 0 <= i < |fields| && fields[i] == f;
      }
      var category := Categories.Normalize(l.category);
      assert Categories.FieldsOf(category) == fields;
      assert Categories.FieldOf(category, saved.payload.meta.currentAttributeKey).Some?;
    }
  }

  // ---------------------------------------------------------------------------
  // Properties of the chain

  /** A step other than IDLE and the attribute steps is saved as it is and its
      entry action runs. */
  lemma {:induction false} SettlePlain(step: Step, p: Payload)
    requires step != Idle && !IsAttributesStep(step)
    ensures Settle(step, Some(p)) == Some(Enter(Record(step, p)))
  {
  }

  lemma {:induction false} EnterStays(saved: Record)
    requires !IsAttributesStep(saved.step) && EnterTransition(saved).None?
    ensures Enter(saved) == saved
  {
  }

  lemma {:induction false} EnterMoves(saved: Record, next: Step, p: Payload)
    requires !IsAttributesStep(saved.step) && EnterTransition(saved) == Some((next, p))
    ensures Enter(saved) == Settle(next, Some(p)).value
  {
  }

  /** The LOST secrets step never keeps a session: entering it clears the secrets
      and moves on to the confirmation. So `/back` from the LOST confirmation lands
      on the confirmation again, with the secrets wiped. */
  lemma {:induction false} BackFromLostConfirm(p: Payload)
    ensures PreviousStep(Some(Lost), LostConfirm) == Some(LostSecrets)
    ensures var r := Settle(LostSecrets, Some(p));
      r.Some? && r.value.step == LostConfirm && r.value.payload.listing.Some?
      && r.value.payload.listing.value.secretEntries == []
      && r.value.payload.listing.value.encryptedSecrets == []
      && r.value.payload.listing.value.pendingSecrets == []
  {
    PreviousStepAt(Lost, 5);
    var saved := Record(LostSecrets, p);
    SettlePlain(LostSecrets, p);
    var q := ClearSecrets(Draft(CreateRuntime(Some(saved))));
    LostSecretsMoves(p);
    EnterMoves(saved, LostConfirm, q);
    SettlePlain(LostConfirm, q);
    QuietStep(Record(LostConfirm, q));
    EnterStays(Record(LostConfirm, q));
  }

  lemma LostSecretsMoves(p: Payload)
    ensures EnterTransition(Record(LostSecrets, p))
      == Some((LostConfirm, ClearSecrets(Draft(CreateRuntime(Some(Record(LostSecrets, p)))))))
  {
  }

  /** Starting a wizard saves its category step with the initial payload. */
  lemma {:induction false} StartWizardLanding(f: Flow)
    requires IsWizardFlow(f)
    ensures var p := InitialPayload(Some(f));
      Settle(StartStep(f), Some(p)) == Some(Record(StartStep(f), p))
  {
    var p := InitialPayload(Some(f));
    SettlePlain(StartStep(f), p);
    EnterStays(Record(StartStep(f), p));
  }

  /** Starting the volunteer flow lands on the location step. */
  lemma {:induction false} StartVolunteerLanding()
    ensures var p := InitialPayload(Some(Volunteer));
      Settle(VolunteerIntro, Some(p)) == Some(Record(VolunteerLocation, p))
  {
    var p := InitialPayload(Some(Volunteer));
    SettlePlain(VolunteerIntro, p);
    var saved := Record(VolunteerIntro, p);
    VolunteerIntroMoves(p);
    EnterMoves(saved, VolunteerLocation, p);
    SettlePlain(VolunteerLocation, p);
    QuietStep(Record(VolunteerLocation, p));
    EnterStays(Record(VolunteerLocation, p));
  }

  /** The volunteer intro moves on to the location step with the payload as read. */
  lemma VolunteerIntroMoves(p: Payload)
    requires p.listing.Some? ==> p.listing.value.category.None?
    ensures EnterTransition(Record(VolunteerIntro, p)) == Some((VolunteerLocation, p))
  {
    assert NormalizeCategory(p) == p;
  }

  /** The steps without an entry action stay where they are. */
  lemma QuietStep(rec: Record)
    requires !IsAttributesStep(rec.step)
    requires rec.step !in {LostSecrets, OwnerIntro, OwnerQuestion, VolunteerIntro}
    ensures EnterTransition(rec).None?
  {
  }

  /** Starting the owner flow with no check under way stays on its intro. */
  lemma {:induction false} StartOwnerLanding()
    ensures var p := InitialPayload(Some(Owner));
      Settle(OwnerIntro, Some(p)) == Some(Record(OwnerIntro, p))
  {
    var p := InitialPayload(Some(Owner));
    SettlePlain(OwnerIntro, p);
    IntroWithoutCheck(p);
    EnterStays(Record(OwnerIntro, p));
  }

  /** The owner intro without a running check has nothing to move on to. */
  lemma IntroWithoutCheck(p: Payload)
    requires p.ownerCheck.None?
    ensures EnterTransition(Record(OwnerIntro, p)).None?
  {
    assert CreateRuntime(Some(Record(OwnerIntro, p))).payload.value.ownerCheck.None?;
  }

  /** Entering an attribute step on an unfinished questionnaire saves that step with
      the question chosen; on a finished one (or a category without one) it saves
      the photo step of the flow instead. */
  lemma {:induction false} AttributesLanding(step: Step, p: Payload)
    requires IsAttributesStep(step) && p.flow == StepFlow(step)
    ensures var prepared := PrepareAttributesPayload(p, p.flow.value);
      var r := Settle(step, Some(p));
      r.Some?
      && (prepared.field.Some? ==> r.value == Record(step, prepared.payload))
      && (prepared.field.None? ==> r.value.step == WizardStep(p.flow.value, PhotoPart).value
                                   && r.value.payload == prepared.payload)
  {
    var prepared := PrepareAttributesPayload(p, p.flow.value);
    if prepared.field.Some? {
      PrepareStable(p.listing.GetOr(EmptyListing(p.flow.value)), p.meta);
      EnterKeepsQuestion(Record(step, prepared.payload));
      SettleAsking(step, p);
    } else {
      var photo := WizardStep(p.flow.value, PhotoPart).value;
      SettleFinished(step, p);
      QuietStep(Record(photo, prepared.payload));
      EnterStays(Record(photo, prepared.payload));
    }
  }

  /** An attribute step with a question to ask saves the prepared payload there. */
  lemma {:induction false} SettleAsking(step: Step, p: Payload)
    requires IsAttributesStep(step) && p.flow == StepFlow(step)
    requires AsksQuestion(PrepareAttributesPayload(p, p.flow.value).payload)
    ensures Settle(step, Some(p)) == Some(Enter(Record(step, PrepareAttributesPayload(p, p.flow.value).payload)))
  {
  }

  /** An attribute step with no question left saves the flow's photo step. */
  lemma {:induction false} SettleFinished(step: Step, p: Payload)
    requires IsAttributesStep(step) && p.flow == StepFlow(step)
    requires PrepareAttributesPayload(p, p.flow.value).field.None?
    ensures WizardStep(p.flow.value, PhotoPart).Some?
    ensures Settle(step, Some(p))
      == Some(Enter(Record(WizardStep(p.flow.value, PhotoPart).value, PrepareAttributesPayload(p, p.flow.value).payload)))
  {
  }
}
