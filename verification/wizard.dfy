/** The step handlers of the lost and found wizards and of the volunteer location
    step: what each does with a message or a button, as a `Move` on the user's
    session, and the publication that ends a wizard. */
module Wizard {
  import opened Wrappers
  import opened Text
  import opened Flows
  import opened Sessions
  import opened Store
  import Drafts
  import Categories
  import Vault
  import Geo
  import Matching
  import Display
  import Sorting
  import N = Notifications
  import Users

  /** What a step handler does with the session: nothing, a `transitionToStep`, or
      a plain `saveStateRecord`. */
  datatype Move = Stay | Go(step: Step, payload: Option<Payload>) | Save(rec: Record)

  /** A move carried out on the user's session. Only that session changes. */
  function Apply(w: World, user: Users.UserId, m: Move): (w': World)
    ensures m.Stay? ==> w' == w
    ensures w' == w.(sessions := w'.sessions)
    ensures forall u | u != user :: (u in w'.sessions <==> u in w.sessions)
    ensures forall u | u != user && u in w.sessions :: w'.sessions[u] == w.sessions[u]
  {
    match m
    case Stay => w
    case Go(step, payload) => SaveSettled(w, user, Settle(step, payload))
    case Save(rec) => SaveRecord(w, user, rec)
  }

  /** `FLOW_STEP_MAP[flow][part]` of a wizard flow. */
  function StepOf(f: Flow, k: Part): (s: Step)
    requires IsWizardFlow(f)
    ensures StepFlow(s) == Some(f) && s != Idle
  {
    WizardStep(f, k).value
  }

  /** The draft of a payload built by `Draft`. */
  function ListingOf(p: Payload): Drafts.Listing
    requires p.listing.Some?
  {
    p.listing.value
  }

  // ---------------------------------------------------------------------------
  // The category step

  /** The category button's `withListing`: the category is set, the answers, hints
      and details are dropped, and the bookkeeping starts afresh (a finder must
      accept the legal notice again). */
  function WithCategory(p: Payload, f: Flow, id: string): (q: Payload)
    requires p.listing.Some?
  {
    var l := p.listing.value;
    p.(listing := Some(l.(category := Some(id), details := "", attributes := map[], pendingSecrets := [])),
       meta := Drafts.Meta(None, false, if f == Found then false else p.meta.legalAccepted, None, None))
  }

  /** The category step's button handler: only a known category id has an effect,
      and it moves on to the attribute questions. */
  function ChooseCategory(f: Flow, rt: Runtime, value: string): (m: Move)
    requires IsWizardFlow(f)
    ensures m.Stay? <==> !Categories.IsCanonical(value)
    ensures m.Go? ==> m.step == StepOf(f, AttributesPart) && m.payload.Some? && m.payload.value.listing.Some?
                      && ListingOf(m.payload.value).category == Some(value)
                      && ListingOf(m.payload.value).attributes == map[]
  {
    if Categories.IsCanonical(value) then Go(StepOf(f, AttributesPart), Some(WithCategory(Draft(rt), f, value)))
    else Stay
  }

  /** Choosing a category lands on the attribute step with the category's first
      question asked, no answers, no hints and no location choice yet. */
  lemma {:induction false} CategoryLanding(w: World, user: Users.UserId, f: Flow, rt: Runtime, id: string)
    requires IsWizardFlow(f) && Categories.IsCanonical(id) && Draft(rt).flow == Some(f)
    ensures var w' := Apply(w, user, ChooseCategory(f, rt, id));
      var fields := Categories.FieldsOf(Some(id));
      user in w'.sessions && w'.sessions[user].step == StepOf(f, AttributesPart)
      && var p := w'.sessions[user].payload;
      p.listing.Some? && ListingOf(p).category == Some(id) && ListingOf(p).attributes == map[]
      && ListingOf(p).pendingSecrets == [] && |fields| > 0
      && p.meta.currentAttributeKey == Some(fields[0].key)
      && !p.meta.photoAcknowledged && p.meta.locationMode.None? && p.meta.locationStage.None?
      && (f == Found ==> !p.meta.legalAccepted)
  {
    var step := StepOf(f, AttributesPart);
    var q := WithCategory(Draft(rt), f, id);
    Categories.CanonicalIsNormal(id);
    var fields := Categories.FieldsOf(Some(id));
    assert Drafts.FirstUnanswered(fields, map[]) == Some(0);
    var prepared := PrepareAttributesPayload(q, f);
    assert prepared.field == Some(fields[0]);
    AttributesLanding(step, q);
  }

  // ---------------------------------------------------------------------------
  // The attribute step

  /** The category the runtime's draft holds, if any. */
  function CategoryOf(rt: Runtime): Option<string> {
    if rt.payload.Some? && rt.payload.value.listing.Some? then rt.payload.value.listing.value.category else None
  }

  /** The attribute step's message handler: without a category back to the category
      step; without a current question the step is entered again; otherwise the
      answer is recorded (or refused) and the step is entered again for the next
      question. */
  function AnswerQuestion(f: Flow, rt: Runtime, text: string, lower: string): (m: Move)
    requires IsWizardFlow(f)
    ensures !m.Save?
    ensures !Users.Truthy(CategoryOf(rt)) ==> m == Go(StepOf(f, CategoryPart), rt.payload)
    ensures m.Go? && m.step != StepOf(f, CategoryPart) ==> m.step == StepOf(f, AttributesPart)
  {
    var category := CategoryOf(rt);
    if !Users.Truthy(category) then Go(StepOf(f, CategoryPart), rt.payload)
    else
      var d := Draft(rt);
      match Categories.FieldOf(category, rt.payload.value.meta.currentAttributeKey)
      case None => Go(StepOf(f, AttributesPart), rt.payload)
      case Some(field) =>
        match Drafts.AnswerAttribute(ListingOf(d), d.meta, field, text, lower)
        case Stored(l, meta) => Go(StepOf(f, AttributesPart), Some(d.(listing := Some(l), meta := meta)))
        case _ => Stay
  }

  /** On a session that sits on a question, an answer is either refused (nothing
      changes) or recorded, and then one question fewer is left: the attribute step
      always comes to an end. The answer is refused exactly when it is not `/skip`
      and is empty, or too short for a required question. */
  lemma {:induction false} AnswerProgress(f: Flow, rt: Runtime, p: Payload, text: string, lower: string)
    requires IsWizardFlow(f) && rt.payload == Some(p) && AsksQuestion(p)
    ensures var m := AnswerQuestion(f, rt, text, lower);
      var field := Drafts.PrepareAttributes(ListingOf(p), p.meta).field.value;
      var fields := Categories.FieldsOf(ListingOf(p).category);
      (m.Stay? <==> !(lower == "/skip" || (text != "" && (!field.required || Vault.Utf16Length(text) >= 2))))
      && (!m.Stay? ==>
            m.Go? && m.step == StepOf(f, AttributesPart) && m.payload.Some? && m.payload.value.listing.Some?
            && Categories.FieldsOf(ListingOf(m.payload.value).category) == fields
            && Drafts.Unanswered(fields, ListingOf(m.payload.value).attributes)
               == Drafts.Unanswered(fields, ListingOf(p).attributes) - 1)
  {
    var l := ListingOf(p);
    CurrentQuestion(rt, p);
    var d := Draft(rt);
    assert d.listing == p.listing && d.meta == p.meta;
    var r := Drafts.AnswerAttribute(l, p.meta, Drafts.PrepareAttributes(l, p.meta).field.value, text, lower);
    if r.Stored? {
      assert AnswerQuestion(f, rt, text, lower)
          == Go(StepOf(f, AttributesPart), Some(d.(listing := Some(r.listing), meta := r.meta)));
      Drafts.AnswerAdvances(l, p.meta, text, lower);
    } else {
      assert AnswerQuestion(f, rt, text, lower) == Stay;
    }
  }

  /** A session that sits on a question has a category, and the question it
      records is the one the draft prepares. */
  lemma CurrentQuestion(rt: Runtime, p: Payload)
    requires rt.payload == Some(p) && AsksQuestion(p)
    ensures Users.Truthy(CategoryOf(rt))
    ensures Categories.FieldOf(CategoryOf(rt), p.meta.currentAttributeKey)
            == Some(Drafts.PrepareAttributes(ListingOf(p), p.meta).field.value)
  {
    var l := ListingOf(p);
    var field := Drafts.PrepareAttributes(l, p.meta).field.value;
    var fields := Categories.FieldsOf(l.category);
    Categories.NormalizeIdempotent(l.category);
    assert Categories.IsCanonical(l.category.value);
    var i :| 0 <= i < |fields| && fields[i] == field;
    FindDistinct(fields, i);
  }

  // ---------------------------------------------------------------------------
  // The photo step

  /** The words that close the photo step once a photo is in. */
  const NextWords: set<string> := {"/next", "готово", "готов", "dalee", "далее"}

  /** The photo step's message handler: `/skip` moves on to the location; a
      `/next` word does too once there is a photo; otherwise the attached photos
      are added, and the step is left when the third one is in. */
  function AddPhotos(f: Flow, rt: Runtime, lower: string, attachments: seq<Drafts.Photo>): (m: Move)
    requires IsWizardFlow(f)
  {
    var d := Draft(rt);
    var photos := ListingOf(d).photos;
    if lower == "/skip" then Go(StepOf(f, LocationPart), rt.payload)
    else if lower in NextWords then
      if |photos| == 0 then Stay else Go(StepOf(f, LocationPart), rt.payload)
    else if |attachments| == 0 then Stay
    else
      var (next, added, _) := Drafts.AppendPhotos(photos, attachments, Drafts.PhotoLimit);
      var q := d.(listing := Some(ListingOf(d).(photos := next)));
      if added == 0 then Stay
      else if |next| >= Drafts.PhotoLimit then Go(StepOf(f, LocationPart), Some(q))
      else Save(Record(StepOf(f, PhotoPart), q))
  }

  /** The draft's photos grew from `before` by new attachments only, within the limit
      and with distinct ids. */
  predicate PhotosGrew(before: seq<Drafts.Photo>, p: Payload, attachments: seq<Drafts.Photo>) {
    p.listing.Some?
    && var ps := ListingOf(p).photos;
    |before| < |ps| <= Drafts.PhotoLimit && ps[..|before|] == before && Drafts.DistinctIds(ps)
    && forall i | |before| <= i < |ps| :: ps[i] in attachments && !Drafts.HasId(before, ps[i].id)
  }

  /** The photo step keeps at most three photos with distinct ids, only ever adds
      to them, and adds only attachments with new ids; it stays on the step while
      fewer than three are in, and leaves for the location step at the third. */
  lemma {:induction false} PhotoProgress(f: Flow, rt: Runtime, lower: string, attachments: seq<Drafts.Photo>)
    requires IsWizardFlow(f)
    requires var ps := ListingOf(Draft(rt)).photos; |ps| <= Drafts.PhotoLimit && Drafts.DistinctIds(ps)
    ensures var m := AddPhotos(f, rt, lower, attachments);
      var before := ListingOf(Draft(rt)).photos;
      (m.Save? ==> m.rec.step == StepOf(f, PhotoPart) && PhotosGrew(before, m.rec.payload, attachments)
                   && |ListingOf(m.rec.payload).photos| < Drafts.PhotoLimit)
      && (m.Go? ==> m.step == StepOf(f, LocationPart)
                    && (m.payload == rt.payload
                        || (m.payload.Some? && PhotosGrew(before, m.payload.value, attachments)
                            && |ListingOf(m.payload.value).photos| == Drafts.PhotoLimit)))
      && (lower == "/skip" ==> m == Go(StepOf(f, LocationPart), rt.payload))
      && (lower in NextWords && |before| > 0 ==> m == Go(StepOf(f, LocationPart), rt.payload))
  {
    var d := Draft(rt);
    var before := ListingOf(d).photos;
    if lower != "/skip" && lower !in NextWords && |attachments| > 0 {
      var r := Drafts.AppendPhotos(before, attachments, Drafts.PhotoLimit);
      var q := d.(listing := Some(ListingOf(d).(photos := r.0)));
      forall i | |before| <= i < |r.0| ensures !Drafts.HasId(before, r.0[i].id) {
        Drafts.AppendPhotosSkipsKnownIds(before, attachments, Drafts.PhotoLimit, i);
      }
      assert ListingOf(q).photos == r.0;
    }
  }

  /** The photo step's button: `photo_ack` is taken for every find and for a loss
      in a risky category, and enters the photo step again acknowledged. */
  function AcknowledgePhotos(f: Flow, rt: Runtime, action: string): (m: Move)
    requires IsWizardFlow(f)
    ensures m.Stay? <==> !(action == "photo_ack" && Drafts.AckOnCallback(f == Found, ListingOf(Draft(rt)).category))
    ensures m.Go? ==> m.step == StepOf(f, PhotoPart) && m.payload.Some? && m.payload.value.meta.photoAcknowledged
                      && m.payload.value == Draft(rt).(meta := m.payload.value.meta)
  {
    var d := Draft(rt);
    if action == "photo_ack" && Drafts.AckOnCallback(f == Found, ListingOf(d).category) then
      Go(StepOf(f, PhotoPart), Some(d.(meta := d.meta.(photoAcknowledged := true))))
    else Stay
  }

  /** A step with no entry action is saved exactly as asked. */
  lemma {:induction false} QuietLanding(step: Step, p: Payload)
    requires step != Idle && !IsAttributesStep(step)
    requires step !in {LostSecrets, OwnerIntro, OwnerQuestion, VolunteerIntro}
    ensures Settle(step, Some(p)) == Some(Record(step, p))
  {
    SettlePlain(step, p);
    QuietStep(Record(step, p));
    EnterStays(Record(step, p));
  }

  // ---------------------------------------------------------------------------
  // The location step

  const TransitLimit: nat := 200
  const NoteLimit: nat := 500

  /** How far the location step has got. */
  function StageRank(s: Drafts.LocationStage): nat {
    match s
    case TransitRoute => 0
    case Details => 1
    case Time => 2
    case Complete => 3
  }

  /** The location step's mode button: a known mode is stored and the step starts
      on the route (transit) or on the place (any other mode). */
  function ChooseLocationMode(f: Flow, rt: Runtime, action: string, value: string): (m: Move)
    requires IsWizardFlow(f)
    ensures m.Stay? <==> action != "location_mode" || Drafts.ParseLocationMode(value).None?
    ensures m.Go? ==>
      var mode := Drafts.ParseLocationMode(value).value;
      m.step == StepOf(f, LocationPart) && m.payload.Some? && m.payload.value.listing.Some?
      && m.payload.value.meta.locationMode == Some(mode) && ListingOf(m.payload.value).locationMode == Some(mode)
      && (m.payload.value.meta.locationStage == Some(Drafts.TransitRoute) <==> mode == Drafts.Transit)
      && (mode != Drafts.Transit ==> m.payload.value.meta.locationStage == Some(Drafts.Details))
  {
    if action != "location_mode" then Stay
    else match Drafts.ParseLocationMode(value)
      case None => Stay
      case Some(mode) =>
        var d := Draft(rt);
        var stage := if mode == Drafts.Transit then Drafts.TransitRoute else Drafts.Details;
        Go(StepOf(f, LocationPart),
           Some(d.(meta := d.meta.(locationMode := Some(mode), locationStage := Some(stage)),
                   listing := Some(ListingOf(d).(locationMode := Some(mode))))))
  }

  /** Entering `step` with the draft `l` and the location stage moved to `s`. */
  function Advance(step: Step, d: Payload, l: Drafts.Listing, s: Drafts.LocationStage): (m: Move)
    ensures m.Go? && m.step == step && m.payload.Some? && m.payload.value.listing == Some(l)
    ensures m.payload.value.meta == d.meta.(locationStage := Some(s))
  {
    Go(step, Some(d.(listing := Some(l), meta := d.meta.(locationStage := Some(s)))))
  }

  /** The place given in the details stage: the note (cut to 500 characters) when
      there is text, and the public and original points when there is a point. */
  function Placed(f: Flow, l: Drafts.Listing, mode: Drafts.LocationMode, text: string, point: Option<Drafts.Point>)
    : Drafts.Listing
  {
    l.(locationMode := Some(mode),
       locationNote := if text != "" then Sorting.Take(text, NoteLimit) else l.locationNote,
       location := if point.Some? then Some(Geo.GeneralizeLocation(f, point.value, mode).public) else l.location,
       locationOriginal := if point.Some? then Some(point.value) else l.locationOriginal)
  }

  /** The stage the runtime's location step is at. */
  function StageOf(rt: Runtime): Drafts.LocationStage {
    if rt.payload.Some? then rt.payload.value.meta.locationStage.GetOr(Drafts.Details) else Drafts.Details
  }

  /** The location step's message handler (`point` is the shared location or the
      attached one, `when` the date read from the text). Each stage either keeps
      the session or moves exactly one stage on: the route (transit only), the
      place, the time; the time stage hands over to the secrets step. A point is
      stored generalised for the public and as it is for the holder. */
  function LocationMessage(f: Flow, rt: Runtime, text: string, lower: string,
                           point: Option<Drafts.Point>, when: Option<int>): (m: Move)
    requires IsWizardFlow(f)
    ensures !m.Save?
    ensures m.Go? ==>
      rt.payload.Some? && rt.payload.value.meta.locationMode.Some? && m.payload.Some? && m.payload.value.listing.Some?
      && m.payload.value.meta.locationMode == rt.payload.value.meta.locationMode
      && m.payload.value.meta.locationStage.Some?
      && StageRank(m.payload.value.meta.locationStage.value) == StageRank(StageOf(rt)) + 1
      && (m.step == StepOf(f, SecretsPart) <==> m.payload.value.meta.locationStage == Some(Drafts.Complete))
      && (m.step != StepOf(f, SecretsPart) ==> m.step == StepOf(f, LocationPart))
    ensures StageOf(rt) == Drafts.Complete ==> m.Stay?
    ensures m.Go? && StageOf(rt) == Drafts.Details && lower != "/skip" && point.Some? ==>
      var mode := rt.payload.value.meta.locationMode.value;
      ListingOf(m.payload.value).location == Some(Geo.GeneralizeLocation(f, point.value, mode).public)
      && ListingOf(m.payload.value).locationOriginal == point
  {
    var meta := if rt.payload.Some? then rt.payload.value.meta else Drafts.NoMeta;
    match meta.locationMode
    case None => Stay
    case Some(mode) =>
      var d := Draft(rt);
      var l := ListingOf(d);
      var here := StepOf(f, LocationPart);
      match StageOf(rt)
      case TransitRoute =>
        if lower == "/skip" then Advance(here, d, l.(transit := None), Drafts.Details)
        else if text == "" || Vault.Utf16Length(text) < 4 then Stay
        else Advance(here, d, l.(transit := Some(Sorting.Take(text, TransitLimit))), Drafts.Details)
      case Details =>
        if lower == "/skip" then Advance(here, d, l, Drafts.Time)
        else if text == "" && point.None? then Stay
        else Advance(here, d, Placed(f, l, mode, text, point), Drafts.Time)
      case Time =>
        var next := StepOf(f, SecretsPart);
        if lower == "/skip" then Advance(next, d, l.(occurredAt := None), Drafts.Complete)
        else if when.None? then Stay
        else Advance(next, d, l.(occurredAt := when), Drafts.Complete)
      case Complete => Stay
  }

  /** A find's published point is never the point the finder gave: it is the
      point on the coarser grid, within half a grid step of it. */
  lemma FoundPointIsBlurred(rt: Runtime, text: string, lower: string, point: Drafts.Point, when: Option<int>)
    requires LocationMessage(Found, rt, text, lower, Some(point), when).Go?
    requires StageOf(rt) == Drafts.Details && lower != "/skip"
    ensures var m := LocationMessage(Found, rt, text, lower, Some(point), when);
      var mode := rt.payload.value.meta.locationMode.value;
      var public := ListingOf(m.payload.value).location.value;
      var step := Geo.Grid(Found, mode).0;
      point.latitude - step / 2.0 < public.latitude <= point.latitude + step / 2.0
      && point.longitude - step / 2.0 < public.longitude <= point.longitude + step / 2.0
      && ListingOf(m.payload.value).locationOriginal == Some(point)
  {
    var mode := rt.payload.value.meta.locationMode.value;
    assert Geo.NeedsGeneralization(Found, mode);
  }

  // ---------------------------------------------------------------------------
  // The secrets step

  /** The vault the secrets step seals with: the cipher, the key read at start-up
      and the initialisation vectors drawn for each secret. */
  datatype Vaulting = Vaulting(cipher: Vault.Cipher, key: Option<Vault.Bytes>, ivs: nat -> Vault.Iv)

  /** The entries as the objects handed to `encryptSecrets`. */
  function AsInputs(entries: seq<Vault.Entry>): (r: seq<Vault.EntryInput>)
    ensures |r| == |entries|
    decreases |entries|
  {
    if |entries| == 0 then [] else [AsInput(entries[0])] + AsInputs(entries[1..])
  }

  function AsInput(e: Vault.Entry): Vault.EntryInput {
    Vault.Obj(Some(e.question), Some(e.answer))
  }

  /** A trimmed entry with an answer comes back from the vault's normalisation as
      it went in. */
  lemma NormalizeKeeps(e: Vault.Entry)
    requires Clean(e)
    ensures Vault.NormalizeSecretEntry(AsInput(e)) == Some(e)
  {
    TrimOfTrimmed(e.question);
    TrimOfTrimmed(e.answer);
  }

  /** `encryptSecrets(entries)`, with a failure caught as no stored secrets. */
  function SealEntries(v: Vaulting, entries: seq<Vault.Entry>): (r: seq<Vault.StoredSecret>) {
    match Vault.EncryptSecrets(v.cipher, v.key, v.ivs, AsInputs(entries))
    case Success(s) => s
    case Failure(_) => []
  }

  /** An entry as a finder's text yields it: trimmed, with an answer. */
  predicate Clean(e: Vault.Entry) {
    e.answer != "" && NoEdgeSpace(e.question) && NoEdgeSpace(e.answer)
  }

  /** Every entry of `s` is clean. */
  predicate AllClean(s: seq<Vault.Entry>)
    decreases |s|
  {
    |s| == 0 || (Clean(s[0]) && AllClean(s[1..]))
  }

  lemma {:induction false} AllCleanOf(s: seq<Vault.Entry>)
    requires forall e | e in s :: Clean(e)
    ensures AllClean(s)
    decreases |s|
  {
    if |s| > 0 {
      assert s[0] in s;
      assert forall e | e in s[1..] :: e in s;
      AllCleanOf(s[1..]);
    }
  }

  /** A finder's parsed entries are clean. */
  lemma ParsedAreClean(text: string)
    requires Drafts.ParseSecretEntries(true, text).Success?
    ensures AllClean(Drafts.ParseSecretEntries(true, text).value)
  {
    var entries := Drafts.ParseSecretEntries(true, text).value;
    assert forall e | e in entries :: Clean(e);
    AllCleanOf(entries);
  }

  /** Entries read from a finder's text are already normalised, so the vault keeps
      each of them, in order. */
  lemma {:induction false} NormalizedEntries(entries: seq<Vault.Entry>)
    requires AllClean(entries)
    ensures Vault.Normalized(AsInputs(entries)) == entries
    decreases |entries|
  {
    if |entries| > 0 {
      var e := entries[0];
      var rest := entries[1..];
      NormalizeKeeps(e);
      NormalizedEntries(rest);
      calc {
        Vault.Normalized(AsInputs(entries));
        Vault.Normalized([AsInput(e)] + AsInputs(rest));
        { NormalizedCons(AsInput(e), AsInputs(rest), e); }
        [e] + Vault.Normalized(AsInputs(rest));
        [e] + rest;
        { HeadTail(entries); }
        entries;
      }
    }
  }

  /** One more MATCH_FOUND row appended after `k` of them. */
  lemma MatchRowsGrow(a: seq<N.Notification>, b: seq<N.Notification>, base: nat, user: nat,
                      ms: seq<Matching.Candidate>, k: nat)
    requires |a| == base + k && |b| == |a| + 1 && b[..|a|] == a && k < |ms|
    requires forall i | 0 <= i < k :: MatchRow(a[base + i], user, ms[i])
    requires MatchRow(b[|a|], user, ms[k])
    ensures forall i | 0 <= i < k + 1 :: MatchRow(b[base + i], user, ms[i])
  {
    forall i | 0 <= i < k + 1 ensures MatchRow(b[base + i], user, ms[i]) {
      if i < k {
        assert b[base + i] == b[..|a|][base + i];
      }
    }
  }

  /** A sequence that starts with `a` agrees with `a` everywhere `a` is defined. */
  lemma Extends<T>(a: seq<T>, b: seq<T>, n: nat)
    requires |a| <= |b| && b[..|a|] == a && n <= |a|
    ensures b[..n] == a[..n]
  {
  }

  lemma HeadTail<T>(s: seq<T>)
    requires |s| > 0
    ensures [s[0]] + s[1..] == s
  {
  }

  lemma NormalizedCons(x: Vault.EntryInput, rest: seq<Vault.EntryInput>, e: Vault.Entry)
    requires Vault.NormalizeSecretEntry(x) == Some(e)
    ensures Vault.Normalized([x] + rest) == [e] + Vault.Normalized(rest)
  {
    assert ([x] + rest)[0] == x && ([x] + rest)[1..] == rest;
  }

  /** The secrets step's message handler: a loss goes straight on to the
      confirmation; a finder's text (or `/skip`, meaning none) is read as entries,
      which are stored in the draft both as they are and sealed by the vault. */
  function SecretsMessage(f: Flow, rt: Runtime, text: string, lower: string, v: Vaulting): (m: Move)
    requires IsWizardFlow(f)
    ensures !m.Save?
    ensures f == Lost ==> m == Go(LostConfirm, rt.payload)
    ensures f == Found && lower != "/skip" && Drafts.ParseSecretEntries(true, text).Failure? ==> m.Stay?
    ensures f == Found && m.Go? ==>
      m.step == FoundConfirm && m.payload.Some? && m.payload.value.listing.Some?
      && var l := ListingOf(m.payload.value);
      l.pendingSecrets == []
      && l.secretEntries == (if lower == "/skip" then [] else Drafts.ParseSecretEntries(true, text).value)
      && l.encryptedSecrets == SealEntries(v, l.secretEntries)
      && m.payload.value == Draft(rt).(listing := Some(ListingOf(Draft(rt)).(secretEntries := l.secretEntries,
           encryptedSecrets := l.encryptedSecrets, pendingSecrets := [])))
  {
    if f == Lost then Go(StepOf(f, ConfirmPart), rt.payload)
    else
      var parsed := if lower == "/skip" then Success([]) else Drafts.ParseSecretEntries(true, text);
      if parsed.Failure? then Stay
      else
        var d := Draft(rt);
        Go(StepOf(f, ConfirmPart), Some(d.(listing := Some(ListingOf(d).(
          secretEntries := parsed.value, encryptedSecrets := SealEntries(v, parsed.value), pendingSecrets := [])))))
  }

  /** With no key, or with a 32-byte key and a cipher that inverts itself, every
      secret a finder gives is stored sealed, question in clear, and opens back to
      its answer; the answers also stay in clear in the draft. */
  lemma {:induction false} SecretsSealed(rt: Runtime, text: string, lower: string, v: Vaulting, i: nat)
    requires v.key.None? || (|v.key.value| == Vault.KeyLength && Vault.RoundTrips(v.cipher))
    requires SecretsMessage(Found, rt, text, lower, v).Go?
    ensures var l := ListingOf(SecretsMessage(Found, rt, text, lower, v).payload.value);
      |l.encryptedSecrets| == |l.secretEntries|
      && (i < |l.secretEntries| ==>
            l.encryptedSecrets[i].question == l.secretEntries[i].question
            && Vault.DecryptSecret(v.cipher, v.key, l.encryptedSecrets[i].cipher) == l.secretEntries[i].answer)
  {
    var entries := if lower == "/skip" then [] else Drafts.ParseSecretEntries(true, text).value;
    if lower != "/skip" {
      ParsedAreClean(text);
    }
    NormalizedEntries(entries);
    var r := Vault.EncryptSecrets(v.cipher, v.key, v.ivs, AsInputs(entries));
    if |entries| > 0 {
      assert r.Success?;
    }
    if i < |entries| {
      Vault.SecretsRoundTrip(v.cipher, v.key, v.ivs, AsInputs(entries), i);
    }
  }

  /** With a key of the wrong length every encryption fails, and the finder's
      secrets are stored only in clear: the draft keeps the answers and no sealed
      secret at all. */
  lemma {:induction false} BadKeyStoresNoSecrets(rt: Runtime, text: string, lower: string, v: Vaulting)
    requires v.key.Some? && |v.key.value| != Vault.KeyLength
    requires lower != "/skip" && Drafts.ParseSecretEntries(true, text).Success?
    ensures var m := SecretsMessage(Found, rt, text, lower, v);
      m.Go? && ListingOf(m.payload.value).encryptedSecrets == []
      && ListingOf(m.payload.value).secretEntries == Drafts.ParseSecretEntries(true, text).value
      && |ListingOf(m.payload.value).secretEntries| > 0
  {
    var entries := Drafts.ParseSecretEntries(true, text).value;
    ParsedAreClean(text);
    SealingFails(v, entries);
    var m := SecretsMessage(Found, rt, text, lower, v);
    assert m.Go?;
    assert ListingOf(m.payload.value).secretEntries == entries;
  }

  /** A wrong-length key seals nothing out of clean entries. */
  lemma SealingFails(v: Vaulting, entries: seq<Vault.Entry>)
    requires v.key.Some? && |v.key.value| != Vault.KeyLength
    requires |entries| > 0 && AllClean(entries)
    ensures SealEntries(v, entries) == []
  {
    NormalizedEntries(entries);
  }

  // ---------------------------------------------------------------------------
  // The confirmation step and publication

  const PublishedBody := "Только что добавили объявление. Нажмите «Показать», чтобы увидеть карточку."

  /** `LOST` or `FOUND`, as a listing's type is written. */
  function TypeName(k: Drafts.ListingType): string {
    if k == Drafts.LostListing then "LOST" else "FOUND"
  }

  /** The LISTING_PUBLISHED notification of a new listing. */
  function PublishedNote(id: nat, listing: Drafts.ListingPayload): N.Data {
    N.Data(N.Given("Опубликовано: «" + Display.FormatListingTitle(Some(listing.title)) + "»"),
           N.Given(PublishedBody), N.Given(N.Unread),
           N.Given(map["listingId" := N.Num(id), "listingTitle" := N.Str(listing.title),
                       "listingType" := N.Str(TypeName(listing.kind))]),
           N.Given(id))
  }

  /** The MATCH_FOUND notification of one match. */
  function MatchNote(origin: nat, kind: Drafts.ListingType, c: Matching.Candidate): N.Data {
    var score := c.score.GetOr(0);
    var scoreText := if score >= 0 then NatToText(score) else "-" + NatToText(-score);
    N.Data(N.Given("Совпадение (" + scoreText + "%) — «" + Display.FormatListingTitle(Some(c.title)) + "»"),
           N.Given("Мы нашли объявление, которое похоже подходит.\nСовпадение: " + scoreText + "%"),
           N.Given(N.Action),
           N.Given(map["originId" := N.Num(origin), "originType" := N.Str(TypeName(kind)),
                       "targetId" := N.Num(c.id), "targetTitle" := N.Str(c.title), "score" := N.Num(score)]),
           N.Given(c.id))
  }

  /** Is `n` the MATCH_FOUND notification of match `c` for `user`? */
  predicate MatchRow(n: N.Notification, user: nat, c: Matching.Candidate) {
    n.userId == user && n.kind == N.MatchFound && n.listingId == Some(c.id)
    && n.status == Some(N.Action) && n.chatId.None?
  }

  /** The MATCH_FOUND notification of one match appended. */
  method AddMatch(t: N.Table, user: nat, origin: nat, kind: Drafts.ListingType, c: Matching.Candidate)
    returns (t': N.Table)
    ensures |t'.rows| == |t.rows| + 1 && t'.rows[..|t.rows|] == t.rows
    ensures MatchRow(t'.rows[|t.rows|], user, c)
  {
    t' := N.Create(t, Some(user), Some(N.MatchFound), None, MatchNote(origin, kind, c)).value.0;
  }

  /** The LISTING_PUBLISHED notification of listing `id` appended. */
  method AddPublished(t: N.Table, user: nat, id: nat, listing: Drafts.ListingPayload) returns (t': N.Table)
    ensures |t'.rows| == |t.rows| + 1 && t'.rows[..|t.rows|] == t.rows
    ensures PublishedRow(t'.rows[|t.rows|], user, id)
  {
    t' := N.Create(t, Some(user), Some(N.ListingPublished), None, PublishedNote(id, listing)).value.0;
  }

  /** Is `n` the LISTING_PUBLISHED notification of listing `id` for `user`? */
  predicate PublishedRow(n: N.Notification, user: nat, id: nat) {
    n.userId == user && n.kind == N.ListingPublished && n.listingId == Some(id) && n.status == Some(N.Unread)
  }

  /** The notifications of a publication: LISTING_PUBLISHED for listing `id`, then
      one MATCH_FOUND per match, in order. */
  method PublishNotes(t: N.Table, user: nat, id: nat, listing: Drafts.ListingPayload,
                      matches: seq<Matching.Candidate>) returns (t': N.Table)
    ensures NotesPublished(t, t', user, id, matches)
  {
    var n := |t.rows|;
    t' := AddPublished(t, user, id, listing);
    var k := 0;
    while k < |matches|
      invariant 0 <= k <= |matches|
      invariant |t'.rows| == n + 1 + k && t'.rows[..n] == t.rows && PublishedRow(t'.rows[n], user, id)
      invariant forall i | 0 <= i < k :: MatchRow(t'.rows[n + 1 + i], user, matches[i])
    {
      var next := AddMatch(t', user, id, listing.kind, matches[k]);
      Extends(t'.rows, next.rows, n);
      MatchRowsGrow(t'.rows, next.rows, n + 1, user, matches, k);
      t', k := next, k + 1;
    }
  }

  /** `t'` is `t` with a LISTING_PUBLISHED notification for listing `id`, then one
      MATCH_FOUND notification for each match, all for `user`. */
  predicate NotesPublished(t: N.Table, t': N.Table, user: nat, id: nat, matches: seq<Matching.Candidate>) {
    var n := |t.rows|;
    |t'.rows| == n + 1 + |matches| && t'.rows[..n] == t.rows && PublishedRow(t'.rows[n], user, id)
    && (forall i | 0 <= i < |matches| :: MatchRow(t'.rows[n + 1 + i], user, matches[i]))
  }

  /** What a successful publication leaves behind: the listing appended as the
      user's, the user's session closed, and its notifications; nothing else
      changes. */
  ghost predicate Published(w: World, w': World, user: Users.UserId, listing: Drafts.ListingPayload,
                            matches: seq<Matching.Candidate>)
  {
    w'.listings == w.listings + [ListingRow(user, listing)]
    && w'.users == w.users && w'.chats == w.chats
    && user !in w'.sessions
    && (forall u | u != user :: (u in w'.sessions <==> u in w.sessions))
    && (forall u | u != user && u in w.sessions :: w'.sessions[u] == w.sessions[u])
    && NotesPublished(w.notes, w'.notes, user, |w.listings|, matches)
  }

  /** The flow a publication is built for: the runtime's, else the draft's type. */
  function PublishFlow(rt: Runtime, l: Drafts.Listing): Flow {
    rt.flow.GetOr(if l.kind == Drafts.LostListing then Lost else Found)
  }

  /** The matches a publication reports: none for a listing without a point;
      otherwise the shortlist of the scored candidates near it. */
  function MatchesOf(listing: Drafts.ListingPayload, candidates: seq<Matching.Candidate>): (r: seq<Matching.Candidate>)
    ensures |r| <= 3
    ensures forall i | 0 <= i < |r| :: Matching.Strong(r[i])
    ensures listing.location.None? ==> r == []
  {
    if listing.location.None? then [] else Matching.Shortlist(candidates)
  }

  /** `publishListing` and the notifications of the confirmation step (`now` is
      the clock, `candidates` the scored listings the matching query returns). A
      missing draft or one that cannot be built changes nothing. */
  method Publish(w: World, user: Users.UserId, rt: Runtime, now: int, candidates: seq<Matching.Candidate>)
    returns (w': World)
    ensures rt.payload.None? || rt.payload.value.listing.None? ==> w' == w
    ensures rt.payload.Some? && rt.payload.value.listing.Some? ==>
      var l := ListingOf(rt.payload.value);
      var built := Drafts.BuildListingPayload(PublishFlow(rt, l), l, now);
      (built.Failure? ==> w' == w)
      && (built.Success? ==> Published(w, w', user, built.value, MatchesOf(built.value, candidates)))
  {
    if rt.payload.None? || rt.payload.value.listing.None? {
      return w;
    }
    var l := ListingOf(rt.payload.value);
    var built := Drafts.BuildListingPayload(PublishFlow(rt, l), l, now);
    if built.Failure? {
      return w;
    }
    var listing := built.value;
    var id := |w.listings|;
    var matches := MatchesOf(listing, candidates);
    var w1 := ClearRecord(w.(listings := w.listings + [ListingRow(user, listing)]), user);
    var notes := PublishNotes(w.notes, user, id, listing, matches);
    w' := w1.(notes := notes);
  }

  /** The confirmation step's buttons. `legal_ack` records the finder's acceptance
      of the legal notice; `publish` publishes, but a finder must have accepted the
      notice first; `edit` enters the runtime flow's attribute step again. Any
      other button changes nothing. */
  method Confirm(w: World, user: Users.UserId, f: Flow, rt: Runtime, action: string, value: string,
                 now: int, candidates: seq<Matching.Candidate>) returns (w': World)
    requires IsWizardFlow(f)
    ensures action != "confirm" || value !in {"legal_ack", "publish", "edit"} ==> w' == w
    ensures action == "confirm" && value == "legal_ack" ==>
      var d := Draft(rt);
      w' == SaveRecord(w, user, Record(StepOf(f, ConfirmPart), d.(meta := d.meta.(legalAccepted := true))))
    ensures (action == "confirm" && value == "publish" && f == Found
             && !(rt.payload.Some? && rt.payload.value.meta.legalAccepted)) ==> w' == w
    ensures (action == "confirm" && value == "publish" && rt.payload.Some? && rt.payload.value.listing.Some?
             && (f == Lost || rt.payload.value.meta.legalAccepted)) ==>
      var l := ListingOf(rt.payload.value);
      var built := Drafts.BuildListingPayload(PublishFlow(rt, l), l, now);
      (built.Failure? ==> w' == w)
      && (built.Success? ==> Published(w, w', user, built.value, MatchesOf(built.value, candidates)))
    ensures action == "confirm" && value == "edit" && !(rt.flow.Some? && IsWizardFlow(rt.flow.value)) ==> w' == w
    ensures action == "confirm" && value == "edit" && rt.flow.Some? && IsWizardFlow(rt.flow.value) ==>
      w' == SaveSettled(w, user, Settle(StepOf(rt.flow.value, AttributesPart), rt.payload))
  {
    if action != "confirm" {
      return w;
    }
    if value == "legal_ack" {
      w' := AcceptLegal(w, user, f, rt);
    } else if value == "publish" {
      if f == Found && !(rt.payload.Some? && rt.payload.value.meta.legalAccepted) {
        return w;
      }
      w' := Publish(w, user, rt, now, candidates);
    } else if value == "edit" && rt.flow.Some? && IsWizardFlow(rt.flow.value) {
      w' := SaveSettled(w, user, Settle(StepOf(rt.flow.value, AttributesPart), rt.payload));
    } else {
      w' := w;
    }
  }

  /** `legal_ack`: the confirmation step is entered again with the notice accepted. */
  method AcceptLegal(w: World, user: Users.UserId, f: Flow, rt: Runtime) returns (w': World)
    requires IsWizardFlow(f)
    ensures var d := Draft(rt);
      w' == SaveRecord(w, user, Record(StepOf(f, ConfirmPart), d.(meta := d.meta.(legalAccepted := true))))
  {
    var d := Draft(rt);
    var p := d.(meta := d.meta.(legalAccepted := true));
    QuietLanding(StepOf(f, ConfirmPart), p);
    w' := Apply(w, user, Go(StepOf(f, ConfirmPart), Some(p)));
  }

  /** `edit` does not reopen the questions once all are answered: the draft is
      prepared again, no question is left, and the session lands on the photo
      step with the answers as they were. */
  lemma {:induction false} EditSkipsAnsweredQuestions(w: World, user: Users.UserId, f: Flow, p: Payload)
    requires IsWizardFlow(f) && p.flow == Some(f) && p.listing.Some?
    requires var fields := Categories.FieldsOf(ListingOf(p).category);
      forall j | 0 <= j < |fields| :: fields[j].key in ListingOf(p).attributes
    ensures var r := Settle(StepOf(f, AttributesPart), Some(p));
      r.Some? && r.value.step == StepOf(f, PhotoPart)
      && r.value.payload.listing.Some?
      && ListingOf(r.value.payload).attributes == ListingOf(p).attributes
  {
    AttributesLanding(StepOf(f, AttributesPart), p);
  }

  // ---------------------------------------------------------------------------
  // The volunteer location step

  /** `withVolunteerPayload` setting the volunteer's location. */
  function WithVolunteerLocation(rt: Runtime, location: Option<Drafts.Point>): (p: Payload)
    ensures p.volunteer == Some(VolunteerState(location)) && p.flow.Some?
  {
    VolunteerDraft(rt).(volunteer := Some(VolunteerState(location)))
  }

  /** The volunteer location step's message handler: a skip word clears the
      location, a shared location is kept; either moves on to the list. */
  function VolunteerLocated(rt: Runtime, lower: string, location: Option<Drafts.Point>): (m: Move)
    ensures !m.Save?
    ensures m.Stay? <==> !IsSkipCommand(lower) && location.None?
    ensures m.Go? ==> m.step == VolunteerList && m.payload.Some?
                      && m.payload.value.volunteer == Some(VolunteerState(if IsSkipCommand(lower) then None else location))
  {
    if IsSkipCommand(lower) then Go(VolunteerList, Some(WithVolunteerLocation(rt, None)))
    else if location.Some? then Go(VolunteerList, Some(WithVolunteerLocation(rt, location)))
    else Stay
  }

  /** The volunteer location step's button: `location_skip` shows the whole list. */
  function VolunteerSkip(rt: Runtime, action: string): (m: Move)
    ensures m.Stay? <==> action != "location_skip"
    ensures m.Go? ==> m.step == VolunteerList && m.payload.Some? && m.payload.value.volunteer == Some(VolunteerState(None))
  {
    if action == "location_skip" then Go(VolunteerList, Some(WithVolunteerLocation(rt, None))) else Stay
  }

  /** Leaving the volunteer location step saves the list step with the location. */
  lemma {:induction false} VolunteerLanding(w: World, user: Users.UserId, rt: Runtime, lower: string,
                                           location: Option<Drafts.Point>)
    requires IsSkipCommand(lower) || location.Some?
    ensures var w' := Apply(w, user, VolunteerLocated(rt, lower, location));
      user in w'.sessions && w'.sessions[user].step == VolunteerList
      && w'.sessions[user].payload.volunteer == Some(VolunteerState(if IsSkipCommand(lower) then None else location))
  {
    var m := VolunteerLocated(rt, lower, location);
    QuietLanding(VolunteerList, m.payload.value);
  }
}
