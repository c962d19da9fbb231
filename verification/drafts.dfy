/** The listing draft a lost/found wizard builds in the session payload, and the
    pure helpers its steps use: choosing the next attribute question, recording
    an answer, accumulating photos, reading secret questions from text, and the
    record that publishing persists. */
module Drafts {
  import opened Wrappers
  import opened Text
  import opened Categories
  import Flows
  import Vault
  import Sorting

  datatype ListingType = LostListing | FoundListing

  datatype LocationMode = Exact | Approx | Transit

  /** `Object.values(LOCATION_MODES).includes(mode)`. */
  function ParseLocationMode(s: string): (r: Option<LocationMode>)
    ensures r.Some? <==> s in {"exact", "approx", "transit"}
  {
    if s == "exact" then Some(Exact)
    else if s == "approx" then Some(Approx)
    else if s == "transit" then Some(Transit)
    else None
  }

  /** `meta.locationStage`; a missing stage reads as `Details`. */
  datatype LocationStage = TransitRoute | Details | Time | Complete

  datatype Point = Point(latitude: real, longitude: real)

  datatype Photo = Photo(id: string, url: Option<string>, token: Option<string>)

  /** A candidate secret collected from an attribute answer. */
  datatype Hint = Hint(key: string, value: string)

  /** An attribute answer: `None` is the `null` stored by `/skip`. */
  type Attributes = map<string, Option<string>>

  /** `payload.listing`, the draft. */
  datatype Listing = Listing(
    kind: ListingType,
    category: Option<string>,
    details: string,
    attributes: Attributes,
    photos: seq<Photo>,
    location: Option<Point>,
    locationOriginal: Option<Point>,
    locationNote: string,
    secretEntries: seq<Vault.Entry>,
    encryptedSecrets: seq<Vault.StoredSecret>,
    pendingSecrets: seq<Hint>,
    locationMode: Option<LocationMode>,
    transit: Option<string>,
    occurredAt: Option<int>)

  /** `payload.meta`: wizard bookkeeping. A missing flag reads as false. */
  datatype Meta = Meta(
    currentAttributeKey: Option<string>,
    photoAcknowledged: bool,
    legalAccepted: bool,
    locationMode: Option<LocationMode>,
    locationStage: Option<LocationStage>)

  const NoMeta := Meta(None, false, false, None, None)

  /** `createEmptyListing(flow)`: a LOST draft for the lost flow, FOUND otherwise. */
  function EmptyListing(flow: Flows.Flow): (l: Listing)
    ensures l.kind == LostListing <==> flow == Flows.Lost
    ensures l.attributes == map[] && l.photos == [] && l.category.None?
  {
    Listing(if flow == Flows.Lost then LostListing else FoundListing,
      None, "", map[], [], None, None, "", [], [], [], None, None, None)
  }

  // ---------------------------------------------------------------------------
  // Attribute questions

  /** The index of the first field, in questionnaire order, with no answer. */
  function FirstUnanswered(fields: seq<Field>, attributes: Attributes): (r: Option<nat>)
    ensures r.Some? ==> r.value < |fields| && fields[r.value].key !in attributes
                        && forall j | 0 <= j < r.value :: fields[j].key in attributes
    ensures r.None? <==> forall j | 0 <= j < |fields| :: fields[j].key in attributes
  {
    if |fields| == 0 then None
    else if fields[0].key !in attributes then Some(0)
    else match FirstUnanswered(fields[1..], attributes)
      case None => None
      case Some(i) => Some(i + 1)
  }

  /** What `prepareAttributesPayload` returns: the draft with its category
      normalised, the bookkeeping, and the field to ask next. */
  datatype Prepared = Prepared(listing: Listing, meta: Meta, field: Option<Field>)

  /** Is the key a non-empty name of an unanswered field of the questionnaire? */
  predicate PendingKey(fields: seq<Field>, attributes: Attributes, key: Option<string>) {
    key.Some? && key.value != "" && key.value !in attributes && FindField(fields, key.value).Some?
  }

  /** `prepareAttributesPayload`: keep asking the current question while it is
      unanswered; otherwise move to the first unanswered field; with none left
      (or no questionnaire) forget the current key. */
  function PrepareAttributes(listing: Listing, meta: Meta): (r: Prepared)
    ensures r.listing == listing.(category := Normalize(listing.category))
    ensures r.meta == meta.(currentAttributeKey := r.meta.currentAttributeKey)
    ensures var fields := FieldsOf(listing.category);
      (r.field.Some? ==> r.field.value in fields && r.field.value.key !in listing.attributes
                         && r.meta.currentAttributeKey == Some(r.field.value.key))
      && (r.field.None? <==> forall j | 0 <= j < |fields| :: fields[j].key in listing.attributes)
      && (r.field.None? ==> r.meta.currentAttributeKey.None?)
    ensures var fields := FieldsOf(listing.category);
      PendingKey(fields, listing.attributes, meta.currentAttributeKey) ==>
        r.field == FindField(fields, meta.currentAttributeKey.value)
    ensures var fields := FieldsOf(listing.category);
      !PendingKey(fields, listing.attributes, meta.currentAttributeKey) && r.field.Some? ==>
        r.field.value == fields[FirstUnanswered(fields, listing.attributes).value]
  {
    NormalizeIdempotent(listing.category);
    var category := Normalize(listing.category);
    var next := listing.(category := category);
    var fields := FieldsOf(category);
    if |fields| == 0 then
      Prepared(next, meta.(currentAttributeKey := None), None)
    else if PendingKey(fields, listing.attributes, meta.currentAttributeKey) then
      Prepared(next, meta, FindField(fields, meta.currentAttributeKey.value))
    else match FirstUnanswered(fields, listing.attributes)
      case None => Prepared(next, meta.(currentAttributeKey := None), None)
      case Some(i) => Prepared(next, meta.(currentAttributeKey := Some(fields[i].key)), Some(fields[i]))
  }

  /** How many fields of the questionnaire still have no answer. */
  function Unanswered(fields: seq<Field>, attributes: Attributes): (n: nat)
    ensures n <= |fields|
  {
    if |fields| == 0 then 0
    else (if fields[0].key in attributes then 0 else 1) + Unanswered(fields[1..], attributes)
  }

  /** Nothing is left to ask exactly when no field is unanswered. */
  lemma {:induction false} UnansweredZero(fields: seq<Field>, attributes: Attributes)
    ensures Unanswered(fields, attributes) == 0 <==> FirstUnanswered(fields, attributes).None?
  {
    if |fields| > 0 {
      UnansweredZero(fields[1..], attributes);
    }
  }

  /** Recording an answer never adds an unanswered field, and answering an
      unanswered field of the questionnaire removes exactly one. */
  lemma {:induction false} AnswerShrinksUnanswered(fields: seq<Field>, attributes: Attributes, key: string, v: Option<string>)
    requires DistinctKeys(fields)
    ensures Unanswered(fields, attributes[key := v]) <= Unanswered(fields, attributes)
    ensures key !in attributes && (exists j | 0 <= j < |fields| :: fields[j].key == key) ==>
      Unanswered(fields, attributes[key := v]) == Unanswered(fields, attributes) - 1
  {
    if |fields| > 0 {
      assert DistinctKeys(fields[1..]);
      AnswerShrinksUnanswered(fields[1..], attributes, key, v);
      if key !in attributes && fields[0].key != key && (exists j | 0 <= j < |fields| :: fields[j].key == key) {
        var j :| 0 <= j < |fields| && fields[j].key == key;
        assert fields[1..][j - 1].key == key;
      }
      if fields[0].key == key {
        NotInRest(fields, attributes, key, v);
      }
    }
  }

  lemma NotInRest(fields: seq<Field>, attributes: Attributes, key: string, v: Option<string>)
    requires |fields| > 0 && DistinctKeys(fields) && fields[0].key == key
    ensures Unanswered(fields[1..], attributes[key := v]) == Unanswered(fields[1..], attributes)
  {
    SameAnswers(fields[1..], attributes, attributes[key := v]);
  }

  lemma {:induction false} SameAnswers(fields: seq<Field>, a: Attributes, b: Attributes)
    requires forall j | 0 <= j < |fields| :: (fields[j].key in a <==> fields[j].key in b)
    ensures Unanswered(fields, a) == Unanswered(fields, b)
  {
    if |fields| > 0 {
      SameAnswers(fields[1..], a, b);
    }
  }

  /** The hints without the ones filed under `key`, in order. */
  function DropKey(hints: seq<Hint>, key: string): (r: seq<Hint>)
    ensures |r| <= |hints|
    ensures forall h | h in r :: h in hints && h.key != key
    ensures forall h | h in hints && h.key != key :: h in r
  {
    if |hints| == 0 then []
    else (if hints[0].key != key then [hints[0]] else []) + DropKey(hints[1..], key)
  }

  /** The hint list stays short (at most three) with one hint per key. */
  predicate HintsOk(hints: seq<Hint>) {
    |hints| <= 3 && OneHintPerKey(hints)
  }

  predicate OneHintPerKey(hints: seq<Hint>) {
    forall i, j | 0 <= i < j < |hints| :: hints[i].key != hints[j].key
  }

  lemma {:induction false} DropKeyKeepsDistinct(hints: seq<Hint>, key: string)
    requires OneHintPerKey(hints)
    ensures OneHintPerKey(DropKey(hints, key))
  {
    if |hints| > 0 {
      assert OneHintPerKey(hints[1..]);
      DropKeyKeepsDistinct(hints[1..], key);
      var rest := DropKey(hints[1..], key);
      if hints[0].key != key {
        FirstKeyUnique(hints);
        ConsOneHint(hints[0], rest);
        assert DropKey(hints, key) == [hints[0]] + rest;
      } else {
        assert DropKey(hints, key) == rest;
      }
    }
  }

  lemma FirstKeyUnique(hints: seq<Hint>)
    requires |hints| > 0 && OneHintPerKey(hints)
    ensures forall h | h in hints[1..] :: h.key != hints[0].key
  {
    forall h | h in hints[1..] ensures h.key != hints[0].key {
      var m :| 0 <= m < |hints| - 1 && hints[1..][m] == h;
      assert hints[m + 1] == h;
    }
  }

  lemma ConsOneHint(x: Hint, rest: seq<Hint>)
    requires OneHintPerKey(rest) && forall h | h in rest :: h.key != x.key
    ensures OneHintPerKey([x] + rest)
  {
    var r := [x] + rest;
    forall i, j | 0 <= i < j < |r| ensures r[i].key != r[j].key {
      assert r[j] == rest[j - 1] && rest[j - 1] in rest;
      if i > 0 {
        assert r[i] == rest[i - 1];
      }
    }
  }

  /** The result of an answer to an attribute question. */
  datatype AttributeOutcome = TooShort | NoText | Stored(listing: Listing, meta: Meta)

  /** The attribute step's message handler once the current field is known: `/skip`
      stores `null` (even for a required field); otherwise a required field needs
      two characters and any field needs some text. A field marked as a secret
      hint also refreshes its hint, kept only while fewer than three others are
      held. The current key is then forgotten. */
  function AnswerAttribute(listing: Listing, meta: Meta, field: Field, text: string, lower: string): (r: AttributeOutcome)
    ensures r.Stored? <==> lower == "/skip" || (text != "" && (!field.required || Vault.Utf16Length(text) >= 2))
    ensures r.Stored? ==>
      r.listing.attributes == listing.attributes[field.key := if lower == "/skip" then None else Some(text)]
      && r.listing == listing.(attributes := r.listing.attributes, pendingSecrets := r.listing.pendingSecrets)
      && r.meta == meta.(currentAttributeKey := None)
    ensures r.Stored? && !field.secretHint ==> r.listing.pendingSecrets == listing.pendingSecrets
    ensures r.Stored? && field.secretHint ==>
      (forall h | h in r.listing.pendingSecrets && h.key != field.key :: h in listing.pendingSecrets)
      && (forall h | h in listing.pendingSecrets && h.key != field.key :: h in r.listing.pendingSecrets)
      && (Hint(field.key, text) in r.listing.pendingSecrets <==>
            lower != "/skip" && |DropKey(listing.pendingSecrets, field.key)| < 3)
    ensures r.Stored? && HintsOk(listing.pendingSecrets) ==> HintsOk(r.listing.pendingSecrets)
  {
    var skip := lower == "/skip";
    if !skip && field.required && Vault.Utf16Length(text) < 2 then TooShort
    else if !skip && text == "" then NoText
    else
      var value := if skip then None else Some(text);
      var hints := if field.secretHint then
          var kept := DropKey(listing.pendingSecrets, field.key);
          if !skip && |kept| < 3 then kept + [Hint(field.key, text)] else kept
        else listing.pendingSecrets;
      HintsStayOk(listing.pendingSecrets, field, skip, text);
      Stored(listing.(attributes := listing.attributes[field.key := value], pendingSecrets := hints),
             meta.(currentAttributeKey := None))
  }

  lemma HintsStayOk(hints: seq<Hint>, field: Field, skip: bool, text: string)
    ensures var kept := DropKey(hints, field.key);
      HintsOk(hints) ==> HintsOk(if !skip && |kept| < 3 then kept + [Hint(field.key, text)] else kept)
  {
    if HintsOk(hints) {
      DropKeyKeepsDistinct(hints, field.key);
      var kept := DropKey(hints, field.key);
      var next := kept + [Hint(field.key, text)];
      forall i, j | 0 <= i < j < |next| ensures next[i].key != next[j].key {
        if j == |kept| {
          assert next[i] == kept[i] && kept[i] in kept && next[j] == Hint(field.key, text);
          assert kept[i].key != field.key;
        } else {
          assert next[i] == kept[i] && next[j] == kept[j];
          assert kept[i].key != kept[j].key;
        }
      }
      assert OneHintPerKey(next);
    }
  }

  /** Each stored answer to the question the step asked leaves one question fewer
      to ask, so the attribute step always comes to an end. */
  lemma AnswerAdvances(listing: Listing, meta: Meta, text: string, lower: string)
    requires PrepareAttributes(listing, meta).field.Some?
    requires var p := PrepareAttributes(listing, meta);
      AnswerAttribute(p.listing, p.meta, p.field.value, text, lower).Stored?
    ensures var p := PrepareAttributes(listing, meta);
      var next := AnswerAttribute(p.listing, p.meta, p.field.value, text, lower).listing;
      var fields := FieldsOf(listing.category);
      Unanswered(fields, next.attributes) == Unanswered(fields, listing.attributes) - 1
      && FieldsOf(next.category) == fields
  {
    NormalizeIdempotent(listing.category);
    var p := PrepareAttributes(listing, meta);
    var fields := FieldsOf(listing.category);
    var f := p.field.value;
    var j :| 0 <= j < |fields| && fields[j] == f;
    var v := if lower == "/skip" then None else Some(text);
    AnswerShrinksUnanswered(fields, listing.attributes, f.key, v);
  }

  // ---------------------------------------------------------------------------
  // Photos

  const PhotoLimit: nat := 3

  predicate DistinctIds(photos: seq<Photo>) {
    forall i, j | 0 <= i < j < |photos| :: photos[i].id != photos[j].id
  }

  predicate HasId(photos: seq<Photo>, id: string) {
    exists i | 0 <= i < |photos| :: photos[i].id == id
  }

  /** `appendPhotoAttachments(listing, attachments, limit)`: each attachment in
      turn is skipped once the limit is reached or when its id is already present,
      and appended otherwise. Returns the photos and the added and skipped counts. */
  function AppendPhotos(photos: seq<Photo>, attachments: seq<Photo>, limit: nat): (r: (seq<Photo>, nat, nat))
    ensures |r.0| == |photos| + r.1 && r.0[..|photos|] == photos
    ensures r.1 + r.2 == |attachments|
    ensures |photos| <= limit ==> |r.0| <= limit
    ensures DistinctIds(photos) ==> DistinctIds(r.0)
    ensures forall i | |photos| <= i < |r.0| :: r.0[i] in attachments
    decreases |attachments|
  {
    if |attachments| == 0 then (photos, 0, 0)
    else
      var a := attachments[0];
      var take := |photos| < limit && !HasId(photos, a.id);
      var next := if take then photos + [a] else photos;
      var rest := AppendPhotos(next, attachments[1..], limit);
      assert rest.0[..|photos|] == next[..|photos|] == photos;
      if take then
        assert rest.0[|photos|] == next[|photos|] == a;
        AppendDistinct(photos, a);
        AddedFromAttachments(photos, rest.0, attachments);
        (rest.0, rest.1 + 1, rest.2)
      else
        AddedFromAttachments(photos, rest.0, attachments);
        (rest.0, rest.1, rest.2 + 1)
  }

  /** A photo with a new id keeps the ids distinct. */
  lemma AppendDistinct(photos: seq<Photo>, a: Photo)
    requires !HasId(photos, a.id)
    ensures DistinctIds(photos) ==> DistinctIds(photos + [a])
  {
    var r := photos + [a];
    if DistinctIds(photos) {
      forall i, j | 0 <= i < j < |r| ensures r[i].id != r[j].id {
        assert r[i] == photos[i];
      }
    }
  }

  /** The photos after the first attachment's turn, with the first attachment if it
      was taken, extend the original photos by attachments. */
  lemma AddedFromAttachments(photos: seq<Photo>, r: seq<Photo>, attachments: seq<Photo>)
    requires |attachments| > 0
    requires |photos| <= |r| && r[..|photos|] == photos
    requires forall i | |photos| <= i < |r| :: r[i] in attachments[1..] || (i == |photos| && r[i] == attachments[0])
    ensures forall i | |photos| <= i < |r| :: r[i] in attachments
  {
    forall i | |photos| <= i < |r| ensures r[i] in attachments {
      if r[i] in attachments[1..] {
        var k :| 0 <= k < |attachments| - 1 && attachments[1..][k] == r[i];
        assert attachments[k + 1] == r[i];
      }
    }
  }

  /** An attachment whose id the draft already has is never added again. */
  lemma {:induction false} AppendPhotosSkipsKnownIds(photos: seq<Photo>, attachments: seq<Photo>, limit: nat, i: nat)
    requires |photos| <= i < |AppendPhotos(photos, attachments, limit).0|
    ensures !HasId(photos, AppendPhotos(photos, attachments, limit).0[i].id)
    decreases |attachments|
  {
    var a := attachments[0];
    var take := |photos| < limit && !HasId(photos, a.id);
    var next := if take then photos + [a] else photos;
    var r := AppendPhotos(photos, attachments, limit).0;
    if take && i == |photos| {
      assert r[i] == a;
    } else {
      AppendPhotosSkipsKnownIds(next, attachments[1..], limit, i);
      assert !HasId(next, r[i].id);
      forall j | 0 <= j < |photos| ensures photos[j].id != r[i].id {
        assert next[j] == photos[j];
      }
    }
  }

  /** The risky categories of the photo step. They are the server's legacy ids
      `phone` and `wallet` next to the canonical `document` and `keys`. */
  const RiskyCategories: set<string> := {"phone", "wallet", "document", "keys"}

  /** Does entering the photo step ask a finder to acknowledge the photo rules? */
  predicate AckOnEnter(found: bool, category: Option<string>) {
    found && category.Some? && (category.value in RiskyCategories || category.value == "bag")
  }

  /** Does the acknowledgement button have an effect? */
  predicate AckOnCallback(found: bool, category: Option<string>) {
    found || (category.Some? && category.value in RiskyCategories)
  }

  /** The category step stores only canonical ids, so of the risky names only
      `document` and `keys` can ever trigger the acknowledgement; phones, wallets
      and bags (stored as `electronics`, `valuable` and `wear`) never do. */
  lemma OnlyDocumentsAndKeysNeedAck(category: string)
    requires IsCanonical(category)
    ensures AckOnEnter(true, Some(category)) <==> category in {"document", "keys"}
    ensures !AckOnEnter(false, Some(category))
  {
  }

  // ---------------------------------------------------------------------------
  // Secrets

  const QuestionLimit: nat := 160
  const AnswerLimit: nat := 200

  /** The delimiters `splitSecretLine` tries, in this order. */
  const Delimiters: seq<string> := ["::", "—", "-", ":", "?"]

  /** Split at the first occurrence of the first delimiter (in list order) that
      occurs at all; both sides trimmed. */
  function SplitWith(line: string, delimiters: seq<string>): (r: (string, string))
    ensures NoEdgeSpace(r.0) && NoEdgeSpace(r.1)
    ensures (forall k | 0 <= k < |delimiters| :: IndexOf(line, delimiters[k]).None?) ==> r == ("", Trim(line))
  {
    if |delimiters| == 0 then ("", Trim(line))
    else match IndexOf(line, delimiters[0])
      case Some(i) => Halves(line, i, |delimiters[0]|)
      case None => SplitWith(line, delimiters[1..])
  }

  /** The trimmed text before position `i` and after the `width` characters there. */
  function Halves(line: string, i: nat, width: nat): (r: (string, string))
    requires i + width <= |line|
    ensures NoEdgeSpace(r.0) && NoEdgeSpace(r.1)
  {
    (Trim(line[..i]), Trim(line[i + width..]))
  }

  /** `splitSecretLine(line)`: question and answer. */
  function SplitSecretLine(line: string): (r: (string, string)) {
    SplitWith(line, Delimiters)
  }

  /** A line written in the documented `question :: answer` form splits back into
      its question and answer, provided the question holds no `:`. */
  lemma SplitSecretLineFormat(q: string, a: string)
    requires NoEdgeSpace(q) && NoEdgeSpace(a) && ':' !in q
    ensures SplitSecretLine(q + " :: " + a) == (q, a)
  {
    var line := q + " :: " + a;
    var n := |q|;
    FirstDoubleColon(q, a);
    assert Delimiters[0] == "::";
    SplitAtFirst(line, Delimiters, n + 1);
    FormatSlices(q, a);
    TrimSides(q, a);
  }

  lemma FormatSlices(q: string, a: string)
    ensures (q + " :: " + a)[..|q| + 1] == q + " "
    ensures (q + " :: " + a)[|q| + 3..] == " " + a
  {
  }

  /** A line holding the first delimiter is split at its first occurrence. */
  lemma SplitAtFirst(line: string, delimiters: seq<string>, i: nat)
    requires |delimiters| > 0 && IndexOf(line, delimiters[0]) == Some(i)
    ensures SplitWith(line, delimiters) == Halves(line, i, |delimiters[0]|)
  {
  }

  lemma FirstDoubleColon(q: string, a: string)
    requires ':' !in q
    ensures IndexOf(q + " :: " + a, "::") == Some(|q| + 1)
  {
    var line := q + " :: " + a;
    var n := |q|;
    assert OccursAt(line, "::", n + 1) by {
      assert line[n + 1..n + 3] == "::";
    }
    forall j | 0 <= j < n + 1 ensures !OccursAt(line, "::", j) {
      assert line[j] == if j < n then q[j] else ' ';
      assert line[j..j + 2][0] == line[j];
    }
    IndexOfIs(line, "::", n + 1);
  }

  lemma TrimSides(q: string, a: string)
    requires NoEdgeSpace(q) && NoEdgeSpace(a)
    ensures Trim(q + " ") == q && Trim(" " + a) == a
  {
    assert AllSpace(" ") by { assert " "[0] == ' '; }
    TrimOfPadded("", q, " ");
    assert "" + q + " " == q + " ";
    TrimOfPadded(" ", a, "");
    assert " " + a + "" == " " + a;
  }

  /** A pattern whose first character never occurs in the line does not occur. */
  lemma AbsentLead(line: string, pat: string)
    requires pat != "" && forall i | 0 <= i < |line| :: line[i] != pat[0]
    ensures IndexOf(line, pat).None?
  {
    forall j ensures !OccursAt(line, pat, j) {
      if 0 <= j && j + |pat| <= |line| {
        assert line[j..j + |pat|][0] == line[j];
      }
    }
  }

  /** A line with no delimiter character at all is the answer alone. */
  lemma SplitSecretLinePlain(line: string)
    requires forall i | 0 <= i < |line| :: line[i] != ':' && line[i] != '—' && line[i] != '-' && line[i] != '?'
    ensures SplitSecretLine(line) == ("", Trim(line))
  {
    AbsentLead(line, "::");
    AbsentLead(line, "—");
    AbsentLead(line, "-");
    AbsentLead(line, ":");
    AbsentLead(line, "?");
    assert SplitWith(line, Delimiters[4..]) == ("", Trim(line)) by {
      assert Delimiters[4..][0] == "?" && Delimiters[4..][1..] == [];
    }
    assert Delimiters[3..][1..] == Delimiters[4..];
    assert Delimiters[2..][1..] == Delimiters[3..];
    assert Delimiters[1..][1..] == Delimiters[2..];
  }

  datatype SecretError = NoSecrets | NeedQuestion | NeedAnswer | EmptySecret | QuestionTooLong | AnswerTooLong

  /** The non-empty trimmed lines of the text (`split(/\r?\n/)`, trim, drop the
      empty ones; a `\r` before a line break is removed by the trim). */
  function SecretLines(text: string): (r: seq<string>)
    ensures forall l | l in r :: l != "" && NoEdgeSpace(l)
  {
    NonEmptyTrimmed(Split(text, '\n'))
  }

  function NonEmptyTrimmed(lines: seq<string>): (r: seq<string>)
    ensures forall l | l in r :: l != "" && NoEdgeSpace(l)
    ensures |r| <= |lines|
  {
    if |lines| == 0 then []
    else (if Trim(lines[0]) != "" then [Trim(lines[0])] else []) + NonEmptyTrimmed(lines[1..])
  }

  /** One line of `parseSecretEntries`; `count` is the number of entries already
      read. A finder must give both halves; for a lost item a question without an
      answer becomes the answer of a numbered secret. */
  function EntryOf(found: bool, line: string, count: nat): (r: Result<Vault.Entry, SecretError>)
    ensures r.Success? ==> (r.value.answer != ""
      && Vault.Utf16Length(r.value.question) <= QuestionLimit && Vault.Utf16Length(r.value.answer) <= AnswerLimit)
    ensures r.Success? && found ==> r.value == Vault.Entry(SplitSecretLine(line).0, SplitSecretLine(line).1)
  {
    var (q0, a0) := SplitSecretLine(line);
    if found && q0 == "" then Failure(NeedQuestion)
    else if found && a0 == "" then Failure(NeedAnswer)
    else
      var (q, a) := if !found && a0 == "" && q0 != "" then ("Секрет " + NatToText(count + 1), q0) else (q0, a0);
      if a == "" then Failure(EmptySecret)
      else if q != "" && Vault.Utf16Length(q) > QuestionLimit then Failure(QuestionTooLong)
      else if Vault.Utf16Length(a) > AnswerLimit then Failure(AnswerTooLong)
      else Success(Vault.Entry(q, a))
  }

  /** Each entry is what its line reads as, counting from `start`. */
  predicate ReadAs(found: bool, lines: seq<string>, start: nat, entries: seq<Vault.Entry>) {
    |entries| == |lines| && forall i | 0 <= i < |lines| :: EntryOf(found, lines[i], start + i) == Success(entries[i])
  }

  /** The lines in turn, the `start`-th entry first; the first error wins. */
  function EntriesOf(found: bool, lines: seq<string>, start: nat): (r: Result<seq<Vault.Entry>, SecretError>)
    ensures r.Success? ==> ReadAs(found, lines, start, r.value)
    decreases |lines|
  {
    if |lines| == 0 then Success([])
    else
      var first := EntryOf(found, lines[0], start);
      if first.Failure? then Failure(first.error)
      else
        var rest := EntriesOf(found, lines[1..], start + 1);
        if rest.Failure? then rest
        else
          ReadAsCons(found, lines, start, first.value, rest.value);
          Success([first.value] + rest.value)
  }

  lemma ReadAsCons(found: bool, lines: seq<string>, start: nat, e: Vault.Entry, rest: seq<Vault.Entry>)
    requires |lines| > 0 && EntryOf(found, lines[0], start) == Success(e)
    requires ReadAs(found, lines[1..], start + 1, rest)
    ensures ReadAs(found, lines, start, [e] + rest)
  {
    var r := [e] + rest;
    forall i | 0 <= i < |lines| ensures EntryOf(found, lines[i], start + i) == Success(r[i]) {
      if i > 0 {
        assert lines[i] == lines[1..][i - 1] && r[i] == rest[i - 1];
        assert start + i == start + 1 + (i - 1);
      }
    }
  }

  /** `parseSecretEntries(flow, text)`: the first three non-empty lines as
      entries, or the first error met; no line at all is an error too. */
  function ParseSecretEntries(found: bool, text: string): (r: Result<seq<Vault.Entry>, SecretError>)
    ensures SecretLines(text) == [] ==> r == Failure(NoSecrets)
    ensures r.Success? ==> (1 <= |r.value| <= 3
      && |r.value| == (if |SecretLines(text)| < 3 then |SecretLines(text)| else 3))
    ensures r.Success? ==> forall e | e in r.value :: (e.answer != ""
      && Vault.Utf16Length(e.question) <= QuestionLimit && Vault.Utf16Length(e.answer) <= AnswerLimit)
    ensures r.Success? && found ==> forall e | e in r.value :: e.question != ""
    ensures r.Success? && found ==> forall e | e in r.value :: NoEdgeSpace(e.question) && NoEdgeSpace(e.answer)
  {
    var lines := SecretLines(text);
    if |lines| == 0 then Failure(NoSecrets)
    else
      var first := if |lines| < 3 then lines else lines[..3];
      var r := EntriesOf(found, first, 0);
      EntriesFacts(found, first, r);
      r
  }

  lemma EntriesFacts(found: bool, lines: seq<string>, r: Result<seq<Vault.Entry>, SecretError>)
    requires r == EntriesOf(found, lines, 0)
    ensures r.Success? ==> forall e | e in r.value :: (e.answer != ""
      && Vault.Utf16Length(e.question) <= QuestionLimit && Vault.Utf16Length(e.answer) <= AnswerLimit
      && (found ==> e.question != "" && NoEdgeSpace(e.question) && NoEdgeSpace(e.answer)))
  {
    if r.Success? {
      forall e | e in r.value ensures e.answer != "" && Vault.Utf16Length(e.question) <= QuestionLimit
        && Vault.Utf16Length(e.answer) <= AnswerLimit
        && (found ==> e.question != "" && NoEdgeSpace(e.question) && NoEdgeSpace(e.answer)) {
        var i :| 0 <= i < |r.value| && r.value[i] == e;
        assert EntryOf(found, lines[i], i) == Success(e);
      }
    }
  }

  /** JavaScript counts at most two code units per character. */
  lemma {:induction false} Utf16AtMostTwice(s: string)
    ensures Vault.Utf16Length(s) <= 2 * |s|
    decreases |s|
  {
    if |s| > 0 {
      Utf16AtMostTwice(s[1..]);
    }
  }

  /** A text of one trimmed, non-empty line is that single line. */
  lemma OneLine(line: string)
    requires line != "" && NoEdgeSpace(line) && '\n' !in line
    ensures SecretLines(line) == [line]
  {
    SplitJoin([line], '\n');
    assert Split(line, '\n') == [line];
    TrimOfTrimmed(line);
    assert NonEmptyTrimmed([line]) == [line] + NonEmptyTrimmed([line][1..]);
  }

  /** A text of one line reads as that line's entry. */
  lemma ParseOneLine(found: bool, line: string, e: Vault.Entry)
    requires line != "" && NoEdgeSpace(line) && '\n' !in line
    requires EntryOf(found, line, 0) == Success(e)
    ensures ParseSecretEntries(found, line) == Success([e])
  {
    OneLine(line);
    SingleEntry(found, line, e, 0);
  }

  lemma SingleEntry(found: bool, line: string, e: Vault.Entry, n: nat)
    requires EntryOf(found, line, n) == Success(e)
    ensures EntriesOf(found, [line], n) == Success([e])
  {
    var lines := [line];
    assert lines[1..] == [];
    assert EntriesOf(found, lines[1..], n + 1) == Success([]);
    var r := EntriesOf(found, lines, n);
    assert r.Success?;
    assert ReadAs(found, lines, n, r.value);
    assert EntryOf(found, lines[0], n + 0) == Success(r.value[0]);
    assert r.value == [e];
  }

  /** A single `question :: answer` line reads as that one secret, for both flows. */
  lemma SecretLineRoundTrip(found: bool, q: string, a: string)
    requires q != "" && a != "" && NoEdgeSpace(q) && NoEdgeSpace(a)
    requires ':' !in q && '\n' !in q && '\n' !in a
    requires Vault.Utf16Length(q) <= QuestionLimit && Vault.Utf16Length(a) <= AnswerLimit
    ensures ParseSecretEntries(found, q + " :: " + a) == Success([Vault.Entry(q, a)])
  {
    var line := q + " :: " + a;
    assert line[0] == q[0] && line[|line| - 1] == a[|a| - 1];
    assert '\n' !in line by {
      forall i | 0 <= i < |line| ensures line[i] != '\n' {
        if i < |q| { assert line[i] == q[i]; }
        else if i >= |q| + 4 { assert line[i] == a[i - |q| - 4]; }
      }
    }
    SplitSecretLineFormat(q, a);
    EntryOfPair(found, line, 0, q, a);
    ParseOneLine(found, line, Vault.Entry(q, a));
  }

  /** A line whose split has both halves reads as that entry, for both flows. */
  lemma EntryOfPair(found: bool, line: string, n: nat, q: string, a: string)
    requires SplitSecretLine(line) == (q, a) && q != "" && a != ""
    requires Vault.Utf16Length(q) <= QuestionLimit && Vault.Utf16Length(a) <= AnswerLimit
    ensures EntryOf(found, line, n) == Success(Vault.Entry(q, a))
  {
  }

  lemma SplitBareQuestion(q: string)
    requires NoEdgeSpace(q)
    requires forall i | 0 <= i < |q| :: q[i] != ':' && q[i] != '—' && q[i] != '-' && q[i] != '?'
    ensures SplitSecretLine(q + "?") == (q, "")
  {
    var line := q + "?";
    forall i | 0 <= i < |line| ensures line[i] != ':' && line[i] != '—' && line[i] != '-' {
      if i < |q| { assert line[i] == q[i]; }
    }
    AbsentLead(line, "::");
    AbsentLead(line, "—");
    AbsentLead(line, "-");
    AbsentLead(line, ":");
    assert OccursAt(line, "?", |q|) by { assert line[|q|..|q| + 1] == "?"; }
    forall j | 0 <= j < |q| ensures !OccursAt(line, "?", j) {
      assert line[j] == q[j];
      assert line[j..j + 1][0] == line[j];
    }
    assert IndexOf(line, "?") == Some(|q|);
    assert line[..|q|] == q;
    SplitAtLastDelimiter(line, q);
  }

  lemma SplitAtLastDelimiter(line: string, q: string)
    requires IndexOf(line, "::").None? && IndexOf(line, "—").None? && IndexOf(line, "-").None? && IndexOf(line, ":").None?
    requires IndexOf(line, "?") == Some(|q|) && |line| == |q| + 1 && line[..|q|] == q
    requires NoEdgeSpace(q)
    ensures SplitSecretLine(line) == (q, "")
  {
    var d := Delimiters;
    assert d[4..] == ["?"] && d[4..][1..] == [];
    assert SplitWith(line, d[4..]) == (Trim(line[..|q|]), Trim(line[|q| + 1..]));
    assert line[|q| + 1..] == "";
    TrimOfTrimmed(q);
    assert SplitWith(line, d[4..]) == (q, "");
    assert d[3..][0] == ":" && d[3..][1..] == d[4..];
    assert SplitWith(line, d[3..]) == (q, "");
    assert d[2..][0] == "-" && d[2..][1..] == d[3..];
    assert SplitWith(line, d[2..]) == (q, "");
    assert d[1..][0] == "—" && d[1..][1..] == d[2..];
    assert SplitWith(line, d[1..]) == (q, "");
  }

  /** For a lost item a question without an answer becomes the answer of the
      numbered secret; a finder is asked for the answer instead. */
  lemma QuestionOnlyEntry(line: string, n: nat, q: string)
    requires SplitSecretLine(line) == (q, "") && q != ""
    requires Vault.Utf16Length(q) <= AnswerLimit
    requires Vault.Utf16Length("Секрет " + NatToText(n + 1)) <= QuestionLimit
    ensures EntryOf(false, line, n) == Success(Vault.Entry("Секрет " + NatToText(n + 1), q))
    ensures EntryOf(true, line, n) == Failure(NeedAnswer)
    ensures EntriesOf(true, [line], n) == Failure(NeedAnswer)
  {
  }

  lemma FirstSecretName(n: nat)
    requires n == 0
    ensures "Секрет " + NatToText(n + 1) == "Секрет 1"
    ensures Vault.Utf16Length("Секрет " + NatToText(n + 1)) <= QuestionLimit
  {
    assert NatToText(1) == "1";
    Utf16AtMostTwice("Секрет 1");
  }

  lemma FirstQuestionOnlyEntry(line: string, n: nat, q: string)
    requires n == 0 && SplitSecretLine(line) == (q, "") && q != ""
    requires Vault.Utf16Length(q) <= AnswerLimit
    ensures EntryOf(false, line, n) == Success(Vault.Entry("Секрет 1", q))
    ensures EntriesOf(true, [line], n) == Failure(NeedAnswer)
  {
    FirstSecretName(n);
    QuestionOnlyEntry(line, n, q);
  }

  /** A text of one line whose entry fails fails the same way. */
  lemma ParseOneLineFails(found: bool, line: string, e: SecretError)
    requires line != "" && NoEdgeSpace(line) && '\n' !in line
    requires EntriesOf(found, [line], 0) == Failure(e)
    ensures ParseSecretEntries(found, line) == Failure(e)
  {
    OneLine(line);
  }

  lemma LostQuestionLine(line: string, q: string)
    requires line != "" && NoEdgeSpace(line) && '\n' !in line
    requires SplitSecretLine(line) == (q, "") && q != "" && Vault.Utf16Length(q) <= AnswerLimit
    ensures ParseSecretEntries(false, line) == Success([Vault.Entry("Секрет 1", q)])
  {
    FirstQuestionOnlyEntry(line, 0, q);
    ParseOneLine(false, line, Vault.Entry("Секрет 1", q));
  }

  lemma FoundQuestionLine(line: string, q: string)
    requires line != "" && NoEdgeSpace(line) && '\n' !in line
    requires SplitSecretLine(line) == (q, "") && q != "" && Vault.Utf16Length(q) <= AnswerLimit
    ensures ParseSecretEntries(true, line) == Failure(NeedAnswer)
  {
    FirstQuestionOnlyEntry(line, 0, q);
    ParseOneLineFails(true, line, NeedAnswer);
  }

  /** For a lost item a bare `question?` line (no delimiter inside) is a
      numbered secret whose answer is the question text; a finder's answer is
      required instead. */
  lemma LostBareQuestion(q: string)
    requires q != "" && NoEdgeSpace(q) && Vault.Utf16Length(q) <= AnswerLimit
    requires forall i | 0 <= i < |q| :: q[i] != ':' && q[i] != '—' && q[i] != '-' && q[i] != '?' && q[i] != '\n'
    ensures ParseSecretEntries(false, q + "?") == Success([Vault.Entry("Секрет 1", q)])
    ensures ParseSecretEntries(true, q + "?") == Failure(NeedAnswer)
  {
    BareQuestionLine(q);
    SplitBareQuestion(q);
    LostQuestionLine(q + "?", q);
    FoundQuestionLine(q + "?", q);
  }

  lemma BareQuestionLine(q: string)
    requires q != "" && NoEdgeSpace(q)
    requires forall i | 0 <= i < |q| :: q[i] != '\n'
    ensures NoEdgeSpace(q + "?") && '\n' !in q + "?"
  {
    var line := q + "?";
    assert line[0] == q[0] && line[|line| - 1] == '?';
    assert '\n' !in line by {
      forall i | 0 <= i < |line| ensures line[i] != '\n' {
        if i < |q| { assert line[i] == q[i]; }
      }
    }
  }

  // ---------------------------------------------------------------------------
  // Publishing

  /** The storage id of a photo: its URL, or a marker built from the messenger's
      token, or nothing (`extractPhotoUrl`). */
  function PhotoUrl(photo: Photo): (r: Option<string>)
    ensures r.Some? ==> r.value != ""
    ensures photo.url.Some? && photo.url.value != "" ==> r == photo.url
  {
    if photo.url.Some? && photo.url.value != "" then photo.url
    else if photo.token.Some? && photo.token.value != "" then Some("max-photo-token:" + photo.token.value)
    else None
  }

  /** The storage ids of the photos that have one, in order. */
  function PhotoUrls(photos: seq<Photo>): (r: seq<string>)
    ensures |r| <= |photos|
    ensures forall u | u in r :: exists p | p in photos :: PhotoUrl(p) == Some(u)
    ensures (forall i | 0 <= i < |photos| :: PhotoUrl(photos[i]).Some?) ==>
      |r| == |photos| && forall i | 0 <= i < |photos| :: Some(r[i]) == PhotoUrl(photos[i])
  {
    if |photos| == 0 then []
    else
      var rest := PhotoUrls(photos[1..]);
      assert forall u | u in rest :: exists p | p in photos :: PhotoUrl(p) == Some(u) by {
        forall u | u in rest ensures exists p | p in photos :: PhotoUrl(p) == Some(u) {
          var p :| p in photos[1..] && PhotoUrl(p) == Some(u);
          assert p in photos;
        }
      }
      match PhotoUrl(photos[0])
      case Some(u) => [u] + rest
      case None => rest
  }

  /** The index of the first field whose answer has text after trimming. */
  function FirstFilled(fields: seq<Field>, attributes: Attributes): (r: Option<nat>)
    ensures r.Some? ==> r.value < |fields| && Filled(attributes, fields[r.value].key)
                        && forall j | 0 <= j < r.value :: !Filled(attributes, fields[j].key)
    ensures r.None? ==> forall j | 0 <= j < |fields| :: !Filled(attributes, fields[j].key)
  {
    if |fields| == 0 then None
    else if Filled(attributes, fields[0].key) then Some(0)
    else
      var rest := FirstFilled(fields[1..], attributes);
      assert forall j | 1 <= j < |fields| :: fields[j] == fields[1..][j - 1];
      match rest
      case None => None
      case Some(i) => Some(i + 1)
  }

  /** The first field whose answer has text is the one before which no answer has
      text. */
  lemma FirstFilledAt(fields: seq<Field>, attributes: Attributes, i: nat)
    requires i < |fields| && Filled(attributes, fields[i].key)
    requires forall j | 0 <= j < i :: !Filled(attributes, fields[j].key)
    ensures FirstFilled(fields, attributes) == Some(i)
  {
  }

  /** The subject of a published title: the first answer with text, or the
      category's caption. */
  function Subject(fields: seq<Field>, attributes: Attributes, category: string): string {
    match FirstFilled(fields, attributes)
    case Some(i) => Trim(attributes[fields[i].key].value)
    case None => CategoryTitle(category)
  }

  predicate Filled(attributes: Attributes, key: string) {
    key in attributes && attributes[key].Some? && Trim(attributes[key].value) != ""
  }

  /** `categoryTitle`: the picker caption, or the id itself for an unknown category. */
  function CategoryTitle(category: string): (r: string)
    ensures OptionOf(Some(category)).Some? ==> r == OptionOf(Some(category)).value.caption
    ensures OptionOf(Some(category)).None? ==> r == category
  {
    match OptionOf(Some(category))
    case Some(o) => o.caption
    case None => category
  }

  /** `buildAttributeLines`: one `caption: answer` line per answered field, in
      questionnaire order; a skipped or blank answer shows as `(пропущено)`. */
  function AttributeLines(fields: seq<Field>, attributes: Attributes): (r: seq<string>)
    ensures |r| <= |fields|
    ensures |r| == 0 <==> forall j | 0 <= j < |fields| :: fields[j].key !in attributes
  {
    if |fields| == 0 then []
    else
      var f := fields[0];
      var rest := AttributeLines(fields[1..], attributes);
      if f.key in attributes then
        var shown := if Filled(attributes, f.key) then Trim(attributes[f.key].value) else "(пропущено)";
        [f.caption + ": " + shown] + rest
      else rest
  }

  const FoundNotice := "Точная точка будет доступна владельцу после проверки."

  /** The lines of the published description. */
  function DescriptionParts(found: bool, lines: seq<string>, note: string): (r: seq<string>)
    ensures |r| == (if |lines| > 0 then 1 + |lines| else 0) + (if note != "" then 1 else 0) + (if found then 1 else 0)
    ensures |lines| > 0 ==> r[0] == "Характеристики:" && r[1..|lines| + 1] == Prefixed(lines)
    ensures note != "" ==> r[if |lines| > 0 then 1 + |lines| else 0] == "Локация: " + note
    ensures found ==> r[|r| - 1] == FoundNotice
  {
    var heading := if |lines| > 0 then ["Характеристики:"] + Prefixed(lines) else [];
    var location := if note != "" then ["Локация: " + note] else [];
    var notice := if found then [FoundNotice] else [];
    assert |heading| > 0 ==> (heading + location + notice)[..|heading|] == heading;
    heading + location + notice
  }

  function Prefixed(lines: seq<string>): (r: seq<string>)
    ensures |r| == |lines| && forall i | 0 <= i < |r| :: r[i] == "- " + lines[i]
  {
    if |lines| == 0 then [] else ["- " + lines[0]] + Prefixed(lines[1..])
  }

  /** The row `persistListing` writes, with its photo and secret rows. */
  datatype ListingPayload = ListingPayload(
    kind: ListingType,
    category: string,
    title: string,
    description: string,
    location: Option<Point>,
    occurredAt: int,
    photos: seq<string>,
    secrets: seq<Vault.StoredSecret>)

  datatype PublishError = NoCategory | UnknownCategory

  /** `buildListingPayload(flow, listing)`; `now` stands for the clock read when
      the draft has no date. */
  function BuildListingPayload(flow: Flows.Flow, listing: Listing, now: int): (r: Result<ListingPayload, PublishError>)
    ensures listing.category.None? || listing.category == Some("") ==> r == Failure(NoCategory)
    ensures r.Success? ==> Some(r.value.category) == Normalize(listing.category) && r.value.kind == listing.kind
    ensures r.Success? ==> (|r.value.photos| <= 3
      && (forall u | u in r.value.photos :: exists p | p in listing.photos :: PhotoUrl(p) == Some(u)))
    ensures r.Success? ==> (|r.value.secrets| == (if |listing.encryptedSecrets| < 3 then |listing.encryptedSecrets| else 3)
      && r.value.secrets == listing.encryptedSecrets[..|r.value.secrets|])
    ensures r.Success? ==> r.value.occurredAt == listing.occurredAt.GetOr(now) && r.value.location == listing.location
  {
    if listing.category.None? || listing.category.value == "" then Failure(NoCategory)
    else
      var category := Normalize(listing.category);
      if category.None? || category.value == "" then Failure(UnknownCategory)
      else
        var fields := FieldsOf(category);
        var verb := if flow == Flows.Lost then "Потеряно" else "Найдено";
        var subject := Subject(fields, listing.attributes, category.value);
        var lines := AttributeLines(fields, listing.attributes);
        var parts := DescriptionParts(flow == Flows.Found, lines, listing.locationNote);
        var photos := Sorting.Take(PhotoUrls(listing.photos), 3);
        Sorting.TakeFacts(PhotoUrls(listing.photos), 3);
        Success(ListingPayload(listing.kind, category.value, verb + ": " + subject, Join(parts, '\n'),
          listing.location, listing.occurredAt.GetOr(now), photos, Sorting.Take(listing.encryptedSecrets, 3)))
  }

  /** The published title names the first answered field, or the category when no
      field has text; lost items read `Потеряно`, all others `Найдено`. */
  lemma ListingTitle(flow: Flows.Flow, listing: Listing, now: int)
    requires BuildListingPayload(flow, listing, now).Success?
    ensures var title := BuildListingPayload(flow, listing, now).value.title;
      var fields := FieldsOf(listing.category);
      var verb := if flow == Flows.Lost then "Потеряно" else "Найдено";
      (forall i | 0 <= i < |fields| && Filled(listing.attributes, fields[i].key)
                && (forall j | 0 <= j < i :: !Filled(listing.attributes, fields[j].key)) ::
         title == verb + ": " + Trim(listing.attributes[fields[i].key].value))
      && ((forall i | 0 <= i < |fields| :: !Filled(listing.attributes, fields[i].key)) ==>
         title == verb + ": " + CategoryTitle(Normalize(listing.category).value))
  {
    PayloadTitle(flow, listing, now);
    NormalizeIdempotent(listing.category);
    var fields := FieldsOf(listing.category);
    forall i | 0 <= i < |fields| && Filled(listing.attributes, fields[i].key)
          && (forall j | 0 <= j < i :: !Filled(listing.attributes, fields[j].key))
      ensures FirstFilled(fields, listing.attributes) == Some(i)
    {
      FirstFilledAt(fields, listing.attributes, i);
    }
  }

  lemma PayloadTitle(flow: Flows.Flow, listing: Listing, now: int)
    requires BuildListingPayload(flow, listing, now).Success?
    ensures var category := Normalize(listing.category);
      category.Some?
      && BuildListingPayload(flow, listing, now).value.title
         == (if flow == Flows.Lost then "Потеряно" else "Найдено") + ": "
            + Subject(FieldsOf(category), listing.attributes, category.value)
  {
  }
}
