/** The conversation's flows and steps: which flow owns each step, where each flow
    starts, the ordered step sequence `/back` walks, the text keywords, and the
    `flow:<flow>:<action>[:<value>]` codec that inline buttons carry. */
module Flows {
  import opened Wrappers
  import opened Text

  datatype Flow = Lost | Found | Owner | Volunteer | My

  datatype Step =
    | Idle
    | LostCategory | LostAttributes | LostPhoto | LostLocation | LostSecrets | LostConfirm
    | FoundCategory | FoundAttributes | FoundPhoto | FoundLocation | FoundSecrets | FoundConfirm
    | OwnerIntro | OwnerQuestion | OwnerWaiting
    | VolunteerLocation | VolunteerIntro | VolunteerList
    | MyList | MyEditMenu | MyEditTitle | MyEditDescription | MyEditCategory
    | MyEditOccurred | MyEditLocation | MyEditPhotos

  /** The flow's id as it appears in callback payloads and session payloads. */
  function FlowName(f: Flow): string {
    match f
    case Lost => "lost"
    case Found => "found"
    case Owner => "owner"
    case Volunteer => "volunteer"
    case My => "my"
  }

  /** `FLOW_COPY[flow]`: the flow an id names, if any. */
  function ParseFlowName(s: string): (r: Option<Flow>)
    ensures r.Some? ==> FlowName(r.value) == s
  {
    if s == "lost" then Some(Lost)
    else if s == "found" then Some(Found)
    else if s == "owner" then Some(Owner)
    else if s == "volunteer" then Some(Volunteer)
    else if s == "my" then Some(My)
    else None
  }

  /** Flow ids and flows are in one-to-one correspondence. */
  lemma FlowNamesRoundTrip(f: Flow, s: string)
    ensures ParseFlowName(FlowName(f)) == Some(f)
    ensures ParseFlowName(s) == Some(f) <==> FlowName(f) == s
  {
  }

  /** `STEP_TO_FLOW[step]`: the flow whose step map lists the step (no step is
      listed under two flows); IDLE belongs to no flow. */
  function StepFlow(s: Step): (r: Option<Flow>)
    ensures r.None? <==> s == Idle
  {
    match s
    case Idle => None
    case LostCategory | LostAttributes | LostPhoto | LostLocation | LostSecrets | LostConfirm => Some(Lost)
    case FoundCategory | FoundAttributes | FoundPhoto | FoundLocation | FoundSecrets | FoundConfirm => Some(Found)
    case OwnerIntro | OwnerQuestion | OwnerWaiting => Some(Owner)
    case VolunteerLocation | VolunteerIntro | VolunteerList => Some(Volunteer)
    case _ => Some(My)
  }

  /** `FLOW_START_STEP[flow]`. */
  function StartStep(f: Flow): (r: Step)
    ensures StepFlow(r) == Some(f)
  {
    match f
    case Lost => LostCategory
    case Found => FoundCategory
    case Owner => OwnerIntro
    case Volunteer => VolunteerIntro
    case My => MyList
  }

  /** `FLOW_STEP_SEQUENCE[flow]`: the order `/back` walks; the my-listings flow has
      none. */
  function Sequence(f: Flow): (r: Option<seq<Step>>)
    ensures r.Some? <==> f != My
    ensures r.Some? ==> |r.value| > 0 && r.value[0] == StartStep(f)
    ensures r.Some? ==> forall i | 0 <= i < |r.value| :: StepFlow(r.value[i]) == Some(f)
    ensures r.Some? ==> forall i, j | 0 <= i < j < |r.value| :: r.value[i] != r.value[j]
  {
    match f
    case Lost => Some([LostCategory, LostAttributes, LostPhoto, LostLocation, LostSecrets, LostConfirm])
    case Found => Some([FoundCategory, FoundAttributes, FoundPhoto, FoundLocation, FoundSecrets, FoundConfirm])
    case Owner => Some([OwnerIntro, OwnerQuestion, OwnerWaiting])
    case Volunteer => Some([VolunteerIntro, VolunteerLocation, VolunteerList])
    case My => None
  }

  /** `Array.prototype.indexOf` on a step sequence. */
  function StepIndex(s: seq<Step>, x: Step): (r: Option<nat>)
    ensures r.Some? ==> r.value < |s| && s[r.value] == x
                        && forall j | 0 <= j < r.value :: s[j] != x
    ensures r.None? <==> x !in s
  {
    if |s| == 0 then None
    else if s[0] == x then Some(0)
    else match StepIndex(s[1..], x)
      case None => None
      case Some(i) => Some(i + 1)
  }

  /** `getPreviousStep(flow, step)`: the step before `step` in the flow's sequence;
      nothing without a flow, for a flow without a sequence, for a step outside it,
      or for its first step. */
  function PreviousStep(flow: Option<Flow>, step: Step): (r: Option<Step>)
    ensures r.Some? <==>
      (flow.Some? && Sequence(flow.value).Some?
       && step in Sequence(flow.value).value && step != Sequence(flow.value).value[0])
    ensures r.Some? ==>
      exists i | 0 < i < |Sequence(flow.value).value| ::
        Sequence(flow.value).value[i] == step && r.value == Sequence(flow.value).value[i - 1]
  {
    if flow.None? then None
    else match Sequence(flow.value)
      case None => None
      case Some(sq) =>
        match StepIndex(sq, step)
        case None => None
        case Some(i) => if i == 0 then None else Some(sq[i - 1])
  }

  /** Going back from the i-th step of a sequence lands on the step before it. */
  lemma PreviousStepAt(f: Flow, i: nat)
    requires Sequence(f).Some? && 0 < i < |Sequence(f).value|
    ensures PreviousStep(Some(f), Sequence(f).value[i]) == Some(Sequence(f).value[i - 1])
  {
    var sq := Sequence(f).value;
    var k := StepIndex(sq, sq[i]);
    assert k.Some?;
    assert k.value == i;
  }

  /** `FLOW_KEYWORDS[flow]`; the owner flow has none. */
  function FlowKeywords(f: Flow): seq<string> {
    match f
    case Lost => ["потерял", "потеряла", "потеряли", "/lost"]
    case Found => ["нашёл", "нашел", "нашла", "нашли", "/found"]
    case Volunteer => ["волонтёрить", "волонтерить", "/volunteer"]
    case My => ["мои объявления", "мои объявление", "/my"]
    case Owner => []
  }

  /** `matchesFlowKeyword(lower, flow)`: the lower-cased text equals one of the
      flow's keywords or starts with one followed by a space. */
  predicate MatchesFlowKeyword(lower: string, f: Flow) {
    exists k | k in FlowKeywords(f) :: lower == k || StartsWith(lower, k + " ")
  }

  /** Every keyword of a flow opens with the same two characters, and those two
      characters differ from flow to flow. */
  function KeywordPrefixes(f: Flow): set<string> {
    match f
    case Lost => {"по", "/l"}
    case Found => {"на", "/f"}
    case Volunteer => {"во", "/v"}
    case My => {"мо", "/m"}
    case Owner => {}
  }

  lemma KeywordsHavePrefixes(f: Flow)
    ensures forall k | k in FlowKeywords(f) :: |k| >= 2 && k[..2] in KeywordPrefixes(f)
  {
    var ks := FlowKeywords(f);
    forall i | 0 <= i < |ks| ensures |ks[i]| >= 2 && ks[i][..2] in KeywordPrefixes(f) {
      match f {
        case Lost =>
          assert "потерял"[..2] == "потеряла"[..2] == "потеряли"[..2] == "по";
          assert "/lost"[..2] == "/l";
        case Found =>
          assert "нашёл"[..2] == "нашел"[..2] == "нашла"[..2] == "нашли"[..2] == "на";
          assert "/found"[..2] == "/f";
        case Volunteer =>
          assert "волонтёрить"[..2] == "волонтерить"[..2] == "во";
          assert "/volunteer"[..2] == "/v";
        case My =>
          assert "мои объявления"[..2] == "мои объявление"[..2] == "мо";
          assert "/my"[..2] == "/m";
        case Owner =>
      }
    }
  }

  lemma KeywordPrefix(lower: string, f: Flow)
    requires MatchesFlowKeyword(lower, f)
    ensures |lower| >= 2 && lower[..2] in KeywordPrefixes(f)
  {
    var k :| k in FlowKeywords(f) && (lower == k || StartsWith(lower, k + " "));
    KeywordsHavePrefixes(f);
    SharedPrefix(lower, k);
  }

  lemma SharedPrefix(lower: string, k: string)
    requires |k| >= 2 && (lower == k || StartsWith(lower, k + " "))
    ensures |lower| >= 2 && lower[..2] == k[..2]
  {
    if lower != k {
      assert lower[..2] == (k + " ")[..2] == k[..2];
    }
  }

  /** No text matches the keywords of two flows, so the order in which the idle
      dispatcher tries the flows does not matter. */
  lemma KeywordFlowIsUnique(lower: string, f: Flow, g: Flow)
    requires MatchesFlowKeyword(lower, f) && MatchesFlowKeyword(lower, g)
    ensures f == g
  {
    KeywordPrefix(lower, f);
    KeywordPrefix(lower, g);
  }

  const CancelKeywords: set<string> := {"/cancel", "отмена"}
  const BackKeywords: set<string> := {"/back", "назад"}
  const PreviewKeywords: set<string> := {"/preview", "черновик"}
  const NotificationKeywords: set<string> := {"уведомления", "уведомление", "notifications", "/notifications"}

  /** `isSkipCommand(lower)`, used by the volunteer location step; the wizard steps
      accept only `/skip`. */
  predicate IsSkipCommand(lower: string) {
    lower == "/skip" || lower == "skip" || lower == "пропустить"
  }

  /** A parsed callback payload. */
  datatype Callback = Callback(flow: string, action: string, value: string)

  /** `buildFlowPayload(flow, action, value)`: `flow`, the flow and the action, and
      the value only when it is non-empty, joined by `:`. */
  function BuildFlowPayload(flow: string, action: string, value: string): string {
    Join(["flow", flow, action] + (if value != "" then [value] else []), ':')
  }

  /** The flows `parseFlowPayload` routes: a known flow, the auxiliary `menu`
      flow, or any flow with one of the three generic actions. */
  predicate Routed(flow: string, action: string) {
    ParseFlowName(flow).Some? || flow == "menu" || action in {"start", "menu", "cancel"}
  }

  /** `parseFlowPayload(raw)`: split on `:`; at least three parts with `flow`
      first, a routed flow/action pair; the fourth part is the value (empty when
      missing) and any further parts are dropped. */
  function ParseFlowPayload(raw: Option<string>): (r: Option<Callback>)
    ensures r.Some? ==> raw.Some? && raw.value != ""
    ensures r.Some? ==> Routed(r.value.flow, r.value.action)
    ensures r.Some? ==> ':' !in r.value.flow && ':' !in r.value.action && ':' !in r.value.value
    ensures raw.Some? && (|Split(raw.value, ':')| < 3 || Split(raw.value, ':')[0] != "flow") ==> r.None?
  {
    if raw.None? || raw.value == "" then None
    else
      var parts := Split(raw.value, ':');
      if |parts| < 3 || parts[0] != "flow" then None
      else
        var value := if |parts| >= 4 then parts[3] else "";
        if !Routed(parts[1], parts[2]) then None
        else
          assert parts[1] in parts && parts[2] in parts;
          assert |parts| >= 4 ==> parts[3] in parts;
          Some(Callback(parts[1], parts[2], value))
  }

  predicate NoColon(s: string) { ':' !in s }

  /** Parsing a built payload gives back its parts, provided no part holds a `:`
      and the pair is routed; an unrouted pair is rejected. */
  lemma ParseBuildRoundTrip(flow: string, action: string, value: string)
    requires NoColon(flow) && NoColon(action) && NoColon(value)
    ensures Routed(flow, action) ==>
      ParseFlowPayload(Some(BuildFlowPayload(flow, action, value))) == Some(Callback(flow, action, value))
    ensures !Routed(flow, action) ==> ParseFlowPayload(Some(BuildFlowPayload(flow, action, value))) == None
  {
    var parts := ["flow", flow, action] + (if value != "" then [value] else []);
    assert forall p | p in parts :: ':' !in p;
    SplitJoin(parts, ':');
    assert Join(parts, ':') == "flow" + [':'] + Join(parts[1..], ':');
  }

  /** A value holding a `:` does not survive: only its part before the first `:`
      comes back. */
  lemma ColonCutsValue(flow: string, action: string, v1: string, v2: string)
    requires NoColon(flow) && NoColon(action) && NoColon(v1) && NoColon(v2)
    requires Routed(flow, action) && v1 != ""
    ensures ParseFlowPayload(Some(BuildFlowPayload(flow, action, v1 + ":" + v2))) ==
            Some(Callback(flow, action, v1))
  {
    var parts := ["flow", flow, action, v1, v2];
    assert forall p | p in parts :: ':' !in p;
    SplitJoin(parts, ':');
    var v := v1 + ":" + v2;
    assert Join([v1, v2], ':') == v1 + [':'] + Join([v2], ':') == v == Join([v], ':');
    assert Join([action, v], ':') == action + [':'] + Join([v], ':');
    assert Join([action, v1, v2], ':') == action + [':'] + Join([v1, v2], ':');
    assert Join([flow, action, v], ':') == flow + [':'] + Join([action, v], ':');
    assert Join([flow, action, v1, v2], ':') == flow + [':'] + Join([action, v1, v2], ':');
    assert Join(["flow", flow, action, v], ':') == "flow" + [':'] + Join([flow, action, v], ':');
    assert Join(parts, ':') == "flow" + [':'] + Join([flow, action, v1, v2], ':');
    assert v != "" && ["flow", flow, action] + [v] == ["flow", flow, action, v];
  }

  /** Building what was parsed restores the payload when it had three parts, or
      four with a non-empty last one. */
  lemma BuildParseRoundTrip(raw: string)
    requires ParseFlowPayload(Some(raw)).Some?
    requires |Split(raw, ':')| == 3 || (|Split(raw, ':')| == 4 && Split(raw, ':')[3] != "")
    ensures var c := ParseFlowPayload(Some(raw)).value;
      BuildFlowPayload(c.flow, c.action, c.value) == raw
  {
    var parts := Split(raw, ':');
    var c := ParseFlowPayload(Some(raw)).value;
    assert c.flow == parts[1] && c.action == parts[2];
    if |parts| == 3 {
      assert c.value == "";
      assert parts == ["flow", parts[1], parts[2]] + [];
    } else {
      assert c.value == parts[3];
      assert parts == ["flow", parts[1], parts[2]] + [parts[3]];
    }
  }

  /** `parseMatchValue` / `parseOwnerReviewValue`: a `|`-separated pair whose empty
      halves read as missing. */
  function ParsePair(value: string): (r: (Option<string>, Option<string>))
    ensures value == "" ==> r == (None, None)
    ensures r.0.Some? ==> r.0.value != "" && '|' !in r.0.value
    ensures r.1.Some? ==> r.1.value != "" && '|' !in r.1.value
  {
    if value == "" then (None, None)
    else
      var parts := Split(value, '|');
      assert parts[0] in parts;
      assert |parts| >= 2 ==> parts[1] in parts;
      (if parts[0] != "" then Some(parts[0]) else None,
       if |parts| >= 2 && parts[1] != "" then Some(parts[1]) else None)
  }

  /** The value the match and review buttons carry: `a|b`. */
  function BuildPair(a: string, b: string): string {
    Join([a, b], '|')
  }

  /** The pair codec round-trips on non-empty halves free of `|`. */
  lemma PairRoundTrip(a: string, b: string)
    requires a != "" && b != "" && '|' !in a && '|' !in b
    ensures ParsePair(BuildPair(a, b)) == (Some(a), Some(b))
  {
    SplitJoin([a, b], '|');
  }
}
