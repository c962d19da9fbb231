# Lost & found bot: a Dafny model of its dialogue core

The bot helps people who lost or found something. It runs in the MAX messenger,
and a small web map sits beside it. This project models the bot's core in
Dafny 4.11 and proves properties of the model:

- **The dialogue state machine.** It covers sessions, steps, `/back`, keywords,
  button payloads, and the `transitionToStep` entry chains.
- **The listing wizard of the lost and found flows.** Steps in order:
  1. category;
  2. attribute questionnaire;
  3. photos;
  4. location stages;
  5. secrets;
  6. confirmation and publication.
- **The volunteer location step.**
- **The owner check and the contact exchange.** This covers:
  - launching a check from a match button;
  - the claimant's answers;
  - the holder's review;
  - the exchange request;
  - the shared-contact path.
- **The two dispatchers, `handleMessage` and `handleCallback`.**
- **The supporting modules:**
  - notification storage and listing;
  - chats and memberships;
  - secret sealing;
  - user accounts and phone normalisation;
  - the match score;
  - the category tables;
  - the web map's `escapeHtml`.

The database is a value: a `Store.World` holds users, sessions, chats,
notifications and listings. Every handler is a function or method from one
world to the next. Messenger replies are not modelled; only their effect on the
stored state is. The clock, the cipher, the IVs, the candidate listings of
the matching query, and the match score's distance and parsed dates are
parameters.

The modules follow the source files:

| module | file | what it models |
|---|---|---|
| `Flows` | `flows.dfy` | step names, flow maps, keywords and callback payload codec |
| `Sessions` | `sessions.dfy` | the runtime, initial payloads and `transitionToStep` |
| `Drafts` | `drafts.dfy` | draft listing, attribute answers, photos, secret lines, published payload |
| `Wizard` | `wizard.dfy` | the wizard step handlers |
| `Owner` | `owner.dfy` | owner check and contact reveal |
| `Decision` | `decision.dfy` | the holder's and claimant's decisions |
| `Dispatch` | `dispatch.dfy` | the two dispatchers |
| `Notifications` and `Inbox` | `notifications.dfy`, `inbox.dfy` | notifications |
| `Chats` | `chat.dfy` | chats and memberships |
| `Vault` | `security.dfy` | secret sealing |
| `Users` | `users.dfy` | accounts and phones |
| `Matching` and `Sorting` | `matching.dfy`, `sorting.dfy` | the match score and its ordering |
| `Categories` | `categories.dfy` | the category tables |
| `Geo` | `geo.dfy` | location blurring |
| `Display` | `display.dfy` | display helpers |
| `Html` | `html.dfy` | `escapeHtml` |
| `Text` | `text.dfy` | string primitives |
| `Store` | `store.dfy` | the world |
| `Wrappers` | `wrappers.dfy` | `Option` and `Result` |

## Model

| member | source | states |
|---|---|---|
| Text.Trim | server/src/fsm.js:581 | the result is a slice of the input with only whitespace cut at either end and none left at its own ends |
| Text.TrimOfPadded | server/src/fsm.js:581 | padding an edge-clean string with whitespace and trimming gives it back (reference characterisation of `trim`) |
| Text.TrimIdempotent | server/src/fsm.js:581 | trimming twice is trimming once |
| Text.Lower | server/src/fsm.js:582 | lower-casing keeps the length and maps each character on its own |
| Text.LowerIdempotent | server/src/fsm.js:582 | lower-casing twice is lower-casing once |
| Text.Split | server/src/fsm.js:4302 | `split` on one character gives at least one piece, no piece holds the separator, and joining the pieces gives the input back |
| Text.SplitJoin | server/src/fsm.js:4302 | splitting the join of separator-free pieces gives the pieces back |
| Text.IndexOf | server/src/fsm.js:3735-3747 | the position found is the first occurrence of the pattern, and nothing is found exactly when it does not occur |
| Text.ParseNatOfNatToText | server/src/fsm.js:1917-1923 | an id rendered into a button value reads back as the same id |
| Text.NatToTextOfParseNat | server/src/fsm.js:1917-1923 | every numeral the reader accepts is the rendering of the id it returns |
| Flows.ParseFlowName | server/src/fsm.js:30-36 | a flow id that reads as a flow is that flow's name |
| Flows.FlowNamesRoundTrip | server/src/fsm.js:30-36 | flow ids and flows correspond one to one: a name reads back as its flow and nothing else reads as it |
| Flows.StepFlow | server/src/fsm.js:107-112 | IDLE is the only step that belongs to no flow |
| Flows.StartStep | server/src/fsm.js:114-120 | a flow starts on one of its own steps |
| Flows.Sequence | server/src/fsm.js:124-151 | every flow but my-listings has a step order, which starts on the flow's first step, holds only that flow's steps, and lists none twice |
| Flows.PreviousStep | server/src/fsm.js:3794-3810 | `/back` finds the step before the current one in the flow's sequence, and nothing on the first step or outside a sequence |
| Flows.PreviousStepAt | server/src/fsm.js:3794-3810 | going back from the i-th step lands on the (i-1)-th |
| Flows.KeywordFlowIsUnique | server/src/fsm.js:393-399 | no text matches the keywords of two flows |
| Flows.ParseFlowPayload | server/src/fsm.js:4297-4318 | a payload is read only with `flow` first, at least three parts and a routed flow/action pair; the parts hold no `:` |
| Flows.ParseBuildRoundTrip | server/src/fsm.js:1917-1923 | parsing a built payload gives its parts back; an unrouted pair is rejected |
| Flows.BuildParseRoundTrip | server/src/fsm.js:4297-4318 | building what was parsed restores a payload of three parts, or four with a non-empty last one |
| Flows.ColonCutsValue | server/src/fsm.js:4308 | a value holding `:` comes back cut at its first `:` |
| Flows.ParsePair | server/src/fsm.js:2453-2467 | an empty value reads as two missing halves, and every half read is non-empty and free of `|` |
| Flows.PairRoundTrip | server/src/fsm.js:2453-2467 | the pair codec round-trips on non-empty halves free of `|` |
| Sessions.InitialPayload | server/src/fsm.js:4384-4402 | the my-listings flow starts without a draft; every other flow starts with an empty draft of its own type |
| Sessions.CreateRuntime | server/src/fsm.js:4423-4445 | IDLE without a record; otherwise the record's step and payload, with the draft's category normalised and the flow taken from the payload or the step |
| Sessions.CreateRuntimeStable | server/src/fsm.js:4423-4445 | reading a session back from its runtime changes nothing more |
| Sessions.Draft | server/src/fsm.js:4489-4497 | the payload a wizard edits always has a draft: the stored one, or an empty one of the flow's kind; the other parts of the payload are kept |
| Sessions.PrepareAttributesPayload | server/src/fsm.js:3505-3540 | the stored draft, or an empty one, is prepared as `Drafts.PrepareAttributes` does, and the rest of the payload is kept |
| Sessions.PrepareStable | server/src/fsm.js:3505-3540 | preparing a draft that is asking a question again changes nothing |
| Sessions.Settle | server/src/fsm.js:4447-4487 | whatever `transitionToStep` saves is a step whose entry moves no further; a step with a flow that is not an attribute step always saves a record |
| Sessions.SettleSavesNothing | server/src/fsm.js:4447-4487 | nothing is saved exactly without a flow, or for an attribute step with no question left in a flow without a photo step |
| Sessions.EnterKeepsQuestion | server/src/fsm.js:833-869 | an attribute step that is asking a question stays where it is, and a step with no entry move rests |
| Sessions.BackFromLostConfirm | server/src/fsm.js:1228-1261 | the LOST secrets step never keeps a session, so `/back` from the LOST confirmation lands on the confirmation again with the secrets cleared |
| Sessions.StartWizardLanding | server/src/fsm.js:776-786 | starting a wizard saves its category step with the initial payload |
| Sessions.StartVolunteerLanding | server/src/fsm.js:1562-1586 | starting the volunteer flow lands on the location step |
| Sessions.StartOwnerLanding | server/src/fsm.js:1442-1470 | the owner intro without a running check stays where it is |
| Sessions.AttributesLanding | server/src/fsm.js:833-869 | entering an attribute step either asks the draft's next question or moves on to the photo step |
| Drafts.PrepareAttributes | server/src/fsm.js:3505-3540 | the current question is kept while unanswered, otherwise the first unanswered field is chosen |
| Drafts.ParseLocationMode | server/src/fsm.js:406-411 | a location mode is read exactly from `exact`, `approx` or `transit` |
| Drafts.EmptyListing | server/src/fsm.js:4404-4421 | a new draft is a loss exactly in the lost flow, with no category, answers or photos |
| Drafts.UnansweredZero | server/src/fsm.js:3505-3540 | the count of unanswered fields is zero exactly when there is no first unanswered field |
| Drafts.AnswerAttribute | server/src/fsm.js:870-927 | `/skip` stores null; a required answer needs two UTF-16 units; hints are capped at three; an accepted answer is stored under the asked key |
| Drafts.AnswerAdvances | server/src/fsm.js:870-927 | every stored answer leaves one question fewer, so the questionnaire ends |
| Drafts.AppendPhotos | server/src/fsm.js:3951-3973 | the old photos are a prefix of the new ones, the limit is kept, ids stay distinct, only attachments are added, and added plus skipped counts the attachments |
| Drafts.AppendPhotosSkipsKnownIds | server/src/fsm.js:3951-3973 | an attachment whose id the draft has is never added |
| Drafts.OnlyDocumentsAndKeysNeedAck | server/src/fsm.js:412 | among canonical categories only `document` and `keys` ask a finder for the photo acknowledgement on entry, and a loser is never asked on entry |
| Drafts.SplitSecretLineFormat | server/src/fsm.js:3735-3747 | a `question :: answer` line splits back into its halves |
| Drafts.SplitSecretLinePlain | server/src/fsm.js:3735-3747 | a line without a delimiter is the answer alone |
| Drafts.ParseSecretEntries | server/src/fsm.js:3683-3733 | no lines is an error; a success holds one entry per non-empty line up to three, each answered and within the length limits, and a finder's questions are trimmed and non-empty |
| Drafts.SecretLineRoundTrip | server/src/fsm.js:3683-3747 | a single `question :: answer` line reads as that one secret, for both flows |
| Drafts.QuestionOnlyEntry | server/src/fsm.js:3705-3720 | for a loss a question without an answer becomes a numbered secret; a finder is asked for the answer |
| Drafts.BuildListingPayload | server/src/fsm.js:4079-4150 | a draft without a category fails; otherwise the payload carries the draft's kind, normalised category, at most three photo URLs of its photos, its first three sealed secrets, its point, and the clock for a missing date |
| Drafts.PhotoUrls | server/src/fsm.js:4156-4170 | each URL comes from a photo, none more than photos, and when every photo has a URL they are those URLs in order |
| Drafts.DescriptionParts | server/src/fsm.js:4079-4150 | the description holds the heading and prefixed answer lines when there are any, then the location note if non-empty, then the finder's notice for a find |
| Drafts.CategoryTitle | server/src/fsm.js:4152-4154 | a known category shows its caption and any other id shows itself |
| Drafts.ListingTitle | server/src/fsm.js:4079-4150 | the published title names the first answered field, or the category, after `Потеряно` or `Найдено` |
| Drafts.FirstFilledAt | server/src/fsm.js:4090-4100 | the field found for the title is the first whose answer has text |
| Drafts.AttributeLines | server/src/fsm.js:3570-3584 | at most one line per field, and no lines exactly when no field is answered |
| Wizard.Apply | server/src/fsm.js:4447-4487 | a move changes only the user's session, and a refused move changes nothing |
| Wizard.ChooseCategory | server/src/fsm.js:801-825 | only a known category moves on, to the attribute step with that category and no answers |
| Wizard.CategoryLanding | server/src/fsm.js:801-825 | a chosen category resets answers, hints, secrets and location choice, asks the first question, and makes a finder accept the legal notice again |
| Wizard.AnswerQuestion | server/src/fsm.js:870-927 | without a category the session goes back to the category step; otherwise it stays on the attribute step or moves on from it |
| Wizard.AnswerProgress | server/src/fsm.js:870-927 | an answer is refused with nothing changed, or recorded with one question fewer left |
| Wizard.PhotoProgress | server/src/fsm.js:972-1025 | the photo step saves photos that only grew, with new distinct ids and below the limit, or moves to the location step unchanged or with the limit reached; `/skip`, or a next word once photos exist, moves on unchanged |
| Wizard.AcknowledgePhotos | server/src/fsm.js:1026-1048 | `photo_ack` is taken for every find and for a risky loss, and changes nothing but the acknowledgement |
| Wizard.ChooseLocationMode | server/src/fsm.js:1093-1112 | a known mode is stored and starts the route stage for transit or the details stage otherwise |
| Wizard.LocationMessage | server/src/fsm.js:1115-1220 | each stage of the location step either refuses the message or moves exactly one stage on |
| Wizard.FoundPointIsBlurred | server/src/fsm.js:1115-1220 | a find's published point is within half a grid step of the shared point, which is kept as the original |
| Wizard.SecretsMessage | server/src/fsm.js:1262-1298 | a loss goes straight on; a finder's entries are sealed and, with the clean entries, kept in the draft before the confirmation |
| Wizard.SecretsSealed | server/src/fsm.js:1262-1298 | with no key, or with a 32-byte key and a self-inverse cipher, every secret a finder gives reads back, question in clear |
| Wizard.BadKeyStoresNoSecrets | server/src/fsm.js:1262-1298 | with a key of the wrong length nothing is sealed and the answers stay in the draft in clear |
| Wizard.PublishNotes | server/src/fsm.js:1367-1408 | one LISTING_PUBLISHED row, then one MATCH_FOUND row per match in order |
| Wizard.Publish | server/src/fsm.js:4054-4077 | a draft that does not build changes nothing; a publication appends the listing as the user's, closes the user's session, adds its notifications, and changes nothing else |
| Wizard.MatchesOf | server/src/fsm.js:4215-4284 | at most three candidates, all strong, and none for a listing without a point |
| Wizard.Confirm | server/src/fsm.js:1340-1440 | only the three known buttons act; a finder must have accepted the legal notice to publish; `edit` re-enters the attribute step |
| Wizard.AcceptLegal | server/src/fsm.js:1346-1354 | the confirmation is saved again with the notice accepted |
| Wizard.EditSkipsAnsweredQuestions | server/src/fsm.js:1431-1435 | `edit` on a finished questionnaire lands on the photo step, not on a question |
| Wizard.VolunteerLocated | server/src/fsm.js:1595-1616 | a skip word clears the location and a shared one is kept; either way the session moves to the list |
| Wizard.VolunteerSkip | server/src/fsm.js:1617-1628 | only `location_skip` acts, moving to the list without a location |
| Wizard.VolunteerLanding | server/src/fsm.js:1595-1628 | leaving the location step saves the list step with that location |
| Dispatch.Resolve | server/src/fsm.js:4327-4337 | no user without a messenger id; otherwise the account is found or added, with a shared phone stored and other accounts untouched |
| Dispatch.ResolveStable | server/src/fsm.js:4327-4337 | resolving the same sender again gives the same account and adds none |
| Dispatch.StartFlow | server/src/fsm.js:776-786 | the session is restarted on the flow's landing step with the initial payload, and nothing else changes |
| Dispatch.UnreadIds | server/src/fsm.js:564-576 | an id is collected exactly when some shown view with that id was UNREAD |
| Dispatch.ShowNotifications | server/src/fsm.js:552-577 | the listed UNREAD rows of the user become READ and every other row is unchanged |
| Dispatch.MarkShown | server/src/fsm.js:564-576 | the row of each shown UNREAD view is marked READ and every other row is unchanged |
| Dispatch.LocationStageAdvances | server/src/fsm.js:1115-1220 | at the location step the saved stage only moves forward, by exactly one |
| Dispatch.StepMessage | server/src/fsm.js:662-669 | the steps that only reply, the my-listings steps and IDLE change nothing; every step but the owner question touches only the user's session; the location stage only advances; a blank owner answer changes nothing |
| Dispatch.OnOwnerQuestion | server/src/fsm.js:1492-1549 | without a check or with a blank answer nothing changes; otherwise the user keeps a session |
| Dispatch.CommandsAreNotFlowKeywords | server/src/fsm.js:393-404 | no command and no notification word is a flow keyword |
| Dispatch.IdleMessage | server/src/fsm.js:622-660 | in IDLE a lost, found or volunteer keyword starts that flow; otherwise a notification word shows the notifications; anything else changes nothing |
| Dispatch.GoBack | server/src/fsm.js:606-615 | `/back` re-enters the previous step with the payload, through its entry moves, and does nothing on the first step |
| Dispatch.Route | server/src/fsm.js:594-669 | `/start` changes nothing; a cancel word clears; back and preview act outside IDLE only; IDLE never enters the my-listings flow |
| Dispatch.IdleNeverEntersMy | server/src/fsm.js:622-660 | from IDLE the session stays, clears, or lands in the lost, found or volunteer flow |
| Dispatch.HandleMessage | server/src/fsm.js:579-674 | an unresolvable sender changes nothing; a cancel word always ends the session; without a shared contact the message is routed as above |
| Dispatch.GenericCallback | server/src/fsm.js:690-724 | `start` restarts a known flow; `menu` and `cancel` clear the session; the notification button marks the shown rows read; showing a listing changes nothing |
| Dispatch.OwnerCallback | server/src/fsm.js:729-749 | the match button launches a check only for a launchable pair; a review confirms or declines; a request needs the holder's ACTIVE chat; a shared contact is refused only for a PENDING or CLOSED chat and otherwise, DECLINED included, closes the claimant's chat and exchanges the contacts |
| Dispatch.ShareContact | server/src/fsm.js:2363-2416 | a missing chat, another user, a PENDING or CLOSED chat, no holder or a claimant without a phone is refused; an ACTIVE or DECLINED chat of the claimant's is closed and both contacts are revealed |
| Dispatch.StepCallback | server/src/fsm.js:762-769 | each step's button handler acts; at steps without one nothing changes; every step but the confirmation touches only the user's session |
| Dispatch.OnConfirm | server/src/fsm.js:1340-1440 | only the three known buttons act, and an unaccepted finder cannot publish |
| Dispatch.Press | server/src/fsm.js:687-769 | generic actions first, then the owner buttons; a button in IDLE or of another flow changes nothing; the rest go to the step |
| Dispatch.HandleCallback | server/src/fsm.js:676-774 | an unreadable payload or an unknown sender changes nothing; otherwise the button is pressed as above |
| Dispatch.ForeignButtonIgnored | server/src/fsm.js:757-760 | a step button of another flow leaves everything as it was |
| Owner.Announcement | server/src/fsm.js:2814-2838 | without a contact the announcement says there is no data |
| Owner.AnnouncementMasking | server/src/fsm.js:2814-2848 | the plain announcement shows the stored phone; the masked one depends on the number only through its digit count and shows no digit |
| Owner.RevealContacts | server/src/fsm.js:2724-2797 | only notifications change; each side gets an unread CONTACT_AVAILABLE with the other's contact; the holder's request and the claimant's approval are resolved, the claimant's carrying the holder's contact |
| Owner.FinalizeAsWritten | server/src/fsm.js:2679-2722 | a chat that is not CLOSED and has both sides is closed and its contacts exchanged, DECLINED included; any other chat leaves the world unchanged; no other chat row changes |
| Owner.Finalize | server/src/fsm.js:2679-2722 | the corrected exchange: a DECLINED chat is left alone; only a PENDING or ACTIVE chat with both sides is closed and its contacts exchanged |
| Owner.ReviewSummary | server/src/fsm.js:2478-2489 | a note that there are no answers exactly when there are none; otherwise the answers numbered from one |
| Owner.NotifyOwnerForReview | server/src/fsm.js:2556-2628 | the holder is set waiting for review with an ACTION OWNER_REVIEW, and the claimant is told |
| Owner.RecordAnswer | server/src/fsm.js:1492-1549 | the answer is added to the check and logged in the chat; the claimant stays on the questions or waits after the last, when the holder is asked to review |
| Owner.AnswerOwnerQuestion | server/src/fsm.js:1492-1549 | no check or a blank answer changes nothing; a finished check makes the claimant wait; otherwise the trimmed answer is recorded and logged; the check stays consistent |
| Owner.IntroLanding | server/src/fsm.js:1442-1470 | the owner intro with a running check moves to its first question |
| Owner.LaunchOwnerCheck | server/src/fsm.js:2028-2082 | an ACTIVE chat for the pair gets its contacts shown again; otherwise the chat is PENDING and the claimant answers the holder's questions, or the holder reviews at once when there are none |
| Owner.LaunchCheck | server/src/fsm.js:2028-2082 | a new check starts before its first question with no answers, the finder as holder, the loser as claimant, and the find's questions |
| Owner.MatchPair | server/src/fsm.js:1973-2026 | a match value launches only for the user's own listing against another user's listing of the opposite kind |
| Owner.HandleMatchAction | server/src/fsm.js:1973-2026 | a launchable pair launches its check and any other value changes nothing |
| Owner.MatchButtonLaunches | server/src/fsm.js:1958-1971 | a match card's button reads back as exactly its pair |
| Decision.ParseReview | server/src/fsm.js:2461-2467 | a review value reads exactly when it names a chat id and `confirm` or `decline` |
| Decision.ReviewButtons | server/src/fsm.js:2469-2476 | the two review buttons read back as their decision on their chat |
| Decision.Confirm | server/src/fsm.js:2101-2188 | only the holder acts; ACTIVE and CLOSED chats are left; otherwise the chat becomes ACTIVE, the review is resolved, the holder is offered the exchange and the claimant is told |
| Decision.Decline | server/src/fsm.js:2189-2237 | only the holder acts; the chat is DECLINED, the review resolved, and the claimant gets a new OWNER_DECLINED row |
| Decision.DeclineTwiceDuplicates | server/src/fsm.js:2189-2237 | two declines leave two OWNER_DECLINED rows for the chat |
| Decision.HandleOwnerReview | server/src/fsm.js:2084-2245 | an unreadable value changes nothing; otherwise the decision is carried out |
| Decision.MaskedOfferHidesNumber | server/src/fsm.js:2300-2340 | the masked offer depends on the holder's number only through its digit count |
| Decision.ContactRequest | server/src/fsm.js:2247-2361 | only the holder of an ACTIVE chat acts; a claimant with a phone gets the exchange and both sessions end; one without gets the masked offer |
| Decision.ShareContact | server/src/fsm.js:2363-2416 | PENDING and CLOSED chats, other users and a claimant without a phone are refused; ACTIVE and DECLINED chats are closed and their contacts exchanged |
| Decision.ShareContactIntended | server/src/fsm.js:2363-2416 | the corrected handler also refuses a DECLINED chat, and exchanges only on an ACTIVE one |
| Decision.FinalizeAll | server/src/fsm.js:2674-2676 | every listed chat the rule acts on ends CLOSED, no chat changes except by being closed under the rule, and a chat not in the list keeps its status |
| Decision.ContactShareEvent | server/src/fsm.js:2630-2677 | the chats of the user's waiting approvals, or with none the user's ACTIVE claims, are closed whenever they can be, DECLINED included; CLOSED chats stay CLOSED, and every other chat keeps its status |
| Decision.ContactShareEventIntended | server/src/fsm.js:2630-2677 | the corrected handler leaves DECLINED and CLOSED chats as they are, closes only exchangeable ones, and leaves every chat outside the batch as it is |
| Notifications.Create | server/src/notifications.js:25-47 | a missing user or type is refused; otherwise one row is appended with UNREAD by default and the rest untouched |
| Notifications.LatestIsNewest | server/src/notifications.js:55-61 | with a strictly increasing clock, the row the upsert picks is the newest with the key |
| Notifications.Update | server/src/notifications.js:77-118 | only the named columns of the one row change; an empty patch or an unknown id changes nothing |
| Notifications.Upsert | server/src/notifications.js:49-75 | the newest key match is patched, or one row is created |
| Notifications.UpsertTwiceAddsNoRow | server/src/notifications.js:49-75 | a second upsert under the same key returns the same row and adds none |
| Notifications.MarkRead | server/src/notifications.js:120-130 | ARCHIVED stays ARCHIVED and every other status becomes READ |
| Notifications.ArchivedStaysArchived | server/src/notifications.js:120-141 | reading an archived row does not bring it back |
| Notifications.MarkReadSettles | server/src/notifications.js:120-130 | marking read twice is marking read once |
| Notifications.Archive | server/src/notifications.js:132-141 | the row becomes ARCHIVED whatever its status |
| Notifications.List | server/src/notifications.js:143-161 | the user's rows, archived ones only on request, ordered by status rank and then newest first, as many as there are up to the limit |
| Notifications.ListIsTop | server/src/notifications.js:143-161 | no eligible row is passed over for one listed after it |
| Notifications.MapRow | server/src/notifications.js:163-185 | the columns are kept and a payload that is not an object becomes empty |
| Inbox.Put | server/src/notifications.js:49-75 | an upsert adds at most one row, and the key's newest row then carries the given status and body |
| Inbox.PutElsewhere | server/src/notifications.js:49-75 | an upsert under one key leaves what every other key shows |
| Inbox.Add | server/src/notifications.js:25-47 | a created row is its key's newest and the old rows are untouched |
| Chats.EnsureMember | server/src/chat.js:90-97 | the membership is inserted, or its role overwritten on a duplicate pair |
| Chats.FindOpen | server/src/chat.js:11-16 | a chat found is an open chat of the type for the pair, and nothing is found only when there is none |
| Chats.GetOrCreate | server/src/chat.js:4-88 | the open chat is reused or a new PENDING or ACTIVE one made; both sides become members |
| Chats.GetOrCreateIdempotent | server/src/chat.js:4-88 | asking again for the pair returns the same chat and adds none |
| Chats.FinishedChatIsNotReused | server/src/chat.js:11-17 | a DECLINED or CLOSED chat is never handed out again |
| Chats.CreateChatMessage | server/src/chat.js:99-113 | one message is appended and the chat's last-message time set |
| Chats.AppendSystemMessage | server/src/chat.js:138-140 | a message from `system` whose meta carries `system: true` |
| Chats.UpdateChatStatus | server/src/chat.js:115-120 | the status is set whatever it was; an unknown id changes nothing |
| Chats.FetchMembers | server/src/chat.js:127-136 | exactly the chat's membership rows: every row returned is a row of the table for the chat, and each of the chat's rows is returned as often as it is stored |
| Chats.FirstInChatFetched | server/src/chat.js:127-136 | the first fetched member with a role is the chat's first such row in the table |
| Chats.HolderIsFound | server/src/chat.js:4-88 | a chat just returned has a HOLDER member |
| Vault.Utf8 | server/src/security.js:21 | the UTF-8 encoding is at least as long as the UTF-16 length, equal exactly for ASCII |
| Vault.KeyFromText | server/src/security.js:7-35 | hex text gives a 32-byte key; a key is never shorter than 32 bytes, and a longer one comes only from 32 UTF-16 units that are not all ASCII, taken as their UTF-8 bytes |
| Vault.ResolveSecretKey | server/src/security.js:7-35 | no key for a missing or empty setting; otherwise the trimmed text's key |
| Vault.Base64KeyLength | server/src/security.js:24-27 | base64 text decodes to 32 bytes exactly when 43 alphabet characters precede the first `=` |
| Vault.NonAsciiKeyIsTooLong | server/src/security.js:20-22 | a 32-unit non-ASCII key is accepted with more than 32 bytes |
| Vault.Utf16OfNarrow | server/src/security.js:20 | below U+10000 the UTF-16 length `length` counts is the number of characters |
| Vault.AccentedKeyBreaksEncryption | server/src/security.js:20-21 | thirty-one letters and an `é` are accepted as a 33-byte key, under which encryption always fails, while the intended reading encrypts |
| Vault.KeyFromTextIntended | server/src/security.js:7-35 | the corrected reading counts raw text in UTF-8 bytes, so every accepted key has 32 bytes |
| Vault.ResolveSecretKeyIntended | server/src/security.js:7-35 | with the corrected reading every encryption succeeds |
| Vault.EncryptSecret | server/src/security.js:47-66 | plain without a key, sealed with a 32-byte key, and an error with a key of another length |
| Vault.DecryptSecret | server/src/security.js:72-97 | every failing branch reads as the empty string |
| Vault.EncryptDecryptRoundTrip | server/src/security.js:47-97 | what is sealed reads back, with no key or with the same 32-byte key |
| Vault.SealedReadsEmptyWithoutKey | server/src/security.js:72-80 | without the key a sealed secret reads as empty |
| Vault.PlainReadableWithKey | server/src/security.js:72-84 | a plain record stays readable once a key is set |
| Vault.NormalizeSecretEntry | server/src/security.js:99-123 | a trimmed non-empty answer with a trimmed question, or nothing |
| Vault.EncryptSecrets | server/src/security.js:37-45 | every usable entry in order, each under its own IV; one failure fails the whole call |
| Vault.SecretsRoundTrip | server/src/security.js:37-123 | every answer handed in reads back, and every question is stored in clear |
| Users.FindByMaxId | server/src/users.js:15-18 | the row found carries the id and no earlier row does; nothing is found only when no row does |
| Users.EnsureUser | server/src/users.js:8-41 | a missing id is an error; a known account is reused, taking a given phone; an unknown one is appended; other rows and unique ids are kept |
| Users.EnsureUserStable | server/src/users.js:8-41 | asking again for the account returns the same id and adds no row |
| Users.NormalizePhone | server/src/users.js:57-75 | eleven digits starting 8 or 7, or ten digits, become a `+7` number; the rest is refused |
| Users.NormalizePhoneIdempotent | server/src/users.js:57-75 | a normalised number normalises to itself |
| Users.UpsertUserContact | server/src/users.js:43-55 | with an id and a valid number the account holds the normalised number; otherwise nothing changes; ids stay unique |
| Users.FetchContact | server/src/fsm.js:2807-2812 | the account row when the id is present and known |
| Matching.TimePoints | server/src/matching.js:6-9 | 20 points, one fewer per six hours apart, never below zero |
| Matching.DistancePoints | server/src/matching.js:10-14 | 30, 20 or 10 points by distance band, none for a distance that is not a number |
| Matching.WordsAtSeparator | server/src/matching.js:20 | a separator splits the words in two |
| Matching.Intersect | server/src/matching.js:21 | the elements of the second list that occur in the first, repetitions kept |
| Matching.Score | server/src/matching.js:1-19 | a score exists exactly when both dates are valid (NaN otherwise); it lies in 0..100, and at most 75 across categories |
| Matching.ScoreFallsWithTime | server/src/matching.js:6-9 | moving the events apart never raises the score |
| Matching.ScoreFallsWithDistance | server/src/matching.js:10-14 | moving the listings apart never raises the score |
| Matching.ScoreIsAsymmetric | server/src/matching.js:15-16 | the score is not symmetric: a one-cat lost title against a two-cat found title scores differently from the swap |
| Matching.YoSplitsWords | server/src/matching.js:20 | `ё` is not a word character |
| Matching.Shortlist | server/src/fsm.js:4258-4283 | at most three strong candidates from the rows, in descending score, as many as there are strong ones up to three |
| Matching.ShortlistIsTop | server/src/fsm.js:4258-4283 | no strong candidate is left out for a weaker one |
| Sorting.SortBy | server/src/fsm.js:4270-4275 | the result is sorted by the key and is a permutation of the input |
| Sorting.TakeIsTop | server/src/fsm.js:4276-4283 | nothing left out of a sorted prefix ranks before what was kept |
| Categories.NormalizeWith | client/src/utils/categories.js:29-35 | a missing or empty id passes through; otherwise the lower-cased id, replaced by its alias target |
| Categories.CanonicalIsNormal | server/src/fsm.js:153-176 | a canonical id normalises to itself and has a questionnaire |
| Categories.ServerAliasTargetsAreCanonical | server/src/fsm.js:163-176 | every server alias points at a canonical id, which no alias renames again |
| Categories.ClientAliasTargetsAreCanonical | client/src/utils/categories.js:16-27 | every mini-app alias points at a canonical id, and the server table agrees on every mini-app key |
| Categories.NormalizersAgree | client/src/utils/categories.js:29-35 | the two normalisers agree on every input |
| Categories.NormalizeIdempotent | server/src/fsm.js:378-384 | normalising twice is normalising once |
| Categories.OptionOf | server/src/fsm.js:386-389 | the picker entry of the normalised id, if any |
| Categories.Meta | client/src/utils/categories.js:37-40 | the picker entry, or an "other" entry carrying the id |
| Categories.AliasesHaveOptions | server/src/fsm.js:163-176 | every alias, in any letter case, has a picker entry |
| Categories.FieldsOf | server/src/fsm.js:3490-3496 | the questionnaire of the normalised category: non-empty exactly for a canonical id, with distinct non-empty keys |
| Categories.FieldSet | server/src/fsm.js:177-374 | a questionnaire is non-empty exactly for a canonical id and has no blank key |
| Categories.FieldOf | server/src/fsm.js:3498-3503 | the questionnaire's field with the key |
| Geo.RoundCoordinate | server/src/fsm.js:4050-4052 | the rounded value is within half a step of the input, a tie going up |
| Geo.GeneralizeLocation | server/src/fsm.js:3996-4048 | the original point is kept; the public point is exact or within half a grid step on the flow and mode's grid |
| Geo.FinestGridIsUnused | server/src/fsm.js:3996-4048 | a find is always blurred, only a find gets the coarsest grid, and an exactly placed loss is published as given |
| Display.FormatListingTitle | server/src/fsm.js:2996-3006 | a placeholder for a blank title; a short title as trimmed; a long one cut with an ellipsis |
| Display.FormatListingTitleSettles | server/src/fsm.js:2996-3006 | formatting a formatted title changes nothing, except a whitespace-only title, which formats to the empty string and then to the placeholder |
| Display.TruncateText | server/src/fsm.js:4721-4727 | the trimmed text when it fits, otherwise cut with an ellipsis within the limit |
| Display.TruncateTextIdempotent | server/src/fsm.js:4721-4727 | truncating twice is truncating once |
| Display.MaskPhone | server/src/fsm.js:2840-2848 | only `*`, never fewer than eight, and one per digit when there are at least eight |
| Display.MaskRevealsOnlyLength | server/src/fsm.js:2840-2848 | numbers with the same digit count look the same, and no digit shows |
| Html.EscapeHtml | client/src/pages/Map.jsx:9-16 | the escaped text holds no markup character, and unescaping it gives the input back |
| Html.EscapeIsOnePass | client/src/pages/Map.jsx:9-16 | the five chained replacements equal one entity-per-character pass |
| Html.UnescapeOnePass | client/src/pages/Map.jsx:9-16 | decoding an escaped string gives the original back |
| Html.EscapePlainText | client/src/pages/Map.jsx:9-16 | text without special characters is unchanged |
| Store.SaveRecord | server/src/fsm.js:4366-4378 | the record is read back for the user, and other users' sessions and every other table are untouched |
| Store.SaveSettled | server/src/fsm.js:4447-4487 | nothing to save changes nothing; a saved record reads back, and only the user's session changes |
| Store.SaveThenFetch | server/src/fsm.js:4349-4382 | a save is read back until the next save or clear |
| Store.ClearRecord | server/src/fsm.js:4380-4382 | the user has no session and no one else's changes |

## Left out

- Replies, keyboards, intro texts and every other message sent to the user; only the stored state is modelled.
- The SQL layer: tables are sequences and an id is a row's position, not a random UUID string. The JavaScript falsiness of ids is not modelled, so an id of 0 is a valid id in `Notifications.Create` and `Notifications.Upsert` where the source would treat an empty id as missing.
- Chats.FindOpen: `LIMIT 1` without `ORDER BY` returns whichever matching row the database picks; the model takes the first in table order, and its contract states only that the chat found is open for the pair, not which one.
- Chats.FetchMembers: the query has no `ORDER BY`, so the database may return the members in any order; the model returns them in table order, and `Chats.FirstInChatFetched`, with every `participants.find` built on it, relies on that order.
- Users.FindByMaxId: `LIMIT 1` without `ORDER BY` is modelled as the first matching row in table order.
- Notifications.Stamped: `created_at` has one-second resolution in the database; the model stamps rows with a strictly increasing clock, so ties in `ORDER BY created_at DESC` are decided by position.
- Text.LowerChar: lower-cases only A-Z, А-Я and Ѐ-Џ; JavaScript's `toLowerCase` covers all of Unicode (the Kelvin sign, for one, becomes `k` in JavaScript).
- Matching.Score: the distance in kilometres and the two dates are inputs; the great-circle `haversine` distance and the `new Date` parsing are not modelled: a date arrives as milliseconds or as an invalid date, a distance as kilometres or `NaN`; floating point is not modelled.
- Geo.GeneralizeLocation: rounding is over exact reals; floating-point rounding is not modelled.
- Display.FormatListingTitle: lengths and cuts count code points, where `.length` and `.slice` count UTF-16 code units; a title of astral characters is cut at a different place.
- Display.TruncateText: lengths and cuts count code points, not UTF-16 code units.
- Wizard.LocationMessage: the transit route (200) and the location note (500) are cut after that many code points, where `.slice` counts UTF-16 code units; a note with characters outside the Basic Multilingual Plane is cut later in the model, and the source's cut can end in half a surrogate pair, which a Dafny string cannot hold.
- Dispatch.StepMessage: the my-listings steps (list, edit menu, title, description, category, date, location, photos) are not modelled; a message there leaves the world unchanged in the model.
- Dispatch.StepCallback: the buttons of the volunteer list (refresh, preview, accept, back) and of the my-listings steps are not modelled; the contract promises nothing about them.
- Dispatch.HandleMessage: with a shared contact the contract states only that a cancel word clears the session; routing after the shared-contact handler is not restated.
- `handleShowListingAction` and the volunteer listing queries only read and reply; they are left out.
- `parseDateTimeInput` is not modelled: the date read from a message is the `when` parameter.
- Photo and location attachment extraction is not modelled: the attachments and the shared point are parameters of the message.
- The matching SQL query of `findPotentialMatches` is not modelled: the candidates it returns are a parameter; only the shortlist step is.
- Caught errors: the dispatchers' `try`/`catch` is modelled only for an unknown sender; a failing database call is not.
- The cipher (AES-256-GCM) is a parameter: a pair of functions `seal` and `open`; IVs are a parameter too.
- The web map other than `escapeHtml`, the mini-app, polling, webhooks, cron and migrations are not part of this model.

## Findings

| source | as written | input that shows it | evidently intended | confidence | as-written member | corrected member |
|---|---|---|---|---|---|---|
| server/src/fsm.js:2679-2722 | `finalizeContactExchange` refuses only a missing or CLOSED chat, and `handleOwnerShareContactAction` refuses only PENDING and CLOSED | a DECLINED chat whose claimant has a phone and shares the contact: the chat is closed and both contacts are revealed | a chat the holder declined is never closed and its contacts are never revealed | medium, not executed | Owner.FinalizeAsWritten | Owner.Finalize |
| server/src/fsm.js:2363-2416 | the share button reaches the exchange on a DECLINED chat | the claimant of a DECLINED chat presses "share contact" while having a phone on file | a DECLINED chat is refused like a CLOSED one | medium, not executed | Decision.ShareContact | Decision.ShareContactIntended |
| server/src/fsm.js:2630-2677 | a shared phone finalises every chat of a waiting OWNER_APPROVED row, DECLINED ones included | a contact request without a phone, then a decline, then a shared phone | DECLINED chats keep their status | medium, not executed | Decision.ContactShareEvent | Decision.ContactShareEventIntended |
| server/src/security.js:20-21 | raw text is taken as the key when `trimmed.length === 32`, which counts UTF-16 units | a 32-character key with one `é`: 33 UTF-8 bytes, so every later `createCipheriv` throws | raw text is taken when its UTF-8 encoding is 32 bytes | high, not executed | Vault.AccentedKeyBreaksEncryption | Vault.ResolveSecretKeyIntended |
