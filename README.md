# Team member form — Dafny model

This project models the state machine of the `TeamMemberForm` React component
(`src/components/TeamMemberForm.js`). The component collects a team member's
profile in a draft (`formData`: six text fields, a picture and its preview).
On submit it checks that the five required fields are non-empty, waits out a
simulated one-second request, appends a record (the draft plus a generated
`user_…` identifier and a timestamp) to the session list `teamMembers`, resets
the draft and shows a success banner for three seconds. Member cards turn
profile links into absolute URLs.

Layout:

- `wrappers.dfy` — `Option`, standing for JavaScript `null`.
- `text.dfy` — `startsWith`, `substr` and the decimal rendering of a number.
- `user_id.dfy` — `generateUserId`, and a reader that recovers the clock reading from an identifier.
- `links.dfy` — the `startsWith("http")` link normalisation of `MemberCard`.
- `draft.dfy` — the draft, the field names, field update, picture update, the required-field check, the member record.
- `form_model.dfy` — the component state as a value. It has one function per event (`Step`) and the run of a sequence of events (`Run`). Lemmas about whole runs cover append-only growth, one record per accepted click, unique identifiers under a forward-moving clock, and the concrete submission scenarios.
- `team_member_form.dfy` — the component as the class `TeamMemberForm`. Its fields are the state hooks. Each handler is a method that updates them in place and is proved equal to `Step`. The client method `DoubleClickClient` calls the handlers in the order a user would. It fills in the form, clicks submit twice and lets the delay end. It shows that a caller can prove, from the method contracts alone, that one member is added and the form is emptied.

`handleSubmit` is asynchronous. The model splits it at its `await`:

- `BeginSubmit` (event `SubmitClick`) validates the draft and raises `isSubmitting`.
- `CompleteSubmit` (event `SubmitResolve`) runs when the delay ends.
- `ClearSuccess` (event `SuccessTimeout`) is the three-second banner timer.

The button's `disabled={isSubmitting}` is modelled as a guard: a click while a submission is in flight changes nothing.

Three behaviours of the code that the model keeps as written:

- The record is built from the `formData` the handler closed over at the click, not from the draft at the end of the delay. The model keeps that snapshot in `pendingDraft`. Edits typed during the delay do not reach the record, and the reset then discards them.
- Identifiers are not guaranteed unique. They are `"user_" + Date.now() + "_" + <random>`. The model proves uniqueness only under a clock that moves forward between completions (`FormModel.ForwardClockGivesUniqueIds`).
- Each completed submission schedules its own three-second timer. An earlier timer can therefore hide the banner of a later submission early. `successTimers` counts the scheduled timers.

## Model

| member | source | states |
|---|---|---|
| Text.Decimal | src/components/TeamMemberForm.js:41 | the decimal rendering of the clock reading is a non-empty string of digits without leading zeros: it starts with `0` only for zero |
| Text.DecimalRoundTrip | src/components/TeamMemberForm.js:41 | reading the decimal rendering back as a number gives the clock reading again |
| Text.Substr | src/components/TeamMemberForm.js:41 | `substr(2, 9)`: at most nine characters, taken in order from index 2, empty when the string is shorter |
| UserIds.RandomSuffix | src/components/TeamMemberForm.js:41 | the random part of an identifier has as many characters as follow `0.` in the base-36 rendering, up to nine, each taken in order from there |
| UserIds.UserId | src/components/TeamMemberForm.js:41 | every generated identifier starts with `user_` |
| UserIds.UserIdRoundTrip | src/components/TeamMemberForm.js:41 | the clock reading can be recovered from any generated identifier, whatever the random part |
| UserIds.DistinctTimesGiveDistinctIds | src/components/TeamMemberForm.js:41 | identifiers generated at different clock readings differ |
| Links.NormalizeLink | src/components/TeamMemberForm.js:155-157 | the href always starts with `http`; a link starting with `http` is kept unchanged; any other link gets `https://` in front; the link is always a suffix of the href |
| Links.NormalizeLinkIdempotent | src/components/TeamMemberForm.js:155-157 | normalising twice gives the same href as normalising once |
| Links.ProfileHref | src/components/TeamMemberForm.js:152-158 | an empty profile field renders no link; a non-empty one renders exactly the normalised link, which starts with `http` and ends in the field's text |
| Drafts.SetField | src/components/TeamMemberForm.js:44-50 | the named field takes the value verbatim; every other field and the picture are unchanged |
| Drafts.SetPicture | src/components/TeamMemberForm.js:56-61 | picture and preview are set together; every text field is unchanged |
| Drafts.RequiredFieldsExactly | src/components/TeamMemberForm.js:69-75 | the check accepts a draft if and only if every required field (all but the personal website) is non-empty |
| Drafts.OptionalPartsIrrelevant | src/components/TeamMemberForm.js:69-75 | the personal website, the picture and the preview never change the outcome of the check |
| Drafts.SetFieldValidity | src/components/TeamMemberForm.js:44-75 | after editing one field, the draft passes the check iff the new value is non-empty (when the field is required) and every other required field is non-empty |
| FormModel.InitialValid | src/components/TeamMemberForm.js:5-18 | the initial state has an empty draft, an empty list and satisfies the state invariant |
| FormModel.ClickOutcome | src/components/TeamMemberForm.js:69-80 | a click starts a submission iff no submission is in flight and the draft is complete; it is ignored iff a submission is in flight |
| FormModel.Click | src/components/TeamMemberForm.js:67-80 | a refused or disabled click changes no state at all; an accepted one raises `isSubmitting` and captures the current draft, leaving the draft, list and banner alone |
| FormModel.Resolve | src/components/TeamMemberForm.js:82-113 | completion appends one record holding the captured draft, a generated id and the timestamp; earlier records are kept in order; the draft is reset, `isSubmitting` drops and the banner shows |
| FormModel.Timeout | src/components/TeamMemberForm.js:114 | a banner timer hides the banner and touches neither the draft, the list nor the submission flag |
| FormModel.Step | src/components/TeamMemberForm.js:44-114 | no event removes or changes a record; only a completion grows the list, by at most one; every event preserves the state invariant |
| FormModel.Run | src/components/TeamMemberForm.js:16 | over any sequence of events the list only grows, keeping its earlier records, and the invariant holds throughout |
| FormModel.RecordsMatchAcceptedClicks | src/components/TeamMemberForm.js:80-98 | records added plus submissions in flight equal accepted clicks plus the submission in flight at the start |
| FormModel.ClicksWhilePendingIgnored | src/components/TeamMemberForm.js:367 | any number of clicks while a submission is in flight change nothing and are never accepted |
| FormModel.OverlappingSubmitsStartAtMostOne | src/components/TeamMemberForm.js:367 | while no submission completes, whatever edits, uploads, timer events and clicks occur, at most one submission is in flight or started, and the list is unchanged |
| FormModel.OverlappingSubmitsAddAtMostOne | src/components/TeamMemberForm.js:80-98 | the completion ending such a window adds one record per submission in flight or started during it, so never more than one |
| FormModel.DoubleClickAddsOnce | src/components/TeamMemberForm.js:80-98 | click, any number of further clicks, then completion appends exactly one record holding the draft as it was at the click |
| FormModel.RunAppend | src/components/TeamMemberForm.js:16-18 | running two event sequences one after the other is running their concatenation |
| FormModel.IncreasingStampsDistinctIds | src/components/TeamMemberForm.js:41 | a list whose identifiers carry increasing clock readings has no repeated identifier |
| FormModel.ForwardClockKeepsStampsIncreasing | src/components/TeamMemberForm.js:41 | when each completion reads a later clock than the one before, the identifiers' clock readings keep increasing along the list |
| FormModel.ForwardClockGivesUniqueIds | src/components/TeamMemberForm.js:41 | from the initial state, with a clock that moves forward between completions, all identifiers in the list are distinct |
| FormModel.AdaSubmission | src/components/TeamMemberForm.js:5-113 | filling in Ada Lovelace's profile and submitting leaves exactly her record (with a `user_` id and the timestamp) in the list and an empty, idle form |
| FormModel.MissingNameRefused | src/components/TeamMemberForm.js:69-78 | a click with an empty full name reports the missing field and changes nothing |
| FormModel.BlankButNonEmptyAccepted | src/components/TeamMemberForm.js:69-75 | fields made of a single space pass the check and start a submission |
| FormComponent.TeamMemberForm.constructor | src/components/TeamMemberForm.js:5-18 | the hooks start as the empty draft, the empty list and two lowered flags |
| FormComponent.TeamMemberForm.HandleInputChange | src/components/TeamMemberForm.js:44-50 | only the named draft field changes, to the value verbatim; the list and flags are unchanged |
| FormComponent.TeamMemberForm.HandleFileUpload | src/components/TeamMemberForm.js:52-65 | with a file, picture and preview are set together; with none, the draft is unchanged; nothing else changes |
| FormComponent.TeamMemberForm.BeginSubmit | src/components/TeamMemberForm.js:67-80 | a disabled or refused click leaves the whole state as it was; an accepted one raises `isSubmitting` and captures the draft |
| FormComponent.TeamMemberForm.CompleteSubmit | src/components/TeamMemberForm.js:82-113 | the list becomes the old list plus one record of the captured draft, id and timestamp; the draft is reset, `isSubmitting` drops, the banner shows |
| FormComponent.TeamMemberForm.ClearSuccess | src/components/TeamMemberForm.js:114 | the banner is hidden and one timer is consumed; draft, list and submission state are unchanged |

## Left out

- Rendering: the JSX markup, Tailwind classes, icons and the `MemberCard` layout (lines 117-391) are presentation. Only the link expression of `MemberCard` is modelled.
- `FileReader`: decoding the picture is a browser API. Its data URL is a parameter of `HandleFileUpload`, and the event stands for the reader's `onload`. A read that never completes is simply no event.
- Timers: the one-second delay and the three-second banner timer are the explicit events `SubmitResolve` and `SuccessTimeout`. Their durations are not modelled.
- Clock and randomness: `Date.now()`, the base-36 rendering of `Math.random()` and `new Date().toISOString()` are parameters of `CompleteSubmit`. The format of the ISO timestamp is not checked.
- `alert` and `console.log` are I/O. A refused click is reported through the returned `SubmitOutcome` instead of an alert.
- `submitTeamMember` (lines 395-415) is a `fetch` client that the component never calls.
- `predefinedTeams` and `predefinedRoles` only feed input suggestions and are never enforced.
- Field names: `handleInputChange` would accept any `name`. Only the six names the inputs carry are modelled, as the `Field` datatype.
- React's batching of state updates and re-rendering are not modelled. Each handler's updates take effect together, in program order.
- FormModel.ForwardClockGivesUniqueIds: identifier uniqueness is proved only for a clock that moves forward between completions. The source relies on that plus a random suffix and guarantees nothing.
