# Job application tracker: the form, list, profile, login and confirmation logic

This project models, in Dafny, the sequential logic of a React
job-application tracker: the add/edit job form, the dashboard's search
filter and delete, the profile form's validators and save, the login form
and the credential lookup behind it, and the `useConfirm` hook that turns a
yes/no dialog into an awaited boolean. Rendering, routing, HTTP and
timing are abstracted away: a confirmation's answer, the outcome of an
awaited store request, the fetched user collection, `Date.now()` and
today's date are all inputs of the pure functions that model each handler.

Modules, one per source file or shared concern:

- `Text` (`text.dfy`): `trim()` over the ECMAScript whitespace set,
  ASCII `toLowerCase()`, and `includes()`.
- `Patterns` (`patterns.dfy`): the phone pattern `/^0\d{9}$/` and the
  e-mail pattern `/^.{3,}@.+\..+$/` as scanners, each proved equal to a
  declarative description of the strings it accepts. Like the source
  patterns, which have no `u` flag, they count UTF-16 code units.
- `Seqs` (`seqs.dfy`): `Array.prototype.filter` and order-preserving
  subsequences.
- `Records` (`records.dfy`): loosely typed user objects (string or null
  properties) and the `{ ...a, ...b }` shallow merge.
- `Jobs` (`jobs.dfy`): job records, ids (number or string, compared with
  `===`), store requests, replace-by-id and remove-by-id.
- `AddJob`, `Dashboard`, `Profile`, `LoginPage` (`addjob.dfy`,
  `dashboard.dfy`, `profile.dfy`, `login.dfy`): one module per page.
- `Confirm` (`confirm.dfy`): the confirmation hook as a state machine over
  events (request, accept, decline, dismiss), with each created promise
  identified by a ticket.
- `Auth` (`auth.dfy`): the `login` lookup in the job API module.

## Behaviour worth knowing

- A new job gets the status chosen in the form, "Applied" by default. It carries no owner.
- `createJob` and `updateJob` are not awaited. The record is appended or replaced in the local list at once, and a store failure never reaches the page.
- Editing a job keeps its `id` and `applied_date`; every other form field is written. No permission check exists in the code.
- A second `confirm(...)` before the first is answered replaces the dialog's handlers. The first promise is then never resolved (`Confirm.SecondRequestOrphansFirst`).
- `closeConfirm` closes the dialog without resolving the pending promise (`Confirm.DismissThenAnswer`).

## Model

| member | source | states |
|---|---|---|
| Text.Trim | my-project/src/pages/AddJob.jsx:54-60 | `trim()` returns the slice left after removing the maximal whitespace prefix and suffix: what remains neither starts nor ends with whitespace, and everything removed is whitespace |
| Text.BlankIffAllWhitespace | my-project/src/pages/AddJob.jsx:54-60 | `!s.trim()` holds exactly when every character of `s` is whitespace |
| Text.Lower | my-project/src/pages/Dashboard.jsx:17-21 | lowercasing keeps the length, moves each ASCII capital to its small letter, keeps every other character, and leaves no ASCII capital |
| Text.LowerIdempotent | my-project/src/pages/Dashboard.jsx:17-21 | lowercasing twice equals lowercasing once, and leaves no ASCII capital |
| Text.Contains | my-project/src/pages/Dashboard.jsx:17-18 | `includes` is true exactly when the needle occurs at some index of the haystack |
| Text.ContainsEmpty | my-project/src/pages/Dashboard.jsx:16-18 | every string includes the empty search term |
| Patterns.MatchDigits | my-project/src/pages/Profile.jsx:92 | `\d{n}$` matches exactly the strings of length n made only of ASCII digits |
| Patterns.ValidPhone | my-project/src/pages/Profile.jsx:91-94 | a phone number is valid iff it has ten characters, starts with 0 and is all ASCII digits |
| Patterns.EmailScanIffShape | my-project/src/pages/Profile.jsx:96-99 | scanning for the first `@` with three code units before it, then a `.` with a character on each side, accepts exactly the strings the pattern describes |
| Patterns.ValidEmail | my-project/src/pages/Profile.jsx:96-99 | an e-mail is valid iff it has no line terminator, an `@` at index i with at least three UTF-16 code units before it, and a `.` at index j with i+1 < j < length-1 |
| Patterns.ExampleEmailsAccepted | my-project/src/pages/Profile.jsx:97 | an address with two `@`, and one whose prefix is an emoji (two code units) plus one letter, are accepted |
| Patterns.ExampleEmailsRefused | my-project/src/pages/Profile.jsx:97 | an emoji alone before the `@`, and an empty part between `@` and `.`, are refused |
| Seqs.Filter | my-project/src/pages/Dashboard.jsx:15-23 | `filter` returns exactly the elements the callback accepts, as many as it accepts |
| Seqs.FilterIsSubsequence | my-project/src/pages/Dashboard.jsx:15-23 | the filtered list is an order-preserving subsequence of its input |
| Records.Merge | my-project/src/pages/Profile.jsx:57 | the spread merge has both key sets; the second object's values win and the first's survive where the second has none |
| Jobs.ReplaceById | my-project/src/pages/AddJob.jsx:96 | replace-by-id keeps length and order: jobs with the id become the new record, all others are unchanged |
| Jobs.RemoveById | my-project/src/pages/Dashboard.jsx:42 | remove-by-id keeps exactly the jobs whose id differs, and drops one entry per job carrying the id |
| Jobs.RemoveByIdKeepsOrder | my-project/src/pages/Dashboard.jsx:42 | the remaining jobs keep their original order |
| Jobs.RemoveAfterReplace | my-project/src/pages/AddJob.jsx:96 | deleting an edited job leaves the same list as deleting it unedited |
| AddJob.LoadForm | my-project/src/pages/AddJob.jsx:18-33 | without an edited job the form holds the defaults; with one, saving the loaded form untouched writes back the same job, missing notes becoming "" |
| AddJob.HandleChange | my-project/src/pages/AddJob.jsx:36-48 | changing a field sets only that field and clears only that field's message |
| AddJob.Validate | my-project/src/pages/AddJob.jsx:51-64 | a company (position) message is produced iff company (position) trims to empty, with the source's message texts |
| AddJob.ValidIffFilledIn | my-project/src/pages/AddJob.jsx:51-64 | the form is valid iff neither company nor position is all whitespace |
| AddJob.BuildRecord | my-project/src/pages/AddJob.jsx:85-91 | on edit the saved id and applied date come from the original job; on create they are the timestamp and today; other fields come from the form |
| AddJob.Submit | my-project/src/pages/AddJob.jsx:66-116 | invalid: nothing asked, sent or changed; declined edit: nothing sent or changed; confirmed edit: update request and in-place replacement; create: no question, create request and append; every save resets the form and leaves edit mode |
| AddJob.CreateIgnoresAnswer | my-project/src/pages/AddJob.jsx:73-83 | creating a job never depends on a confirmation answer |
| AddJob.HasChanges | my-project/src/pages/AddJob.jsx:119-127 | in edit mode there are no changes iff the form equals what was loaded from the job (missing notes read as ""); in create mode iff company, position and notes are all whitespace and the status is "Applied" |
| AddJob.LoadedFormUnchanged | my-project/src/pages/AddJob.jsx:17-34 | a form just loaded (for edit or create) never counts as changed |
| AddJob.Cancel | my-project/src/pages/AddJob.jsx:118-149 | a discard question is asked iff the form has changes; declining keeps everything; otherwise the form resets and edit mode ends; no store request, list untouched |
| AddJob.CancelAfterMountAsksNothing | my-project/src/pages/AddJob.jsx:118-139 | cancelling an untouched form leaves without asking |
| Dashboard.FilteredJobs | my-project/src/pages/Dashboard.jsx:14-24 | a job is shown iff lowercased position or company includes the lowercased term and the status filter is empty or equal ignoring case |
| Dashboard.FilteredKeepsOrder | my-project/src/pages/Dashboard.jsx:14-24 | the shown jobs are an order-preserving subsequence of all jobs |
| Dashboard.NoFilterShowsAll | my-project/src/pages/Dashboard.jsx:16-21 | with empty term and empty status filter every job is shown, in order |
| Dashboard.FilterIgnoresCase | my-project/src/pages/Dashboard.jsx:16-21 | lowercasing the term or status filter beforehand changes nothing |
| Dashboard.Delete | my-project/src/pages/Dashboard.jsx:31-49 | always asks; declined: no request, list unchanged; confirmed: delete request; failed: list unchanged; succeeded: exactly the jobs with another id remain, in order |
| Profile.FromUser | my-project/src/pages/Profile.jsx:24-37 | each form field takes the user's value when it is a non-empty string, else "" (the role: "USER") |
| Profile.CanSave | my-project/src/pages/Profile.jsx:101-106 | saving is allowed iff the name is not all whitespace, the e-mail has the accepted shape, and the phone is empty or has the accepted shape |
| Profile.FreshFormNeedsNameAndEmail | my-project/src/pages/Profile.jsx:101-103 | a form filled from a user lacking a name or an e-mail cannot be saved |
| Profile.Cancel | my-project/src/pages/Profile.jsx:70-82 | cancel resets every field from the user with its fallback and leaves editing mode |
| Profile.ChangeField | my-project/src/pages/Profile.jsx:84-89 | an image change sets only the named field |
| Profile.Save | my-project/src/pages/Profile.jsx:53-68 | no user: no request; failure: nothing changes; success: the user is the old one overridden key by key by the answer, and editing ends |
| Profile.SavedFormPrefersResponse | my-project/src/pages/Profile.jsx:56-58 | after a save the form shows the answer's non-empty values and keeps the old user's values for fields the answer lacks |
| Profile.EchoedSaveKeepsEdits | my-project/src/pages/Profile.jsx:53-61 | a save whose answer echoes the request keeps the typed values, empty ones falling back to their defaults |
| Confirm.InitialIsClosed | my-project/src/hooks/useConfirm.js:4-11 | the initial dialog is closed with empty texts, kind "danger" and no handlers |
| Confirm.Request | my-project/src/hooks/useConfirm.js:13-30 | a request opens the dialog with the given texts and kind (default "danger") and handlers for a new, unresolved promise |
| Confirm.Settle | my-project/src/hooks/useConfirm.js:20-27 | accept/cancel change only `isOpen` and resolve the pending promise with true/false if it is unresolved; no other promise changes |
| Confirm.Close | my-project/src/hooks/useConfirm.js:32-34 | closing changes only `isOpen` and resolves nothing |
| Confirm.RunPreservesValid | my-project/src/hooks/useConfirm.js:13-34 | every sequence of events only refers to promises that were created |
| Confirm.SettledIsFinal | my-project/src/hooks/useConfirm.js:14-29 | a resolved promise keeps its value whatever happens later |
| Confirm.OrphanNeverSettles | my-project/src/hooks/useConfirm.js:13-29 | a pending promise no longer held by the dialog's handlers is never resolved |
| Confirm.SecondRequestOrphansFirst | my-project/src/hooks/useConfirm.js:13-29 | two requests in a row leave the first promise unresolved forever |
| Confirm.DismissThenAnswer | my-project/src/hooks/useConfirm.js:32-34 | dismissing leaves the promise pending, and a later answer still resolves it |
| Confirm.AskThenAnswer | my-project/src/hooks/useConfirm.js:13-27 | request then accept (decline) resolves the first promise to true (false) and keeps the dialog's texts |
| Auth.Matches | my-project/src/api/JobAPI.js:34-35 | a record matches iff it has `user_name` and `password` properties holding exactly the submitted strings |
| Auth.FindFrom | my-project/src/api/JobAPI.js:32-36 | the search returns the first index whose user_name and password equal the credentials, or none if no record matches |
| Auth.NormalRole | my-project/src/api/JobAPI.js:41 | the role is "ADMIN" iff the record's role is the string "ADMIN", otherwise "USER" |
| Auth.Login | my-project/src/api/JobAPI.js:28-67 | success iff the fetch succeeded and some record matches; then the first match gives the role, the fixed token and the copied profile; failed fetch and no match both give the failure shape |
| Auth.FirstMatchWins | my-project/src/api/JobAPI.js:32-51 | the first matching record decides the role and profile |
| Auth.MatchUnaffectedByLaterRecords | my-project/src/api/JobAPI.js:32-36 | records appended after a match never change a successful login |
| LoginPage.HandleChange | my-project/src/pages/Login.jsx:17-28 | editing a field sets only that field and clears only its message |
| LoginPage.Validate | my-project/src/pages/Login.jsx:30-40 | a username (password) message is produced iff it trims to empty |
| LoginPage.ValidIffFilledIn | my-project/src/pages/Login.jsx:30-40 | the form is valid iff neither field is all whitespace |
| LoginPage.Submit | my-project/src/pages/Login.jsx:42-72 | invalid: no lookup; valid: a session iff the lookup grants access, holding the typed username with the looked-up role and token, and the page leaves exactly then; refused: the same two messages |
| LoginPage.SessionIffRecord | my-project/src/pages/Login.jsx:49-58 | a valid form logs in iff the collection has a record with the typed, untrimmed credentials |
| LoginPage.SessionRoleFromRecord | my-project/src/pages/Login.jsx:51-56 | the session is ADMIN iff the first matching record's role is "ADMIN" |
| LoginPage.RefusalsLookAlike | my-project/src/pages/Login.jsx:59-64 | all refused logins show identical messages, whatever was wrong |

## Left out

- HTTP: `fetchJobs`, `createJob`, `updateJob`, `deleteJob` and `userAPI.js` are remote calls. The model records the request each handler issues. Where the source awaits a request, its outcome is an input.
- Role, ownership and status permission rules: none exist in the modelled code, and job records carry no owner.
- Presentational components, routing, effects in `App.jsx`, theme, toasts, console logging and `localStorage`: none of them hold logic these pages depend on. `navigate("/")` appears as the `leaves` flag of the add/edit form's steps and of a login submission.
- The Excel export button: it calls a foreign library.
- `Date.now()` and `new Date()`: the timestamp and today's date are parameters.
- Promise scheduling: a handler that awaits a confirmation takes the answer as a parameter, and `Confirm` models the hook on its own.
- The `isLoading`/`loading` flags and the profile's edit-mode toggle button: they only disable or reveal controls.
- The `catch` branches in `AddJob.jsx` and `Login.jsx`: nothing in their `try` blocks can throw, because the store calls are not awaited and `login` catches its own errors.
- The auth context's `login`/`logout`: `my-project/src/context/AuthContext` is not part of this model. A session is the identity value handed to it.
- Text.Lower: only ASCII letters are lowercased. `toLowerCase` also maps non-ASCII capitals, so search and status matching on such text can differ.
- Records.Get: user properties are strings or null only. Numeric and boolean properties are not modelled, and an absent property is treated like `null`.
- Jobs.Job: stored jobs are assumed to have exactly the six properties id, company, position, status, notes and applied_date. An edit builds the saved record from the form fields plus `id` and `applied_date` only, so any other property of the stored job is dropped from the request body and the list entry; the model cannot show that loss.
- Jobs.Job: company, position and status are assumed to be strings, as the filter requires. A stored job missing one of them would make `toLowerCase` throw.
- Patterns.ValidEmail: a JavaScript string may hold a lone surrogate code unit, which a Dafny string cannot. Strings are modelled as well-formed sequences of Unicode scalar values, with each one's UTF-16 width counted where the pattern counts code units.
- Confirm.Settle: calling a handler while it is `null` throws in the source. The model leaves the state unchanged and does not model the exception.
