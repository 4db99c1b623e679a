# SecureVote decision logic in Dafny

SecureVote is a browser polling application whose persistence, authentication
and change notification live in a hosted backend. The little decision logic it
has sits inline in three React components and a store; this project pulls that
logic out as immutable datatypes and pure functions and proves what it does.

- `types.dfy` (module `Types`): the `polls`, `options` and `votes` rows, with a poll carrying its options and each option its votes, as
  the nested select returns them. Timestamps are integers.
- `poll_list.dfy` (module `PollList`): one poll card derived from a snapshot.
  The card covers the per-option tallies, `hasVoted`, `isPollActive`, whether
  results are shown, which buttons are enabled and which option is highlighted.
  The module also covers the list screen and `handleVote`, with the insert's
  answer given as an input.
- `js_string.dfy` (module `JsString`): `String.prototype.trim` with the
  ECMAScript white-space and line-terminator set, which the option filter uses.
- `create_poll.dfy` (module `CreatePoll`): the four validation rules with the
  error keys they raise, and the option filter. It also covers adding,
  removing and editing options, the rows a submit inserts, and `handleSubmit`
  with both inserts' answers given as inputs.
- `auth_store.dfy` (module `AuthStore`): the `(user, isAdmin)` store and its
  three setters.
- `app.dfy` (module `App`): the start-up session read, the auth-change handler
  and its profile lookup, sign-out, and the views gated on the store. It also
  replays histories of provider events.

Network answers (insert results, the profile lookup, the sign-out call) are
parameters. The current time is the parameter `now`. Whatever the backend
stores is a new snapshot handed back to the derivation.

Some behaviour of the code is easy to misread:

- The vote guard in `handleVote` is one marker for the whole list
  (`if (votingInProgress) return`, PollList.tsx:86). Buttons are disabled per
  poll (`votingInProgress === poll.id`). So while a vote on one poll is
  outstanding, another poll's button is enabled, but clicking it does nothing
  (`PollList.GuardIsGlobalNotPerPoll`).
- A vote button is enabled only when the user has not voted, the poll is open
  and no vote on this poll is in flight (PollList.tsx:186).
- The in-flight test is a JavaScript truthiness test, and `PollList.InFlight`
  models it exactly, so an empty id would read as nothing in flight. The
  model's statements about the guard assume poll ids are never empty.
- With a session, the auth-change handler sets the user at once and sets the
  admin flag only when the profile lookup answers; without one it clears both
  at once (App.tsx:45-46). The start-up read likewise ends loading before its
  lookup answers, so when the read is the first thing to reach the store the
  first render after loading shows no create-poll form
  (`App.FirstRenderHasNoCreatePoll`). Nothing orders the read before the
  first auth-change callback, though: if that callback and its lookup answer
  first, the first render already shows the form
  (`App.EarlyAuthChangeShowsFormAtFirstRender`).
- Lookups are not tied to the session that issued them. An admin's lookup that answers after sign-out therefore leaves
  the flag set with nobody signed in. The next non-admin user then sees the
  create-poll form until their own lookup answers
  (`App.LateLookupOutlivesSignOut`). When every lookup answers before the next
  event, the flag never outlives the user (`App.SettledKeepsAdminWithUser`).

## Model

| member | source | states |
|---|---|---|
| PollList.AnyVoteBy | src/components/PollList.tsx:178-180 | the option is highlighted exactly when one of its votes has the signed-in user's id; with no user, never |
| PollList.AnyOptionVotedBy | src/components/PollList.tsx:148-150 | `hasVoted` holds exactly when some vote under some option of the poll has the user's id |
| PollList.Chart | src/components/PollList.tsx:143-146 | one bar per option, in option order, with the option's text and the number of votes in its vote list |
| PollList.OptionViews | src/components/PollList.tsx:177-200 | one button per option: its label, a count shown only when results are visible, the highlight, the shared enabled state |
| PollList.DerivePoll | src/components/PollList.tsx:142-200 | a poll card: `hasVoted` as above, open iff active and `now < endsAt`, results shown iff admin or voted, the chart then being one bar per option with its text and vote count, one button per option labelled with its text, its count shown exactly with the results and equal to the option's vote-list length, highlighted iff one of its votes is the user's, enabled iff not voted, open and this poll not in flight |
| PollList.TallyCountsVoteTable | src/components/PollList.tsx:143-146 | for a well-formed snapshot, an option's tally equals the number of rows of the poll's flat vote table naming that option |
| PollList.TalliesSumToVoteCount | src/components/PollList.tsx:143-146 | the tallies of a poll add up to all of its votes |
| PollList.HasVotedIffVoteTableHasUser | src/components/PollList.tsx:148-150 | `hasVoted` holds exactly when the poll's flat vote table has a row of the user |
| PollList.NoUserHasNotVoted | src/components/PollList.tsx:148-150 | with nobody signed in a card never counts as voted |
| PollList.IsPollActive | src/components/PollList.tsx:152 | an open poll is active, and no poll is open once `now` reaches `endsAt`; the converse is in `PollClosesAtEndsAt` |
| PollList.PollClosesAtEndsAt | src/components/PollList.tsx:152 | a poll is closed from `endsAt` on whatever its flag, closed when inactive, and open while active and before `endsAt` |
| PollList.ResultsVisibilityMonotone | src/components/PollList.tsx:159-199 | results once visible stay visible when the viewer becomes admin or comes to have voted |
| PollList.VotedUserCannotVoteAgain | src/components/PollList.tsx:186 | a user who voted on a poll can click none of its buttons and sees its results |
| PollList.AdminGrantsNoVote | src/components/PollList.tsx:186 | button enablement is the same for admins and non-admins |
| PollList.TalliesDependOnSnapshotOnly | src/components/PollList.tsx:143-146 | counts and chart depend on the snapshot only, not on the viewer, the time or the in-flight marker |
| PollList.RecordedVoteEffects | src/components/PollList.tsx:142-200 | after a vote of the user is stored under option i, the re-derived card shows results, highlights i, disables every button, adds one to i's count and keeps the others |
| PollList.InFlight | src/components/PollList.tsx:86 | the guard fires only with a marker, and never for an empty id, which JavaScript reads as false |
| PollList.HandleVote | src/components/PollList.tsx:80-114 | no insert without a user or while any vote is in flight; otherwise the insert carries poll, option and user id, the marker is the poll during it and cleared after it, `23505` gives "already voted", any other error gives failure, and only success re-fetches |
| PollList.GuardIsGlobalNotPerPoll | src/components/PollList.tsx:80-89 | for every open poll the user has not voted on, with a (non-empty) vote on another poll in flight, each button is enabled and its click is ignored with no insert |
| PollList.GuardIsGlobalExample | src/components/PollList.tsx:80-89 | for example, with poll "a" in flight, Pizza on the open poll "b" is enabled and its click issues no insert |
| PollList.SecondVoteIsAlreadyVoted | src/components/PollList.tsx:97-107 | vote on Pizza is recorded and re-fetched; then Salad's button is disabled, a second insert's `23505` is "already voted" without re-fetch, and counts are 1 and 0 |
| PollList.DeriveAll | src/components/PollList.tsx:142-220 | one card per fetched poll, in fetched order |
| PollList.Screen | src/components/PollList.tsx:116-142 | spinner iff loading with a user, else the error panel iff the fetch failed, else the empty notice iff no polls, else the derived cards of the polls in fetched order |
| JsString.Trim | src/components/CreatePoll.tsx:39 | a string with no white space at either end is returned unchanged; `TrimSpec` characterises the result in general |
| JsString.TrimSpec | src/components/CreatePoll.tsx:39 | `trim` returns the slice between the white space at both ends, and the slice neither starts nor ends with white space |
| JsString.TrimEmptyIffBlank | src/components/CreatePoll.tsx:39 | an option trims to the empty string exactly when every character is white space |
| CreatePoll.FilledOptions | src/components/CreatePoll.tsx:39 | its own contract is only the bound that the filter never lengthens the list; `FilledOptionsAreFilled`, `FilledOptionsCountsNonBlank`, `FilledEntryPosition` and `FilledEntriesKeepOrder` characterise it |
| CreatePoll.FilledOptionsCountsNonBlank | src/components/CreatePoll.tsx:39 | the filtered list has exactly as many entries as the form has non-blank options |
| CreatePoll.FilledOptionsAreFilled | src/components/CreatePoll.tsx:39 | every entry the filter keeps has a non-empty trim |
| CreatePoll.FilledOptionsAppend | src/components/CreatePoll.tsx:76-77 | filtering a concatenation is concatenating the filtered parts |
| CreatePoll.FilledOptionsSingle | src/components/CreatePoll.tsx:77 | a single option is kept untrimmed iff its trim is non-empty |
| CreatePoll.FilledEntryPosition | src/components/CreatePoll.tsx:76-81 | a filled option appears, untrimmed, in the filtered list at the position equal to the number of filled options before it |
| CreatePoll.FilledEntriesKeepOrder | src/components/CreatePoll.tsx:76-81 | a filled option earlier in the form lands earlier in the filtered list |
| CreatePoll.Issues | src/components/CreatePoll.tsx:8-15 | the reported keys: title iff shorter than 3, description iff shorter than 10, end time iff absent or not after `now`, options iff fewer than 2 filtered entries |
| CreatePoll.NoOptionItemIssues | src/components/CreatePoll.tsx:14 | the per-entry length rule never fires after the filter |
| CreatePoll.Validate | src/components/CreatePoll.tsx:33-54 | a form that validates has title and description long enough, an end time after `now` and at least two filtered entries; the converse is in `ValidateIffRules` |
| CreatePoll.ValidateIffRules | src/components/CreatePoll.tsx:33-42 | validation passes iff title length at least 3, description length at least 10 (untrimmed), end time strictly after `now`, and at least 2 non-blank options |
| CreatePoll.BlankOptionsAlwaysRejected | src/components/CreatePoll.tsx:14 | options `""` and `" "` fail validation whatever the other fields |
| CreatePoll.LunchFormValidates | src/components/CreatePoll.tsx:8-15 | the form "Lunch?" / "Pick your favorite lunch spot" / tomorrow / Pizza, Salad validates |
| CreatePoll.AddOption | src/components/CreatePoll.tsx:26 | one empty entry appended, the others unchanged |
| CreatePoll.DropIndex | src/components/CreatePoll.tsx:29 | removing by index yields the list without that entry, or the same list when the index is out of range |
| CreatePoll.RemoveOption | src/components/CreatePoll.tsx:27-31 | with more than two entries exactly entry i goes and the rest shift down; with two it is a no-op; at least two stay |
| CreatePoll.SetOptionText | src/components/CreatePoll.tsx:158-161 | editing entry i changes that entry only |
| CreatePoll.OptionsNeverBelowTwo | src/components/CreatePoll.tsx:26-31 | from any list of at least two entries, no sequence of edits goes below two |
| CreatePoll.InitialOptionsNeverBelowTwo | src/components/CreatePoll.tsx:21 | starting from `['', '']` the option list always has at least two entries |
| CreatePoll.OptionsToInsert | src/components/CreatePoll.tsx:76-81 | the option rows are the filtered entries, untrimmed and in order, each tied to the new poll id |
| CreatePoll.HandleSubmit | src/components/CreatePoll.tsx:56-100 | no write without a user, while submitting, or when invalid; otherwise the active poll row first, then at least two option rows only if it succeeded; success clears the form, failure keeps it, and the submitting flag ends false |
| AuthStore.SetUser | src/store/authStore.ts:15 | sets the user and leaves the admin flag unchanged |
| AuthStore.SetIsAdmin | src/store/authStore.ts:16 | sets the admin flag and leaves the user unchanged |
| AuthStore.Reset | src/store/authStore.ts:17 | from any state, no user and not admin |
| AuthStore.RunAppend | src/store/authStore.ts:12-18 | running one more call applies it to the state reached so far |
| AuthStore.RunIsLastWriteWins | src/store/authStore.ts:12-18 | after any sequence of calls each field is what its last writer left, `reset` clearing both, else the starting value |
| AuthStore.ResetIsIdempotent | src/store/authStore.ts:17 | reset gives the initial store, and resetting twice equals resetting once |
| AuthStore.SettersCommute | src/store/authStore.ts:15-16 | setting the user and setting the flag commute |
| App.AdminFromLookup | src/App.tsx:43 | the looked-up flag is true exactly when a profile row was returned with `is_admin` true |
| App.OnAuthStateChange | src/App.tsx:34-47 | the user follows the session; without a session the flag is cleared, with one it is kept until the lookup answers |
| App.OnProfileLookup | src/App.tsx:42-44 | the lookup's answer sets the flag (true only for a returned admin row) and leaves the user alone |
| App.AuthChangeSettled | src/App.tsx:34-47 | once its lookup has answered, an auth change leaves the session's user, and admin exactly when a session exists and its profile row says admin |
| App.Startup | src/App.tsx:17-30 | once its lookup has answered, start-up leaves the session's user and is admin only with a session |
| App.ReadSession | src/App.tsx:17-18 | the start-up read sets the session's user on whatever store it meets and leaves the flag as it finds it |
| App.StartupRead | src/App.tsx:17-29 | when the read is the first thing to reach the store, loading ends with the session's user set and the flag still false |
| App.StartupIsReadThenLookup | src/App.tsx:17-30 | the settled start-up store is the read followed, with a session, by its lookup's answer, and the read alone without one |
| App.FirstRenderHasNoCreatePoll | src/App.tsx:17-29 | on a store without the flag, the first render after loading shows the dashboard without the create-poll form with a session, the sign-in panel without one |
| App.EarlyAuthChangeShowsFormAtFirstRender | src/App.tsx:17-46 | when an admin's auth change and lookup answer before the start-up read, the first render after loading already shows the create-poll form |
| App.StartupThenSettledKeepsAdminWithUser | src/App.tsx:17-62 | from the start-up read, when every lookup answers right after the step that issued it, the admin flag is never set without a user |
| App.StartupAgreesWithAuthChange | src/App.tsx:17-47 | when the read meets the initial store, the start-up read gives the same store as an auth change from it |
| App.HandleSignOut | src/App.tsx:53-62 | the store is reset only when the provider call completes without throwing, and is unchanged otherwise |
| App.Main | src/App.tsx:111-124 | the sign-in panel iff nobody is signed in, else the dashboard, whose create-poll form is present iff admin |
| App.Nav | src/App.tsx:64-106 | no bar while the start-up read runs; afterwards the account block iff a user is signed in, the admin badge iff signed in and admin |
| App.CreatePollOnlyForSignedInAdmins | src/App.tsx:111-124 | the create-poll form is shown only to a signed-in admin; the sign-in panel only with no user |
| App.SettledKeepsAdminWithUser | src/App.tsx:34-62 | when every lookup answers right after its auth change, the admin flag is never set without a user |
| App.LateLookupOutlivesSignOut | src/App.tsx:34-48 | a lookup answering after sign-out leaves the flag set with no user, and the next user sees the create-poll form until their own lookup answers |

## Left out

- Every backend call (the nested fetch and its ordering by creation time, the
  inserts, the realtime channel and its unsubscribe) is network I/O. Their
  answers are inputs (`InsertResult`, `PollInsertResult`, `ProfileLookup`,
  `SignOutResult`). A re-fetch is a flag plus a new snapshot.
- The one-vote-per-user uniqueness constraint is enforced by the database.
  The client only reacts to code `23505`.
- The poll insert followed by the options insert can leave a poll without
  options. There is no client rollback to model, so `HandleSubmit` only
  reports the failure and keeps the form.
- Date parsing, `toISOString` and `toLocaleString` are left out. Times are
  integers. The form's end time is `Option<int>`, where `None` stands for the
  empty or unparsable input, whose invalid `Date` compares false.
- Issues: counts string lengths in Unicode scalar values. JavaScript counts
  UTF-16 code units, so a title with characters outside the Basic
  Multilingual Plane is longer there.
- The zod library and its messages are left out. Validation reports the keys
  of the error map (`title`, `description`, `endsAt`, `options`,
  `options.<k>`), not the message texts.
- Toasts, console logging, rendering, the chart widget and icons are left
  out. Outcomes are datatypes such as `VoteOutcome` and `SubmitOutcome`.
- React effect machinery is left out. So is the poll list clearing its polls
  when the user goes away. Polls are an input of `PollList.Screen`.
- `loading` in the poll list and the app is an input, not a tracked state.
- App.StartupRead: assumes the start-up read is the first thing to reach the
  store. Nothing in the code orders it before the first auth-change callback;
  `App.ReadSession` models the read on any store, and
  `App.EarlyAuthChangeShowsFormAtFirstRender` shows what the other order gives.
- App.Startup: is the start-up store after its lookup has answered. The store
  the first render sees is `App.StartupRead`; a start-up lookup answering
  after later events is an ordinary `LookupAnswered` event in a `Replay`
  history, with the same late-answer window as the auth-change lookup.
- Auth.tsx, ErrorMessage.tsx and LoadingSpinner.tsx are pure UI.
  database.types.ts has no behaviour; it only gives the row shapes in
  `Types`.
