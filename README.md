# Polling app: a Dafny model of the poll service and its two interactive pages

This project models the logic of a small polling application in Dafny:

- The **poll service** (`backend/src/index.ts`):
  - create-poll validation and option normalisation;
  - the get, list and vote handlers, over an in-memory store that stands for the poll and option tables.
- The **create-poll page** (`frontend/src/pages/CreatePoll.jsx`):
  - the list of option fields with its add, remove and set edits;
  - the client-side check made before a create request is sent;
  - the page state its handlers update.
- The **poll page** (`frontend/src/pages/PollView.jsx`):
  - the page state that selecting and voting update;
  - the choice of what the page renders;
  - the vote total and the percentage per option.

Modules and files:

| file | module | what it holds |
|---|---|---|
| `wrappers.dfy` | `Wrappers` | `Option` and `Result` |
| `text.dfy` | `Text` | `String.prototype.trim` and `filter(Boolean)` on strings |
| `js_values.dfy` | `JsValues` | the JSON values a request body can hold, and JavaScript truthiness |
| `poll_service.dfy` | `PollService` | records, error answers, create validation, normalisation, vote totals, newest-first listing (pure functions and lemmas) |
| `poll_store.dfy` | `PollStore` | the `Store` class with the handlers `Create`, `Get`, `List` and `Vote`, and the table invariants |
| `create_poll_form.dfy` | `CreatePollForm` | option-list edits, `CheckForm`, its agreement with the server, the `CreatePollPage` class |
| `poll_view_page.dfy` | `PollViewPage` | `ChooseScreen`, `TotalVotes`, `Percent`, the `PollViewState` class |

The store keeps both tables in insertion order. It also holds a ghost multiset of the option ids of all accepted votes. Its invariant `Valid()` states five things:
- poll ids are unique;
- option ids are unique;
- every option belongs to a stored poll;
- every vote count equals the number of accepted votes for that option;
- every accepted vote names a stored option.

From these, `PollStore.TotalIsAcceptedVotes` proves that a poll's vote total equals the number of votes accepted for its options.

Where the model makes a choice the code leaves open:
- id generation and the creation clock are parameters of `Store.Create`. Its `requires` states what the database guarantees: fresh, distinct ids, one per possible option.
- A vote body whose `optionId` is truthy but not a string is answered with the handler's generic failure `VoteFailed` (500, "Failed to record vote"). For a truthy number, `true` or an array, the id is not a value the store's id lookup accepts, so the lookup fails. An object is a different matter; "## Left out" covers it.
- Polls with equal `createdAt` come out in an order the database does not fix. The model's insertion sort picks one such order.
- The options embedded in a poll come in table order.

## Model

| member | source | states |
|---|---|---|
| `Text.IsWhitespace` | backend/src/index.ts:58 | the characters `trim()` strips: the ECMAScript WhiteSpace set (tab, vertical tab, form feed, space, no-break space, BOM and the Unicode space separators) and the line terminators (LF, CR, U+2028, U+2029) |
| `Text.TrimStart` | backend/src/index.ts:58 | the result is a suffix of the input and does not start with white space |
| `Text.TrimStartDropsWhitespace` | backend/src/index.ts:58 | everything cut from the front is white space |
| `Text.TrimEnd` | backend/src/index.ts:58 | the result is a prefix of the input and does not end with white space; a non-empty input that starts with a non-space keeps at least that character |
| `Text.TrimEndDropsWhitespace` | backend/src/index.ts:58 | everything cut from the back is white space |
| `Text.Trim` | backend/src/index.ts:58 | the result of `trim()` is no longer than the input and has no white space left at either end |
| `Text.TrimIsMiddleSlice` | backend/src/index.ts:58 | `trim()` returns a contiguous slice of the input with only white space cut before and after it |
| `Text.TrimOfTrimmed` | backend/src/index.ts:58 | a string with no white space at its ends trims to itself |
| `Text.TrimIdempotent` | frontend/src/api.js:22 | trimming an already trimmed string changes nothing, so the extra `trim()` of the api layer is harmless |
| `Text.TrimEmptyIff` | backend/src/index.ts:58 | a string trims to "" exactly when it consists only of white space (the blank-question test) |
| `Text.TrimStartOfWhitespace` | backend/src/index.ts:58 | a string of white space only loses everything at the front |
| `Text.NonBlank` | backend/src/index.ts:64 | `filter(Boolean)` on strings keeps only non-empty strings taken from the input, and no more of them than the input has |
| `Text.NonBlankKeepsInOrder` | backend/src/index.ts:64 | `filter(Boolean)` keeps exactly the non-empty strings, in input order: the k-th kept string sits at the k-th kept position, and a position is kept exactly when its string is non-empty |
| `JsValues.Truthy` | backend/src/index.ts:89 | `!optionId` is true exactly for undefined, null, false, 0 and "" |
| `JsValues.Strs` | frontend/src/api.js:22 | the JSON array the api layer posts for a list of strings: one string element per entry, in order |
| `JsValues.MessageOr` | frontend/src/pages/PollView.jsx:38 | `message \|\| fallback`: the fallback exactly when the message is empty, the message otherwise; never empty when the fallback is not |
| `Text.NonBlankOfNonEmpty` | frontend/src/pages/CreatePoll.jsx:26 | filtering a list that holds no empty string gives the list back |
| `PollService.ApiError.Status` | backend/src/index.ts:46-108 | errors answer 400, 404 or 500; 404 exactly for "Poll not found"; 500 exactly for the vote failure |
| `PollService.ApiError.Message` | backend/src/index.ts:46-108 | every error answer carries a non-empty `error` text |
| `PollService.MessagesDistinct` | backend/src/index.ts:46-108 | two errors have the same text exactly when they are the same error |
| `PollService.QuestionOk` | backend/src/index.ts:58 | the question passes exactly when it is a string that is not blank after trimming, the complement of the three-part rejection test (falsy, not a string, blank) |
| `PollService.TrimOrEmpty` | backend/src/index.ts:64 | the `map` callback: a string entry is trimmed, any other entry becomes "" |
| `PollService.TrimEntries` | backend/src/index.ts:64 | the `map` step: one entry per input element, string entries trimmed and anything else turned into "", every result trimmed |
| `PollService.NormaliseOptions` | backend/src/index.ts:64 | normalised options are non-empty and trimmed, and there are no more of them than input entries |
| `PollService.NormaliseKeepsSurvivorsInOrder` | backend/src/index.ts:64 | the k-th normalised option is the trimmed text of the k-th surviving entry; survivors are in increasing input position; a position survives exactly when its trimmed text is non-empty |
| `PollService.ValidateCreate` | backend/src/index.ts:58-67 | the rules apply in order and the first failing one decides the error. They are: question missing, not a string or blank; options not an array; fewer than 2 surviving options. A body that passes all three is accepted, with the trimmed question and the normalised options |
| `PollService.ValidatedIsWellFormed` | backend/src/index.ts:58-76 | an accepted poll has a non-blank trimmed question and 2 or more non-blank trimmed options; every rejection is a 400 |
| `PollService.OptionsOf` | backend/src/index.ts:42-45 | `include: { options: true }` returns exactly the options whose `pollId` is the poll's id |
| `PollService.OptionsOfCounts` | backend/src/index.ts:42-45 | each option of the poll comes back exactly as many times as it is in the table (once, since option ids are unique), and no option of another poll ever does |
| `PollService.Bump` | backend/src/index.ts:96-99 | the increment by id adds 1 to `voteCount` of the row with that id; nothing else in any row changes |
| `PollService.BumpRaisesOwnPollTotal` | backend/src/index.ts:96-99 | incrementing one option row raises its own poll's vote total by exactly 1 and leaves every other poll's total unchanged |
| `PollService.FindPoll` | backend/src/index.ts:42-45 | `findUnique` finds a row exactly when one with that id exists, and the row it returns has that id |
| `PollService.ViewOf` | backend/src/index.ts:42-45 | a returned poll carries the row's id, question and creation time and exactly its own options |
| `PollService.Insert` | backend/src/index.ts:28 | inserting into a newest-first sequence keeps it newest first and adds exactly the one poll |
| `PollService.SortNewestFirst` | backend/src/index.ts:28 | `orderBy: { createdAt: 'desc' }` returns a newest-first permutation of the poll table |
| `PollService.Listed` | backend/src/index.ts:27-29 | the listing has min(50, number of polls) rows, newest first, drawn from the table with no row taken more often than it is stored |
| `PollService.ListedIsPrefix` | backend/src/index.ts:27-29 | `take: 50` keeps the first min(50, n) rows of the newest-first order, and all of them with 50 or fewer |
| `PollService.PrefixIsNewest` | backend/src/index.ts:27-29 | in a newest-first order, no row after the first n is newer than any of the first n |
| `PollService.ListPolls` | backend/src/index.ts:27-31 | each listed poll comes with its own options embedded |
| `PollService.ListPollsRows` | backend/src/index.ts:27-31 | the listed views are built from exactly the listed rows, in order |
| `PollService.ListPollsNewest` | backend/src/index.ts:27-31 | the listing has min(50, n) polls, newest first, each a stored poll with its own options, no stored poll listed more often than it is stored; no poll left out is newer than a listed one; with 50 or fewer, none is left out |
| `PollService.ListedAreNewest` | backend/src/index.ts:27-29 | no poll left out of the listing is newer than any listed poll; with 50 polls or fewer, none is left out |
| `PollStore.NewOptions` | backend/src/index.ts:71-73 | a create inserts one option per surviving text, in order, each owned by the new poll and with no votes |
| `PollStore.CreateKeepsValid` | backend/src/index.ts:68-76 | adding a poll with a fresh id and fresh, vote-less options of its own keeps every table invariant |
| `PollStore.CreateStep` | backend/src/index.ts:68-76 | a create with fresh, distinct option ids keeps the table invariants, and the re-read finds the new row with exactly the inserted options |
| `PollStore.CreatedIsReadBack` | backend/src/index.ts:68-76 | reading back a freshly created poll finds its row and exactly the options created with it |
| `PollStore.PollTotalCountsBallots` | backend/src/index.ts:96-99 | when every count equals its ballots, a poll's total is the number of ballots for its options |
| `PollStore.TotalIsAcceptedVotes` | backend/src/index.ts:96-99 | in a valid store, a poll's vote total is the number of votes accepted for its options |
| `PollStore.VoteKeepsValid` | backend/src/index.ts:96-99 | incrementing one option and recording its ballot keeps every table invariant, and changes only the row with that id |
| `PollStore.BelongsTo` | backend/src/index.ts:91-94 | `findFirst({ where: { id, pollId } })` finds a row exactly when some option row has that id and belongs to that poll |
| `PollStore.Store.Get` | backend/src/index.ts:40-47 | an id not in the store gives "Poll not found", not some other error; a stored id gives that poll with its own options; the store is left unchanged |
| `PollStore.Store.List` | backend/src/index.ts:25-32 | min(50, n) polls, newest first, each a stored poll with its own options, no stored poll listed more often than it is stored; no stored poll left out is newer than a listed one; with 50 or fewer, every stored poll is listed |
| `PollStore.Store.Insert` | backend/src/index.ts:68-76 | the nested insert appends exactly the poll row and one vote-less option row per text, keeps every invariant, and answers with what a later get returns |
| `PollStore.Store.Create` | backend/src/index.ts:55-77 | a rejected body changes nothing and gives the validation error. An accepted body appends exactly the poll row with the trimmed question and one vote-less option per surviving text, in order. The returned poll equals what a later get returns |
| `PollStore.Store.Vote` | backend/src/index.ts:85-105 | see the vote rules below the table |
| `CreatePollForm.InitialOptions` | frontend/src/pages/CreatePoll.jsx:10 | the form opens with exactly two empty option fields |
| `CreatePollForm.AddOption` | frontend/src/pages/CreatePoll.jsx:14 | one "" appended, the existing fields unchanged |
| `CreatePollForm.WithoutIndex` | frontend/src/pages/CreatePoll.jsx:17 | the index filter removes exactly position i, keeping the rest in order; an index out of range removes nothing |
| `CreatePollForm.RemoveOption` | frontend/src/pages/CreatePoll.jsx:15-18 | with 2 fields or fewer there is no change; otherwise only position i goes; the length never falls below 2 |
| `CreatePollForm.SetOption` | frontend/src/pages/CreatePoll.jsx:19-21 | only position i takes the new value and the length is unchanged |
| `CreatePollForm.RemoveUndoesAdd` | frontend/src/pages/CreatePoll.jsx:14-18 | removing the field just added restores the list |
| `CreatePollForm.SetOptionUndo` | frontend/src/pages/CreatePoll.jsx:19-21 | writing back a field's old value restores the list |
| `CreatePollForm.TrimAll` | frontend/src/pages/CreatePoll.jsx:26 | each field trimmed, one per field |
| `CreatePollForm.TrimmedOptions` | frontend/src/pages/CreatePoll.jsx:26 | the trimmed option list holds only non-blank trimmed strings, no more than the fields |
| `CreatePollForm.CheckForm` | frontend/src/pages/CreatePoll.jsx:26-34 | a blank question gives "Please enter a question."; otherwise fewer than 2 non-blank options gives "Please add at least 2 options."; a form that passes both is accepted, with the trimmed question and options |
| `CreatePollForm.RequestBody` | frontend/src/api.js:22 | the posted body is the submission's question trimmed once more, with the options as a JSON array of strings |
| `CreatePollForm.RejectionShowsServerText` | frontend/src/pages/CreatePoll.jsx:39-40 | a server rejection shows the server's own error text: neither `res.statusText` (api.js:26) nor "Failed to create poll." is ever used for it |
| `CreatePollForm.TrimmedOptionsIsServerNormalisation` | frontend/src/pages/CreatePoll.jsx:26 | the client's trim-and-filter agrees with the server's normalisation (backend/src/index.ts:64) on every list of strings |
| `CreatePollForm.NormalisingTrimmedIsIdentity` | frontend/src/pages/CreatePoll.jsx:37 | the server's normalisation leaves an already trimmed, non-blank option list unchanged |
| `CreatePollForm.TrimAllOfTrimmed` | frontend/src/pages/CreatePoll.jsx:26 | trimming fields that are already trimmed changes nothing |
| `CreatePollForm.CheckedIsWellFormed` | frontend/src/pages/CreatePoll.jsx:26-34 | a submission the form lets through has a non-blank trimmed question and 2 or more non-blank trimmed options |
| `CreatePollForm.WellFormedPassesServer` | frontend/src/api.js:22 | such a submission, with the api layer's extra trim of the question, passes the server's validation and is stored as it is |
| `CreatePollForm.AcceptedFormPassesServer` | frontend/src/pages/CreatePoll.jsx:26-37 | whatever the form accepts, the server accepts, and the server stores exactly the submitted question and options |
| `CreatePollForm.FormMirrorsServer` | frontend/src/pages/CreatePoll.jsx:26-34 | on the same fields, the form and the server reject a blank question alike, reject too few options alike, and accept alike |
| `CreatePollForm.CreatePollPage.constructor` | frontend/src/pages/CreatePoll.jsx:9-12 | empty question, two empty option fields, no error, not loading |
| `CreatePollForm.CreatePollPage.EditQuestion` | frontend/src/pages/CreatePoll.jsx:61 | the question takes the typed value and nothing else changes |
| `CreatePollForm.CreatePollPage.Add` | frontend/src/pages/CreatePoll.jsx:14 | the fields become `AddOption` of the old fields; the minimum of 2 still holds |
| `CreatePollForm.CreatePollPage.Remove` | frontend/src/pages/CreatePoll.jsx:15-18 | the fields become `RemoveOption` of the old fields; the minimum of 2 still holds |
| `CreatePollForm.CreatePollPage.Edit` | frontend/src/pages/CreatePoll.jsx:19-21 | the fields become `SetOption` of the old fields; the minimum of 2 still holds |
| `CreatePollForm.CreatePollPage.Send` | frontend/src/pages/CreatePoll.jsx:35-43 | the request sent is the submission's body; a created poll opens its page, a rejection shows the server's message or "Failed to create poll."; loading is off afterwards |
| `CreatePollForm.CreatePollPage.Submit` | frontend/src/pages/CreatePoll.jsx:23-44 | a failed check sets its message and sends nothing. Otherwise it sends a body that passes server validation, then navigates to the new poll or shows the server's message (with a fallback), and ends not loading |
| `PollViewPage.ChooseScreen` | frontend/src/pages/PollView.jsx:44-59 | loading shows the loading view; otherwise an error with no poll shows the error view; otherwise no poll shows nothing; a loaded poll stays shown, with the error as a banner |
| `PollViewPage.CountOf` | frontend/src/pages/PollView.jsx:61 | `o.voteCount \|\| 0`: the count when present, 0 when missing |
| `PollViewPage.TotalVotes` | frontend/src/pages/PollView.jsx:61 | the left-to-right `reduce` of `CountOf` over the options, starting from 0 |
| `PollViewPage.CountAtMostTotal` | frontend/src/pages/PollView.jsx:61 | with no negative counts, each option's count lies between 0 and the total |
| `PollViewPage.TotalNonNegative` | frontend/src/pages/PollView.jsx:61 | with no negative counts the total is not negative |
| `PollViewPage.TotalVotesAppend` | frontend/src/pages/PollView.jsx:61 | the left fold over two runs of options is the sum of their totals |
| `PollViewPage.RoundedPercent` | frontend/src/pages/PollView.jsx:107 | `Math.round(v / t * 100)` in exact arithmetic: the nearest integer to 100·v/t, with halves rounded up |
| `PollViewPage.Percent` | frontend/src/pages/PollView.jsx:107 | 0 when the total is not positive; otherwise the rounded share, or NaN when the count is missing |
| `PollViewPage.PercentInRange` | frontend/src/pages/PollView.jsx:107 | for 0 ≤ v ≤ t the rounded percentage lies in 0..100 |
| `PollViewPage.ResultsPercentagesInRange` | frontend/src/pages/PollView.jsx:104-113 | when every count is present and not negative, every option shows a percentage in 0..100 |
| `PollViewPage.FromServer` | frontend/src/pages/PollView.jsx:34-35 | the poll the page holds carries the service's ids, texts and vote counts, option by option |
| `PollViewPage.TotalVotesOfServerPoll` | frontend/src/pages/PollView.jsx:61 | the page's total for a poll received from the service equals the service's vote total for it |
| `PollViewPage.PollViewState.constructor` | frontend/src/pages/PollView.jsx:7-12 | no poll, nothing selected, not voted, loading, not voting, no error |
| `PollViewPage.PollViewState.FinishLoad` | frontend/src/pages/PollView.jsx:16-25 | the loaded poll or the load error (with a fallback) is recorded and loading ends; selection and vote state are untouched |
| `PollViewPage.PollViewState.Select` | frontend/src/pages/PollView.jsx:84 | the clicked option becomes the only selection; nothing else changes |
| `PollViewPage.Chosen` | frontend/src/pages/PollView.jsx:30 | an option is chosen when `selectedOptionId` is set and not "", the complement of `!selectedOptionId` |
| `PollViewPage.PollViewState.HandleVote` | frontend/src/pages/PollView.jsx:29-42 | see the vote-transition rules below the table |

What `PollStore.Store.Vote` states:
- An id that is missing or falsy gives "optionId is required" and changes nothing.
- An option that is absent, or belongs to another poll, gives "Invalid option for this poll" and changes nothing.
- An accepted vote:
  - adds exactly 1 to that option's count and leaves every other row unchanged;
  - raises the poll's total by 1 and leaves every other poll's total unchanged;
  - records one more ballot;
  - returns the poll as re-read after the increment.

What `PollViewPage.PollViewState.HandleVote` states:
- With nothing selected, or after a vote, nothing changes and nothing is sent.
- Otherwise the selected id is sent, and then:
  - on success, the returned poll is shown and `hasVoted` becomes true;
  - on failure, the error is set, `hasVoted` stays false and the poll is kept.
- `voting` is false afterwards.
- `hasVoted` never goes back to false.
- At most one vote is accepted per page.
- A shown poll is never blanked.

## Left out

- Express wiring and process plumbing: dotenv, CORS, `express.json`, `app.listen`, logging and the `/health` endpoint (backend/src/index.ts:1-22,112-114). None of it decides a response.
- The Prisma/Postgres adapter (backend/src/index.ts:4-11). It is replaced by the in-memory `Store`; id generation and `createdAt` are parameters of `Store.Create`.
- The 500 answers of list, get and create ("Failed to fetch polls", "Failed to fetch poll", "Failed to create poll"). They come only from store failures, and the in-memory store cannot fail. The vote endpoint's 500 is kept as `VoteFailed`, for an `optionId` that is truthy but not a string.
- The concurrency window between the increment and the re-read (backend/src/index.ts:96-105), and the database's atomic increment. The vote is modelled as one sequential step, so the re-read sees exactly this vote's effect.
- `backend/src/app.test.ts` imports `createApp` from `app.js`, a file that is not part of this model. The handlers modelled are the ones in `backend/src/index.ts`.
- The network layer `frontend/src/api.js` (fetch, HTTP statuses, response parsing). Its replies are parameters (`CreateReply`, `LoadReply`, `VoteReply`). The request bodies it builds are modelled: the extra `trim()` of the question, and the option id sent.
- The React effect lifecycle and the `cancelled` guard (frontend/src/pages/PollView.jsx:14-27). They are asynchronous timing. `PollViewState.FinishLoad` models only what the completed fetch sets.
- Rendering markup, routing and styling. This covers `frontend/src/App.jsx`, `frontend/src/pages/Home.jsx`, `frontend/src/pages/PollList.jsx` and `frontend/tailwind.config.js`. `navigate` is modelled as the route `Submit` returns.
- `PollViewPage.ShownOption`: a `voteCount` of `None` stands for a field absent from the JSON, which gives NaN in the percentage and 0 in the total. A JSON `null` count is not modelled: the page would show 0% for it (`null / total` is 0) rather than NaN. The service never sends one, since its counts are natural numbers.
- `PollViewPage.RoundedPercent`: computes `Math.round(voteCount / totalVotes * 100)` exactly, as floor((200·v + t) / (2·t)); the floating-point computation may differ from this exact answer at some halfway points.
- `JsValues.JsValue`: JSON numbers are integers here (no fractions, NaN or infinities), and objects carry no fields, because no rule modelled reads them.
- `PollStore.Store.Vote`: an `optionId` that is a JSON object is read by the store's lookup as a filter on the id (such as `{}` or `{"not": …}`), not as an id. The source then answers 400 "Invalid option for this poll" when nothing matches, and 500 from the increment when something does. The model does not look inside objects and answers every object with `VoteFailed`. No vote count changes on any of these paths.
- `Store.List` and `Store.Get` return options in table order. Prisma does not promise an order for included relations.
- `PollViewState.Valid` says `voting` is false between handlers. The intermediate state while a vote is in flight (`voting` true, "Submitting…") is not modelled, because each handler runs as one step.
