# Quiz submission: a verified model

A model, in Dafny, of the two pieces of logic in a small multi-step web quiz:

- the `POST /api/submit` handler (`src/app/api/submit/route.js`), which
  rejects a body missing `name`, `email` or `answers`, counts the answers that
  are strictly equal to the fixed key `[1, 1, 0, 2, 3]`, maps the count to one
  of three recommendation tiers, inserts one record into the `results`
  collection, sends one confirmation email, and answers 200 only if both calls
  succeed (400 for missing fields, 500 for anything thrown);
- the quiz wizard component (`src/app/components/QuizForm.jsx`): contact entry
  (step 0), five questions (steps 1 to 5), review (step 6), and a final result
  once the server has replied.

Files:

- `js.dfy` (module `Js`): the JSON values a request body can hold and the
  JavaScript operations the handler applies to them: truthiness, `=== k` for a
  number `k`, `v[i]` (arrays, strings, objects, and `undefined` past the end or
  on scalars), and reading a named property.
- `submit_route.dfy` (module `SubmitRoute`): the handler as a specification
  function `Handle` and as the imperative `Post` (the counting loop, the
  reassigned recommendation, the two awaited calls in order), proved equal; the
  score's properties; the request-level properties (validation, success shape,
  failure rules).
- `quiz_form.dfy` (module `QuizForm`): the component as a class `Quiz` whose
  fields are its React state (`step`, `name`, `email`, an `answers` array,
  `result`, `loading`); one method per handler, each guarded by `Enabled`,
  which collects the rendered-and-not-disabled conditions; the invariant
  `Valid`; and the link to the handler (`PayloadAccepted`, `SubmitAndReceive`).

The database and the mail provider are not services here: the caller says
whether the insert and the send succeed, and `Handle` returns, beside the
response, the trace of calls made, each with its outcome. The request body is
`None` when `request.json()` throws.

## Model

| member | source | states |
|---|---|---|
| Js.DecimalStringRoundTrip | src/app/api/submit/route.js:42 | The decimal text interpolated for a number reads back as that number (the text itself is digits only, without a leading zero). |
| SubmitRoute.CountUpTo | src/app/api/submit/route.js:17-20 | The number of matches among the first `n` positions is at most `n`. |
| SubmitRoute.Score | src/app/api/submit/route.js:16-20 | The score lies in [0, 5], the length of the key. |
| SubmitRoute.CountIsMatchSetSize | src/app/api/submit/route.js:17-20 | The running count equals the size of the set of matching positions below `n`. |
| SubmitRoute.ScoreCountsMatches | src/app/api/submit/route.js:16-20 | The score is the number of indices i in [0,5) with `answers[i] === correct[i]`. |
| SubmitRoute.ScoreExtremes | src/app/api/submit/route.js:16-20 | Score 5 exactly when every position matches; score 0 exactly when none does. |
| SubmitRoute.ScoreMonotone | src/app/api/submit/route.js:18-19 | Matching at a superset of positions never gives a lower score. |
| SubmitRoute.ExtraEntriesIgnored | src/app/api/submit/route.js:18 | Entries past the fifth do not change the score. |
| SubmitRoute.ObjectScoresLikeArray | src/app/api/submit/route.js:18-19 | An object with keys "0" to "4" scores exactly as the array of those five values, since `answers[i]` reads the property named by `i`. |
| SubmitRoute.ShortArrayBound | src/app/api/submit/route.js:18-19 | An array scores at most its own length: reads past its end are `undefined` and never match. |
| SubmitRoute.NoNumbersScoreZero | src/app/api/submit/route.js:19 | If no position read is a number (nulls, strings, or answers that is a string, number or boolean), the score is 0. |
| SubmitRoute.EmptyAnswersScoreZero | src/app/api/submit/route.js:11-20 | An empty array is truthy, so it passes validation, and scores 0. |
| SubmitRoute.FixOneRaisesByOne | src/app/api/submit/route.js:18-19 | Setting one non-matching array entry to the key value raises the score by exactly 1. |
| SubmitRoute.BreakOneLowersByOne | src/app/api/submit/route.js:18-19 | Changing one matching entry to a value not strictly equal to the key lowers the score by exactly 1. |
| SubmitRoute.Recommendation | src/app/api/submit/route.js:22-26 | Advanced exactly when score >= 4, intermediate exactly when 2 <= score < 4, beginner exactly when score < 2; "Keep practicing!" is never the result. |
| SubmitRoute.Handle | src/app/api/submit/route.js:6-51 | Status is 200, 400 or 500, 200 exactly for a score reply, the score at most 5; the trace holds at most one insert into `results`, then at most one send, and a send only after an insert that succeeded. |
| SubmitRoute.Post | src/app/api/submit/route.js:6-51 | The imperative handler (counting loop, if/else chain, two awaited calls) produces exactly the response and trace of `Handle`. |
| SubmitRoute.RejectionHasNoEffects | src/app/api/submit/route.js:11-13 | A 400 happens exactly when the body is an object-like value with a falsy `name`, `email` or `answers`; it carries "Missing fields" and nothing is inserted or sent. |
| SubmitRoute.SuccessShape | src/app/api/submit/route.js:29-47 | 200 exactly when the body is accepted and both calls succeed; then the trace is one insert and one email to `email`, stored and mailed score and recommendation equal the returned ones, and the score is the match count. |
| SubmitRoute.DownstreamFailures | src/app/api/submit/route.js:33-50 | If the insert throws, no email is attempted and the reply is 500; if the send throws after the insert, the record stays stored and the reply is still 500. |
| SubmitRoute.SubjectEmbedsScore | src/app/api/submit/route.js:42 | The subject is "Your quiz result — " followed by the score's digit and "/5". |
| SubmitRoute.NoDeduplication | src/app/api/submit/route.js:29-45 | The same accepted body submitted twice inserts two records, both stored, equal in every field but `createdAt`, and sends two identical emails, both delivered. |
| SubmitRoute.PerfectExample | src/app/api/submit/route.js:16-26 | Answers `[1,1,0,2,3]` give 200 with score 5 and the advanced tier. |
| SubmitRoute.ZerosExample | src/app/api/submit/route.js:16-26 | Answers `[0,0,0,0,0]` give 200 with score 1 (only `correct[2]` is 0) and the beginner tier. |
| SubmitRoute.EmptyAnswersExample | src/app/api/submit/route.js:11-26 | Answers `[]` give 200 with score 0 and the beginner tier. |
| QuizForm.Quiz.constructor | src/app/components/QuizForm.jsx:13-18 | Initially step 0, empty name and email, five `null` answers, no result, not loading; the invariant holds. |
| QuizForm.Quiz.TypeName | src/app/components/QuizForm.jsx:53 | At contact entry, typing sets the name and nothing else. |
| QuizForm.Quiz.TypeEmail | src/app/components/QuizForm.jsx:55 | At contact entry, typing sets the email and nothing else. |
| QuizForm.Quiz.StartQuiz | src/app/components/QuizForm.jsx:57 | Enabled only at step 0 with non-empty name and email; moves to step 1 and changes nothing else. |
| QuizForm.Quiz.ChooseOption | src/app/components/QuizForm.jsx:20-24 | Sets only `answers[step-1]`; the length stays 5 and every other slot is unchanged. |
| QuizForm.Quiz.GoBack | src/app/components/QuizForm.jsx:79 | Disabled at step 1; from steps 2 to 5 moves one step back and keeps everything else. |
| QuizForm.Quiz.GoNext | src/app/components/QuizForm.jsx:80-82 | From step k in 1..5, requires `answers[k-1]` set and moves to k+1 (step 6, review, from step 5). |
| QuizForm.Quiz.EditAnswers | src/app/components/QuizForm.jsx:96 | From review back to step 1 without clearing answers, name or email. |
| QuizForm.Quiz.SubmitAnswers | src/app/components/QuizForm.jsx:26-32 | Enabled at review when not loading; sets loading and sends the body `{name, email, answers}`. |
| QuizForm.Quiz.ReceiveReply | src/app/components/QuizForm.jsx:33-35 | The reply becomes the result and loading ends, at whatever step the user is. |
| QuizForm.ReviewHasAllAnswers | src/app/components/QuizForm.jsx:87-95 | Under the invariant, at review all five answers are set. |
| QuizForm.ResultIsFinal | src/app/components/QuizForm.jsx:38-46 | Once a result is set, success or failure, no event is enabled: there is no resubmit path. |
| QuizForm.PayloadAccepted | src/app/components/QuizForm.jsx:28-32 | A body the wizard sends after Start always passes the handler's validation, and its score is the number of questions whose chosen option is the key's. |
| QuizForm.SubmitAndReceive | src/app/components/QuizForm.jsx:26-46 | Submitting from review and receiving the handler's reply never yields "Missing fields"; the result is a score exactly when insert and send both succeed, and the wizard is then finished. |

The invariant `QuizForm.Quiz.Valid`, which every transition method ensures,
states that the step stays in [0, 6], that whenever step = s >= 1 the answers
`0..s-2` are set, that name and email are non-empty once the quiz has started,
and that a request is in flight only before any result and with all five
answers set.

A failed submission is final: once any result is set the component renders
only the score or the error and offers no transition (`ResultIsFinal`).

## Left out

- `lib/mongodb.js` (the cached `MongoClient` promise and its environment check) and `src/app/page.tsx` (static layout) are not part of this model.
- The store and mailer are reduced to succeed-or-throw outcomes supplied by the caller; a failure to connect to the store is folded into "the insert throws", and a thrown insert is taken to have stored nothing.
- `request.json()` is an abstract parse that yields a value or throws; the `fetch`/`res.json()` round trip in the component is the pair `SubmitAnswers`/`ReceiveReply`, and the client keeps only the reply body (the HTTP status is not read by the component).
- A `fetch` or `res.json()` that rejects (a network failure, or a reply that is not JSON) is not modelled as an event: in the code it leaves `loading` true and no result, so Submit stays disabled; only `ReceiveReply` ends a request.
- The `createdAt` timestamp is a parameter (`now`); the `String(err)` text of a 500 reply is replaced by an abstract cause; `console.error` is omitted.
- The sender address, the `MONGODB_DB` and `ZEPTOMAIL_FROM` defaults and the provider token are environment configuration and are not modelled.
- The email's plain-text and HTML bodies are reduced to the score and recommendation they embed; the recipient and subject are modelled exactly.
- JSON numbers are exact reals: floating-point rounding is not modelled (it does not affect comparing a parsed number with a small integer).
- `Js.Get`: inherited prototype properties are not modelled; no prototype of a JSON value has `name`, `email`, `answers` or the keys `"0"` to `"4"`.
- JSX rendering (question texts, radio `checked`, labels, styles) and the "Submitting..." label are left out; the `loading` flag is kept only for what it disables.
- `choose` builds a new array and replaces the state with it; the model writes the slot of a single array field, which is observably the same because no other reference to the array exists.
- Concurrent requests from many clients are not modelled: the handler has no coordination between them.
