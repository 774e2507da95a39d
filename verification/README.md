# Verified model of the LMS backend

This project models four connected parts of the LMS backend and proves what they promise over
all inputs, all runs and all interleavings.

* **The audit-webhook outbox.** `AuditLogs` holds the rows of `audit_logs` and the claim and mark statements.
  `OutboxProtocol` is a step system with any number of workers that claim batches under the two-minute lease,
  dispatch, mark and crash; `OutboxExclusion` proves exactly when the lease keeps two workers off one row,
  `OutboxHistory` what every run keeps. `OutboxWorker` is the drain loop itself, and `WorkerTurns` shows that
  each of its turns is two steps of the protocol. `WebhookDispatcher` is the retry loop and the delivery
  counters.
* **Quizzes, attempts and certificates.** `QuestionConfig` decodes question configurations, `QuizValidation`
  decides which quizzes a course may have, `StoredConfig` says when the database gives back what was
  validated, `ConfigMeaning` what a configuration says, `Grading` and `GradingTheorems` grade a sheet,
  `PassableQuiz` and `EarningAnswers` join them. `Lms` is the stored state, `Certificates`, `Enrollments` and
  `Submissions` the operations on it, `Platform` the same operations as methods over fields, `LmsRuns`,
  `LmsHistory` and `AttemptLimitRuns` whole runs, `RacingSubmits` and `RacingIssues` overlapping submits and
  overlapping automatic issuing. `CertifiableCourse` joins validation, grading, the submit checks and issuing
  in one statement. `LmsWitnesses` holds runs that show where the properties of whole runs end.
* **Answer keys.** `AnswerKeyNames` says which keys are answer keys, `AnswerKeys` what stripping them means,
  `AnswerKeysInPlace` is the walk that deletes entries in place, `PublicConfig` links it to what evaluation
  reads.
* **Sessions and logins.** `SessionCache` and `Auth` are the cache and the operations around it, `AuthRuns`
  and `LoginRuns` whole runs of them, `LoginLockout` the failed-login window, `LockoutScopes` whom it
  protects, `RacingLogins` overlapping logins.

`SlidingWindow` is the counting argument shared by the attempt limit and the login lockout.
`StringLists`, `Text` and `Basics` are the common vocabulary. A JSON value is a tree in `Json`; in `JsonDocs` it
is a document that lists its entries in order, possibly with a key twice. Documents come in three
orders: a request in the client's, the database (jsonb) by key length and bytes, the encoder byte by byte
(`JsonKeys`). `ConfigReadings` says when two documents read the same.

Conventions. There is one integer clock in seconds and a day is 86400 seconds. A row is named by its
position or key. Points, percentages and scores are real numbers. Whatever a database, a network or a
random source may decide freely is a parameter or an arbitrary value that fits the query's meaning, so
each statement holds for every such decision. Loops and updates in place are methods proved against
specification functions; the theorems are about those functions and about runs.

Some properties one might expect do not hold as such. Each comes with its exact condition and an input or
a run that fails.

* The lease excludes exactly when a full batch fits into it. As wired (batches of 20, up to 20 seconds
  per event) it does not, and an overlapping state is reachable (`OutboxExclusion.LeaseExclusionExact`,
  `WiredConfigurationOverlaps`).
* A quiz that validation accepts can be passed exactly when it is worth something after its two-decimal columns
  have rounded the points, its maximum stays below a million, and the questions from whose stored
  configuration grading reads an answer carry the pass mark (`PassableQuiz.AcceptedQuizPassableExactly`).
  If no configuration spells a tag twice in one object, grading reads what validation read
  (`StoredConfig.StoredReading`) and the third condition always holds. A question of a thousandth of a point is
  accepted and stored as zero (`TinyQuestionCannotBePassed`); the configuration `{"correct": null, "Correct": true}`
  is accepted, and the database gives the null back last, so nobody earns its points
  (`TwoSpellingsCannotBePassed`).
* The attempt limit is kept in all interleavings exactly when submits of one user at one course never
  overlap; otherwise the overrun of one less than the number in flight is reached
  (`RacingSubmits.LimitKeptExactlyWithoutOverlap`).
* Under a cooldown no window holds more than the allowed attempts exactly when no client sends a starting
  time in the past (`LmsWitnesses.WindowKeptExactlyWithoutBackdating`).
* The limit opens at the reported moment exactly when fewer than the allowed attempts lie after the earliest
  counted one (`Submissions.OpensAtUnlockExactly`). Every run with a fixed limit keeps that
  (`AttemptLimitRuns.UnlockIsExact`); after a lowered limit the moment can be too early
  (`LmsWitnesses.LoweredLimitUnlocksTooEarly`).
* A user holds at most one certificate for a course exactly in the runs in which every certificate issued by
  hand goes to a user who has none (`LmsRuns.OneCertificateExact`); a run with two is given by
  `LmsWitnesses.SecondCertificateIsReachable`. These runs take one operation at a time. Where automatic issuing
  overlaps, an enrollment gets as many certificates as issuings overlap, and one at most exactly when
  they never do (`RacingIssues.OneCertificateExactlyWithoutOverlap`, `LmsWitnesses.OverlapCertifiesTwice`).
* The bound on failed logins of an identifier or an address holds exactly under the scopes that count it. The
  bound for an account fails for every name with a Latin letter, because each spelling of the name has its
  own count while the user lookup ignores letter case (`LockoutScopes.LockoutBoundExact`,
  `LetteredAccountsAreNotBounded`). All of this is for logins one after the other: the bound is kept in all
  interleavings exactly when logins of the key never overlap (`RacingLogins.LockoutKeptExactlyWithoutOverlap`).
* A sanitized configuration hides all correct answers exactly when the given one, its keys listed byte by byte as
  the encoder does, has none under keys with a long s (U+017F), which the decoder reads as s and the key filter
  does not (`PublicConfig.SanitizedRevealsNothingExactly`, `LongSpellingIsNotHidden`). The order matters:
  `MarshalledOrderReveals` is a configuration without a correct option that has one after sanitizing.

Where the documentation and the code disagree, the model follows the code.

* docs/BACKEND_CURRENT_STATE.md:308-319 lists twelve question types as supported; the code accepts and
  grades the five of internal/domain/quiz.go:10-16 and refuses the others.
* docs/BACKEND_CURRENT_STATE.md:341 says that attempts are counted anew after the cooldown; the code lets each attempt
  leave the window on its own, so the limit opens for as many submits as attempts have left.
* docs/BACKEND_CURRENT_STATE.md:399-405 says that a certificate is created only if none was issued yet;
  `Create` refuses only a repeated (enrollment, attempt) pair, and only automatic issuing looks at the enrollment.
* ARCHITECTURE.md:396 puts the check that certificates are enabled into the candidate query; the code
  returns the flag with the candidate and its caller checks it.

## Model

| member | source | states |
|---|---|---|
| AuditLogs.BackoffDoubles | internal/usecase/audit_webhook_worker.go:122-131 | the retry delay is 1 s up to the first attempt, doubles with each attempt, and stays at 32 s from the sixth |
| AuditLogs.AuditLogTable.Create | internal/repository/postgres/audit_logs.go:29-49 | appends one row with the event and the present time: due now, unclaimed, undispatched, without attempts and without an error; no other row changes |
| AuditLogs.AuditLogTable.PickOldest | internal/repository/postgres/audit_logs.go:124-134 | the selection: claimable rows, each once, as many as the limit allows, none left behind older than one chosen |
| AuditLogs.AuditLogTable.ClaimWebhookDispatchBatch | internal/repository/postgres/audit_logs.go:119-169 | takes as many claimable rows as the limit allows, each once, none left behind older than one taken, and changes exactly their lease and counter |
| AuditLogs.AuditLogTable.MarkWebhookDispatchSuccess | internal/repository/postgres/audit_logs.go:171-189 | sets the dispatch time and clears lease and error of one row; a missing row is reported and nothing changes |
| AuditLogs.AuditLogTable.MarkWebhookDispatchFailure | internal/repository/postgres/audit_logs.go:191-209 | clears the lease, sets due time and error of one row and leaves the dispatch time; a missing row is reported |
| OutboxProtocol.HeldIsNotClaimable | internal/repository/postgres/audit_logs.go:124-134 | when a batch fits into the lease, a row still to be worked off by some worker fails the claim guard |
| OutboxProtocol.LeaseInvHolds | internal/usecase/audit_webhook_worker.go:66-120 | in every reachable state every worker keeps its schedule, its rows carry exactly its claim time, and holdings do not overlap |
| OutboxExclusion.LeaseExclusion | internal/usecase/audit_webhook_worker.go:66-120 | with batchSize × time per event ≤ 120 s, no reachable state has two workers holding one row |
| OutboxExclusion.OverlapReachable | internal/usecase/audit_webhook_worker.go:77-79 | with a longer batch, a state with two holders of one row is reachable |
| OutboxExclusion.LeaseExclusionExact | internal/repository/postgres/audit_logs.go:124-149 | exclusion holds in all runs if and only if batchSize × time per event ≤ 120 s |
| OutboxExclusion.WiredConfigurationOverlaps | cmd/api/main.go:189 | the wired batch of 20 with the 20 s dispatch limit is outside that bound; 6 × 20 s and 20 × 6 s are inside |
| OutboxHistory.NoEventLost | internal/usecase/audit_webhook_worker.go:88-131 | an undispatched row is due within 32 s and leased from the past only, so left alone it can be claimed at every time later than 120 s on |
| OutboxHistory.RowsStay | internal/repository/postgres/audit_logs.go:119-209 | no step removes a row and the clock never goes back |
| OutboxHistory.RowChangesOnlyByItsSteps | internal/repository/postgres/audit_logs.go:136-209 | what a claim, a success mark and a failure mark do to each column of their row; no other step changes a row |
| OutboxHistory.AppendedForever | internal/repository/postgres/audit_logs.go:29-49 | in every run a row keeps the event it was appended with and the time of that moment for ever |
| OutboxHistory.EarlierIsTakenFirst | internal/repository/postgres/audit_logs.go:124-134 | of two claimable rows a claim with no other claim in progress never takes the one appended later and leaves the other |
| OutboxHistory.LeaseIsTwoMinutes | internal/repository/postgres/audit_logs.go:124-139 | a claimed row that is not marked is claimable again exactly when more than two minutes have passed |
| OutboxHistory.RetryDelay | internal/usecase/audit_webhook_worker.go:88-131 | a failed row is retried 2^(n − 1) seconds after the failure, n the number of its claims so far, and 32 seconds from the sixth on |
| OutboxHistory.ClaimsAreSpaced | internal/repository/postgres/audit_logs.go:125-139 | between consecutive claims of a row more than 120 s pass, or the last mark between them is a failure and the second claim is at least 1 s after that failure |
| OutboxHistory.DispatchedForever | internal/repository/postgres/audit_logs.go:171-209 | a dispatched row stays dispatched and is never claimed again, whatever late marks arrive |
| OutboxHistory.DispatchedOnlyAfterSuccess | internal/usecase/audit_webhook_worker.go:107-113 | a row is dispatched only after a worker saw its dispatch succeed and wrote that mark |
| OutboxHistory.AttemptsCountClaims | internal/repository/postgres/audit_logs.go:136-139 | the attempts counter is the number of claims of the row |
| OutboxWorker.WorkedIsNotClaimable | internal/usecase/audit_webhook_worker.go:88-120 | whatever dispatch and mark answer, the claimable rows shrink by exactly the rows worked off |
| OutboxWorker.AuditWebhookOutboxWorker.constructor | internal/usecase/audit_webhook_worker.go:26-44 | a batch size below one becomes ten |
| OutboxWorker.AuditWebhookOutboxWorker.DispatchOne | internal/usecase/audit_webhook_worker.go:88-120 | one turn: success mark, failure mark with the retry time, or no change when the mark statement fails |
| OutboxWorker.AuditWebhookOutboxWorker.DrainRound | internal/usecase/audit_webhook_worker.go:67-84 | one round works off a claimed batch; it is the last when the claim fails or nothing claimable is left, else the claimable rows get fewer |
| OutboxWorker.AuditWebhookOutboxWorker.DrainOnce | internal/usecase/audit_webhook_worker.go:66-86 | terminates; hands each row over at most once, oldest claims first, and works off exactly those; if no claim fails, all initially claimable rows are handed over and none is left |
| OutboxWorker.DrainedRow | internal/usecase/audit_webhook_worker.go:88-120 | what a drain leaves of each row: untouched, dispatched now, due again after its delay with the error, or still leased |
| WorkerTurns.TurnIsTwoSteps | internal/usecase/audit_webhook_worker.go:88-120 | a turn of the loop is two steps of the protocol, the return of the dispatch and its mark, with the same table after them |
| WorkerTurns.ClaimIsAStep | internal/usecase/audit_webhook_worker.go:66-80 | and a claim of the loop is a claim of the protocol |
| WebhookDispatcher.TriesMeaning | internal/usecase/webhook_dispatcher.go:96-119 | one to three tries; the count is the only one whose last try stops the loop while all earlier ones go on |
| WebhookDispatcher.DeliveredExactly | internal/usecase/webhook_dispatcher.go:96-119 | a delivery succeeds exactly when one of three answers has no error and no cancellation came before it; its status and the time of the beginning are recorded |
| WebhookDispatcher.FailureRecordsLastTry | internal/usecase/webhook_dispatcher.go:96-130 | a failed delivery records status and error of the third answer, or of the one before a cancellation |
| WebhookDispatcher.CountersConserve | internal/repository/postgres/webhooks.go:190-219 | over any written results, deliveries + failures of a webhook grow by their number and deliveries by the delivered ones |
| WebhookDispatcher.LastResultStands | internal/repository/postgres/webhooks.go:190-219 | the stored time, status and error of a webhook are those of the last written result for it |
| WebhookDispatcher.WebhookStore.RecordDeliveryResult | internal/repository/postgres/webhooks.go:190-219 | adds one to exactly one of the two counters of a known webhook and stores time, status and error |
| WebhookDispatcher.Dispatcher.DeliverWithRetry | internal/usecase/webhook_dispatcher.go:91-130 | tries until a success, a cancellation or the third failure, then records the last try exactly once |
| WebhookDispatcher.Dispatcher.Dispatch | internal/usecase/webhook_dispatcher.go:53-89 | exactly one recorded result per listed webhook, in order; the table changes by exactly those that are written; fails only when the listing does |
| WebhookDispatcher.DispatchCounts | internal/repository/postgres/webhooks.go:161-188 | one dispatch adds one result for each active webhook of the event, none for another, delivered exactly when its last try succeeded |
| WebhookDispatcher.AllWritten | internal/usecase/webhook_dispatcher.go:116-130 | when every write works, the written results are exactly the recorded calls |
| WebhookDispatcher.DispatchesConserve | internal/repository/postgres/webhooks.go:161-219 | over any sequence of dispatches deliveries + failures of a webhook grow by the dispatches that list it and write its result, deliveries by those whose last try succeeded, and its settings stay |
| StringLists.NormalizeSliceContents | internal/usecase/users.go:298-325 | the clean list has distinct, trimmed, non-blank entries: exactly the trimmed non-blank forms of the input |
| StringLists.NormalizeSliceKeepsFirstOccurrences | internal/usecase/users.go:298-325 | entries are ordered by first occurrence in the input |
| StringLists.NormalizeSliceIdempotent | internal/usecase/users.go:298-325 | cleaning twice is cleaning once |
| StringLists.NormalizeStringSlice | internal/usecase/users.go:298-325 | the loop with its seen map computes that list |
| StringLists.SameStringSet | internal/usecase/attempts.go:489-506 | the two loops decide equal length and one-sided inclusion |
| StringLists.SameStringsIsSetEquality | internal/usecase/attempts.go:489-506 | on lists without repeats that is equality of the sets (pigeonhole) |
| Text.TrimIdempotent | internal/usecase/users.go:285-296 | a trimmed text has no white space at either end and trims to itself |
| JsonKeys.LastKey | migrations/00001_init_schema.sql:171 | of a set of keys exactly one is listed last, both by length and bytes, as jsonb does, and byte by byte, as the encoder does |
| JsonDocs.ListedTree | migrations/00001_init_schema.sql:171 | listing a tree in either order and reading it back gives the tree |
| JsonDocs.StoredValues | migrations/00001_init_schema.sql:171 | a tag that an object spells at most once is given back by the database with its one value |
| QuestionConfig.ExtractCorrectOptionIDs | internal/usecase/attempts.go:419-440 | the loop collects the cleaned ids of the flagged options; spellings of a tag are decoded one over the other, in document order, and anything ill-typed makes the configuration unreadable |
| QuestionConfig.FlaggedIdsContents | internal/usecase/attempts.go:432-439 | an id is collected exactly when some flagged option has it as its trimmed id |
| QuestionConfig.ExtractAcceptedAnswers | internal/usecase/attempts.go:458-483 | the loop collects the folded non-blank texts, camel-case list only when the snake-case one is empty |
| QuestionConfig.FoldedContents | internal/usecase/attempts.go:473-482 | a text is accepted exactly when it is the non-blank trimmed lower-case form of a listed answer |
| StoredConfig.StoredReading | internal/usecase/attempts.go:419-483 | if no object of a configuration spells a tag twice, options, boolean and texts read from what the database gives back are those that validation read |
| StoredConfig.TwoSpellingsRead | internal/usecase/attempts.go:442-456 | `{"correct": null, "Correct": b}` reads as b in the request and as nothing once stored |
| ConfigMeaning.CorrectMeaning | internal/usecase/attempts.go:442-456 | the boolean is the one that some entry says under a spelling of the tag |
| ConfigMeaning.OptionsMeaning | internal/usecase/attempts.go:419-430 | the options are the items of the list, each with the id it says, correct exactly when it says true under one of the two flags |
| ConfigMeaning.AcceptedMeaning | internal/usecase/attempts.go:458-471 | the texts are the items of the snake-case list, or of the camel-case one when that has none |
| ConfigMeaning.LastFlagCounts | internal/usecase/attempts.go:419-430 | of several flags the last that is not null counts; of an id likewise |
| ConfigMeaning.LastPointerCounts | internal/usecase/attempts.go:442-456 | of several values of the boolean the last counts, null or not |
| ConfigMeaning.LongerAgain | internal/usecase/attempts.go:419-430 | an option of a repeated, longer list keeps what an earlier list left in its place and it does not say itself |
| QuizValidation.ValidateChoiceOptions | internal/usecase/quizzes.go:120-146 | the scan counts the flagged options up to the first blank or repeated id, where it stops and refuses |
| QuizValidation.ScanMeaning | internal/usecase/quizzes.go:120-146 | the scan accepts exactly the lists with non-blank distinct ids |
| QuizValidation.ScanCount | internal/usecase/quizzes.go:130-145 | on accepted lists the count is the number of distinct correct ids that grading extracts |
| QuizValidation.ValidateQuestionConfig | internal/usecase/quizzes.go:68-118 | the errors of one configuration as the request spells it, by question type |
| QuizValidation.NormalizeQuestion | internal/usecase/quizzes.go:27-63 | the loop body: defaults, position, type, prompt and configuration checks in order |
| QuizValidation.NormalizeQuestionPayloads | internal/usecase/quizzes.go:19-66 | the loop stops at the first refused question and otherwise returns all with defaults filled in |
| QuizValidation.AcceptanceMeaning | internal/usecase/quizzes.go:19-66 | a list is accepted exactly when every question is sound alone and all final positions differ |
| QuizValidation.QuizAcceptedExactly | internal/usecase/quizzes.go:19-146 | a list is accepted exactly when every question has a known type, a prompt in both languages and a configuration that says enough for its type, and no two end up at one position; the defaults of position, points and configuration are the only changes |
| QuizValidation.ConfigErrorCodes | internal/usecase/quizzes.go:68-118 | which errors a configuration is refused with, told by what it lacks |
| QuizValidation.RejectionIsFirst | internal/usecase/quizzes.go:27-63 | the reported question is the first that is refused |
| QuizValidation.SettingsDefaults | internal/usecase/quizzes.go:148-176 | the defaults are 80 percent, three attempts, no time limit and no cooldown; refused are more than 100 percent and more than 730 days |
| QuizValidation.NormalizeQuizScoringAndAttempts | internal/usecase/quizzes.go:148-176 | the defaults, and no error exactly for a pass mark of 1 to 100, some attempts and at most 730 days |
| Grading.NormalizeSubmittedAnswers | internal/usecase/attempts.go:296-321 | the loop refuses an empty sheet, a blank or a repeated question id, and cleans the rest |
| Grading.NormalizedSheetMeaning | internal/usecase/attempts.go:296-321 | an accepted sheet is the given one answer by answer, with non-blank and distinct question ids |
| Grading.SheetAcceptedExactly | internal/usecase/attempts.go:284-321 | a sheet is accepted exactly when it is not empty and names each question once and none by a blank id |
| Grading.EvaluateQuestion | internal/usecase/attempts.go:372-417 | the points of the question exactly when `Earns` holds of the answer, else zero; what `Earns` means for each type is the subject of EarningAnswers |
| Grading.EvaluateAttempt | internal/usecase/attempts.go:348-370 | both totals of a sheet |
| GradingTheorems.EarnedWithinMax | internal/usecase/attempts.go:348-370 | with non-negative points, 0 ≤ earned ≤ max |
| GradingTheorems.PassThreshold | internal/usecase/attempts.go:100-107 | 0 ≤ score ≤ 100; passed exactly when the unrounded percentage reaches the pass mark less 0.005; never with max = 0 |
| GradingTheorems.BetterSheetStillPasses | internal/usecase/attempts.go:100-107 | a sheet that earns at least as much on each question passes where the other did |
| GradingTheorems.CorrectingOneAnswer | internal/usecase/attempts.go:348-370 | correcting one more answer never turns a pass into a fail |
| GradingTheorems.MultipleChoiceIsSetEquality | internal/usecase/attempts.go:383-392 | an answer earns the points exactly when the trimmed selected ids are the correct ids as sets |
| GradingTheorems.TotalIgnoresPresentation | internal/usecase/attempts.go:284-370 | the total ignores answer order, option order, repeated options and answers to unknown questions |
| GradingTheorems.TotalIgnoresOrder | internal/usecase/attempts.go:348-370 | a permuted sheet earns the same |
| GradingTheorems.EarnedIsSumOfRight | internal/usecase/attempts.go:348-370 | the earned total is the sum of the points of the questions that the sheet answers rightly |
| GradingTheorems.RoundToTwoIsNearest | internal/usecase/attempts.go:485-487 | rounding gives the nearest hundredth |
| PassableQuiz.AnswerableExactly | internal/usecase/attempts.go:372-417 | some answer earns the points of a question exactly when grading reads one correct option, a decodable option list, a boolean or a text from it, by its type |
| EarningAnswers.SingleChoiceHasOneAnswer | internal/usecase/attempts.go:374-382 | a stored single-choice question that was accepted and spells each tag once has one correct option, and exactly the answers selecting it alone earn the points |
| EarningAnswers.MultipleChoiceAnswers | internal/usecase/attempts.go:383-392 | for multiple choice exactly the answers that select the correct options, blank ones aside |
| EarningAnswers.TrueFalseHasOneAnswer | internal/usecase/attempts.go:393-401 | for true-false exactly the answers that give the one boolean that the configuration says |
| EarningAnswers.TextAnswers | internal/usecase/attempts.go:402-413 | for the text types exactly the answers whose text is a listed non-blank one, up to letter case and white space around it |
| PassableQuiz.KeptPoints | migrations/00001_init_schema.sql:169 | positive points are stored as a positive number exactly from half a hundredth on |
| PassableQuiz.PointsFitExactly | migrations/00001_init_schema.sql:169 | positive points fit their column exactly below 9999.995 |
| PassableQuiz.AcceptedQuizPassableExactly | internal/usecase/quizzes.go:19-176 | an accepted and stored quiz can be passed if and only if its maximum is positive and below a million and the questions that can be answered carry the pass mark; if no tag is spelt twice, if and only if some question has at least 0.005 points and the maximum is below a million, and then some sheet earns everything and scores exactly 100 |
| PassableQuiz.TinyQuestionCannotBePassed | internal/usecase/quizzes.go:50-52 | a question of 0.001 points is accepted and stored, and no sheet passes |
| PassableQuiz.TwoSpellingsCannotBePassed | internal/usecase/quizzes.go:105-108 | a worthwhile question whose configuration spells its tag twice is accepted and stored, and no sheet passes |
| Certificates.SerialRoundTrip | internal/usecase/certificates.go:247-257 | a serial has the form ddd-ddd-ddd and determines its number |
| Certificates.SerialsClashOnThreeBytes | internal/usecase/certificates.go:247-257 | two draws give one serial exactly when their first three bytes agree |
| Certificates.DrawLoopMeaning | internal/usecase/certificates.go:75-116 | the loop succeeds exactly when some draw fits and all before it clash; it reports a conflict exactly when all clash |
| Certificates.CreateExact | internal/usecase/certificates.go:39-117 | a request for a certificate succeeds exactly for an uncertified pair, a live enrollment, a course that issues certificates, a passed attempt of the same user and course, and lucky draws; the certificate carries them and the first free draw |
| Certificates.CreateRefusals | internal/usecase/certificates.go:45-73 | which error a refused request gets |
| Certificates.CreatedKeepsInv | internal/usecase/certificates.go:39-117 | the guards keep every certificate backed by a passed attempt and an enrollment of its user and course, and pairs, serials and hashes unique |
| Certificates.AutoIssueKeepsInv | internal/usecase/certificates.go:161-201 | so does automatic issuing, which adds nothing to a certified enrollment |
| Certificates.AutoIssueExact | internal/repository/postgres/certificates.go:244-277 | automatic issuing succeeds exactly for an uncertified live enrollment with certificates enabled, a pass and lucky draws, and then on the best passed attempt |
| Certificates.AutoIssueFailures | internal/usecase/certificates.go:161-201 | automatic issuing fails only for a dropped enrollment that is due a certificate and when the draws break off; conflicts are swallowed |
| Enrollments.EnrollKeepsOneLive | internal/usecase/enrollments.go:44-74 | enrolling keeps at most one live enrollment per user and course |
| Enrollments.CompletingCertifies | internal/usecase/enrollments.go:104-141 | completing leaves the enrollment certified exactly when it was, or when certificates are enabled, the user has passed and the draws are lucky |
| Lms.EarliestIsLeast | internal/repository/postgres/attempts.go:38-62 | the minimum is attained inside the window and no time inside is smaller; none exactly when the window is empty |
| Submissions.SubmitKeepsInv | internal/usecase/attempts.go:63-157 | a submit keeps the certificate invariant |
| Submissions.GateExact | internal/usecase/attempts.go:63-98 | a submit is graded exactly when ids and sheet are readable, the course exists, the user has no certificate for it and fewer than the allowed attempts count, or three; each refusal says what failed first |
| Submissions.PassingSubmitCertifies | internal/usecase/attempts.go:187-236 | after a passing submit the user is certified exactly when enrolled, certificates enabled and draws lucky; one new certificate, on the latest live enrollment and the best passed attempt |
| Submissions.RefusedUntilUnlock | internal/usecase/attempts.go:266-275 | a submit refused by the limit is refused again at every moment before the reported one, whatever is recorded meanwhile |
| Submissions.AdmittedFromUnlock | internal/usecase/attempts.go:266-275 | from the reported moment on the limit is open, if the check counted no more attempts than allowed and none is added |
| Submissions.OpensAtUnlockExactly | internal/usecase/attempts.go:259-275 | with nothing added, the limit is open from the reported moment on if and only if fewer than the allowed attempts lie after the earliest counted one |
| Platform.Platform.GetUserCourseAttemptWindow | internal/repository/postgres/attempts.go:38-62 | count and minimum of the starting times in the window |
| Platform.Platform.GetLatestByCourseAndUser | internal/repository/postgres/enrollments.go:144-163 | a live enrollment with the greatest time, or none exactly when there is no live one |
| Platform.Platform.FindAutoIssueCandidate | internal/repository/postgres/certificates.go:244-277 | a passed attempt of the enrollment's user and course that no other beats by score, finish and start |
| Platform.Platform.InsertCertificate | internal/repository/postgres/certificates.go:28-61 | refused with a conflict exactly when serial or hash is taken, else appended |
| Platform.Platform.CreateCertificate | internal/usecase/certificates.go:39-117 | checks in order, then at most five draws, retrying only on a clash |
| Platform.Platform.TryAutoIssueForEnrollment | internal/usecase/certificates.go:161-201 | the early exits, the candidate and the swallowed conflicts |
| Platform.Platform.TryAutoIssueCertificate | internal/usecase/attempts.go:187-236 | looks up and issues only after a pass and only for an enrolled user |
| Platform.Platform.Submit | internal/usecase/attempts.go:63-157 | checks, grading, the recorded attempt and the certificate; nothing changes on a refusal |
| Platform.Platform.Enroll | internal/usecase/enrollments.go:44-74 | refuses blank ids and a second live enrollment, else appends an active one |
| Platform.Platform.Complete | internal/usecase/enrollments.go:104-141 | completes a live enrollment, keeps a first completion time, then issues automatically |
| LmsRuns.CertificateInvHolds | internal/usecase/certificates.go:39-117 | the certificate invariant holds in every reachable state |
| LmsHistory.RecordedAttempt | internal/usecase/attempts.go:100-125 | every stored attempt was recorded by one submit: its maximum is the rounded sum of the points of the course, its earned total the rounded sum over the questions answered rightly, between zero and the maximum if no points are negative, and it is passed exactly when its score reaches the pass mark |
| LmsHistory.CertificateIsDue | internal/usecase/certificates.go:39-117 | every certificate of a run, by hand or automatic, was added while its course issued certificates, for a live enrollment and a passed attempt of its user and course |
| LmsHistory.AutomaticIsOnTheBest | internal/repository/postgres/certificates.go:244-277 | an automatic certificate is on the passed attempt with the greatest score, the later finish and start among equals, and on the only live enrollment of the user, which had none |
| LmsHistory.CompletingMarks | internal/usecase/enrollments.go:104-141 | completing marks a live enrollment completed, at the first completion time, and changes no other row |
| LmsHistory.EnrollmentStays | internal/usecase/enrollments.go:44-141 | user, course, enrolment time and first completion time of an enrollment never change, and a completed one stays completed |
| LmsHistory.EnrollingAppends | internal/usecase/enrollments.go:44-74 | enrolling appends one active row for the present time, or changes nothing |
| LmsRuns.ClosedAfterCertificate | internal/usecase/attempts.go:238-249 | once a user holds a certificate for a course, no attempt of that user there is ever recorded again |
| LmsRuns.PassIsCertifiedForGood | internal/usecase/attempts.go:63-236 | in every run a passing submit leaves a certificate exactly under enrollment, enabled certificates and luck; it stays and closes the quiz |
| LmsRuns.OneCertificateExact | internal/usecase/certificates.go:45-52 | no user ever holds two certificates for one course exactly in the runs in which every request to issue by hand fails a check, has no free draw, or is for a user without a certificate for the course |
| LmsWitnesses.SecondCertificateIsReachable | internal/usecase/certificates.go:45-52 | a run from the empty database in which a user who passed twice before enrolling is certified twice by hand |
| RacingIssues.RacingIssuesBound | internal/usecase/certificates.go:161-201 | with k automatic issuings in flight for an enrollment, it never gets more than k certificates, whatever else is written in between |
| RacingIssues.RacingIssuesBoundIsReached | internal/usecase/certificates.go:45-117 | from every database in which an enrollment is due a certificate some interleaving gives it as many as there are fresh draws, all for one attempt |
| RacingIssues.OneCertificateExactlyWithoutOverlap | internal/usecase/certificates.go:167-173 | an enrollment that is due a certificate gets one at most in all interleavings if and only if at most one issuing is in flight |
| LmsWitnesses.OverlapCertifiesTwice | internal/usecase/certificates.go:161-201 | a database reached from the empty one in which two overlapping issuings certify one enrollment twice |
| AttemptLimitRuns.AttemptWindowBound | internal/usecase/attempts.go:78-88 | in every run without starting times in the past, each interval as long as the cooldown holds at most the allowed attempts of a user at a course, even while settings change within that limit |
| LmsWitnesses.WindowKeptExactlyWithoutBackdating | internal/handler/http/attempts.go:53-58 | if clients may send starting times up to `slack` seconds in the past, the window bound holds in all runs if and only if `slack` is zero |
| LmsWitnesses.BackdatingEscapes | internal/usecase/attempts.go:109-112 | one second is enough: a run with one attempt more than the limit in a window |
| AttemptLimitRuns.NeverOverHolds | internal/usecase/attempts.go:78-88 | whatever starting times clients send, the limit check never counts more attempts than the limit |
| AttemptLimitRuns.UnlockIsExact | internal/usecase/attempts.go:251-275 | in every run with a fixed limit a refused user is refused before the reported moment and not refused by the limit from it on, whatever starting times clients send |
| LmsWitnesses.LoweredLimitUnlocksTooEarly | internal/usecase/attempts.go:259-275 | a run in which the limit is lowered between submits and the moment reported afterwards is too early |
| CertifiableCourse.AcceptedCourseCertifiableExactly | internal/usecase/attempts.go:63-157 | an accepted and stored course has a sheet that certifies every enrolled user whom the checks let through, given lucky draws, if and only if its stored quiz can be won; if no tag is spelt twice, if and only if it is worthwhile, and then such a sheet scores 100 |
| RacingSubmits.RacingBound | internal/usecase/attempts.go:78-88 | with k submits in flight per user and course, no window of the length of the cooldown, or all time without one, ever holds more than max + k − 1 attempts |
| RacingSubmits.RacingBoundIsReached | internal/usecase/attempts.go:78-125 | for every limit, cooldown and k some interleaving reaches that bound |
| RacingSubmits.LimitKeptExactlyWithoutOverlap | internal/usecase/attempts.go:78-125 | the limit is kept in all interleavings, in every window, if and only if at most one submit is in flight |
| AnswerKeyNames.AnswerKeysExactly | internal/handler/http/public_response.go:209-222 | a key is removed exactly when, trimmed and in lower case, it is the flag, "correct" or one of six names with or without underscores, in singular or plural |
| AnswerKeyNames.OtherKeysAreKept | internal/handler/http/public_response.go:209-222 | every key without the words "correct" and "answer" is kept |
| AnswerKeys.StrippedAt | internal/handler/http/public_response.go:192-222 | after removal a path shows what it showed before when no answer key is on it, else nothing |
| AnswerKeys.StrippedDependsOnlyOnPublic | internal/handler/http/public_response.go:192-207 | two trees have the same result if and only if they agree everywhere except under answer keys |
| AnswerKeys.NoAnswerKeyLeft | internal/handler/http/public_response.go:192-222 | no answer key is left at any depth |
| AnswerKeys.StrippedIdempotent | internal/handler/http/public_response.go:192-207 | removing twice is removing once |
| AnswerKeysInPlace.RemoveAnswerKeys | internal/handler/http/public_response.go:192-207 | the recursive walk deletes entries in place, touches only objects of the tree, and leaves the stripped tree |
| AnswerKeysInPlace.DescendInto | internal/handler/http/public_response.go:195-201 | pruning below one key disturbs no other entry of the object |
| AnswerKeysInPlace.PrunedMeaning | internal/handler/http/public_response.go:192-207 | the tree left behind stands for the stripped JSON value |
| PublicConfig.RemovedExactly | internal/handler/http/public_response.go:209-222 | a key that the decoder reads for one of the correctness tags, in any letter case, is removed exactly when it has no long s |
| PublicConfig.SanitizedRevealsNothingExactly | internal/handler/http/public_response.go:167-190 | from the sanitized bytes the extractors find no correct option, boolean or text exactly when the given configuration, its keys in the order of the encoder, has none under keys with a long s |
| PublicConfig.PlainConfigIsHidden | internal/handler/http/public_response.go:167-190 | so a configuration without a long s in any key is hidden completely |
| PublicConfig.LongSpellingIsNotHidden | internal/handler/http/public_response.go:209-222 | a configuration whose correct option is still found after sanitizing |
| PublicConfig.MarshalledOrderReveals | internal/handler/http/public_response.go:185-189 | a configuration with two option lists of which the extractor reads the empty one, and after sanitizing the one with the correct option |
| SessionCache.EntryLifetime | internal/cache/session_cache.go:73-102 | a stored identity is found exactly while the cache lifetime and the session last |
| SessionCache.CleaningIsInvisible | internal/cache/session_cache.go:34-71 | no later lookup can tell whether the eviction or an expired lookup removed entries |
| SessionCache.CleaningLeavesTheUnexpired | internal/cache/session_cache.go:34-71 | after the eviction exactly the entries that can still be found are left |
| SessionCache.Cache.Get | internal/cache/session_cache.go:49-71 | returns an unexpired identity and deletes an expired entry |
| SessionCache.Cache.Set | internal/cache/session_cache.go:73-102 | stores with the earlier of lifetime and session expiry; a blank token is ignored |
| SessionCache.Cache.Delete | internal/cache/session_cache.go:104-112 | removes one token; a blank token is ignored |
| SessionCache.Cache.Evict | internal/cache/session_cache.go:34-47 | the loop removes exactly the expired entries |
| Auth.CacheAgrees | internal/usecase/auth.go:285-324 | when the cached identity is the stored one, the answer is the same with and without the cache |
| Auth.AuthenticateCaches | internal/usecase/auth.go:285-324 | after an authentication the cache holds its answer, and nothing for the token after a refusal |
| Auth.RefreshIsExact | internal/usecase/auth.go:382-387 | a profile refresh leaves the stored identity in the cache exactly when the session is that user's, or its user row equals the new one |
| Auth.AuthUseCase.Authenticate | internal/usecase/auth.go:285-324 | cache hit, stored row, expiry and activity checks, and what is cached or dropped |
| Auth.AuthUseCase.constructor | internal/usecase/auth.go:78-111 | starts empty, with the lockout scope read from its configured text |
| Auth.AuthUseCase.Login | internal/usecase/auth.go:191-250 | the checks in order, the new session cached on success, a failed token or session reported, and the login recorded on every way out but missing fields |
| Auth.AuthUseCase.Logout | internal/usecase/auth.go:326-342 | removes session and cached identity together, or refuses and changes nothing |
| Auth.AuthUseCase.UpdateProfile | internal/usecase/auth.go:344-390 | saves the row and refreshes the caller's cached identity |
| Auth.AuthUseCase.ChangePassword | internal/usecase/auth.go:392-438 | saves the hash of a new password of eight bytes or more after the activity and password checks and drops the caller's cached identity; refused otherwise without change, also when the hash fails |
| AuthRuns.BoundedStaleness | internal/usecase/auth.go:285-324 | any identity returned was the stored one at a moment less than the cache lifetime ago, is active and within its session |
| AuthRuns.UnchangedSameAnswer | internal/usecase/auth.go:619-646 | while the stored identity has not changed for the cache lifetime, the cache makes no difference |
| AuthRuns.DeactivationTakesEffect | internal/usecase/auth.go:297-300 | a user inactive for the cache lifetime is refused in every session |
| AuthRuns.SessionEndsOnTime | internal/usecase/auth.go:225-247 | a session opened at t is refused after t and the session lifetime; until then, unless logged out, the stored accounts answer it exactly while its user is active |
| AuthRuns.PasswordChangeExact | internal/usecase/auth.go:392-438 | a password changes exactly for an active user with at least eight bytes that can be hashed and, if there is one, the accepted current password; then only the hash changes and the cached identity goes |
| AuthRuns.LogoutIsFinal | internal/usecase/auth.go:326-342 | after a successful logout the token is refused for ever |
| LoginLockout.FailuresAreCounted | internal/repository/postgres/login_attempts.go:19-68 | the count of a login includes every earlier failure of its key in the window, under the scopes that count the key |
| LoginLockout.LockoutBound | internal/usecase/auth.go:948-980 | every interval [t − W, t] holds at most maxLoginAttempts logins of one identifier, one address, or an account with a single spelling, that pass the gate and fail, under the scopes that count them |
| LoginRuns.LockedOutExactly | internal/usecase/auth.go:948-963 | in every run of calls a login is refused for too many attempts exactly when as many earlier calls as allowed failed in the window and share what the scope counts |
| LoginRuns.LoginExact | internal/usecase/auth.go:191-250 | a login succeeds exactly when both fields are given, it is not locked out, an active user is found by the email, the stored hash accepts the trimmed password and the session works |
| LoginRuns.RefusalsExact | internal/usecase/auth.go:191-222 | which of the other refusals a login meets |
| LoginRuns.LoginOpensSession | internal/usecase/auth.go:224-250 | a successful login stores a session for the session lifetime, and the token is answered at once; any other changes no account |
| LoginRuns.HistoryIsSequential | internal/usecase/auth.go:191-203 | the calls of `Login` in a run are a history in the sense of the lockout bound, and the rows are its rows |
| LoginRuns.LoginsAreBounded | internal/usecase/auth.go:191-203 | in every run every interval [t − W, t] holds at most maxLoginAttempts calls for one counted key that are let through and fail |
| LockoutScopes.LockoutBoundExact | internal/repository/postgres/login_attempts.go:19-68 | that bound holds in all histories of logins with an address if and only if the scope counts the key; for an account also its name must have a single spelling |
| LockoutScopes.LetteredAccountsAreNotBounded | internal/repository/postgres/users.go:118-125 | no scope bounds the failures of an account whose name holds a Latin letter |
| LockoutScopes.ConfiguredScopeBounds | internal/usecase/auth.go:965-972 | of the texts a scope can be configured with only "ip" leaves identifiers and only "identifier" leaves addresses unbounded, in any letter case and spacing |
| RacingLogins.RacingLoginsBound | internal/usecase/auth.go:191-203 | with k logins of a key in flight, every interval [t − W, t] holds at most maxLoginAttempts + k − 1 of them that pass the gate and fail |
| RacingLogins.RacingLoginsBoundIsReached | internal/usecase/auth.go:191-203 | for every key, limit and k some interleaving reaches that bound |
| RacingLogins.LockoutKeptExactlyWithoutOverlap | internal/usecase/auth.go:948-980 | for a key that the scope counts, the limit is kept in all interleavings if and only if at most one of its logins is in flight |
| SlidingWindow.WindowBound | internal/repository/postgres/attempts.go:38-62 | if every event was admitted below the limit in its own window, every window position holds at most the limit |

## Left out

- IEEE rounding: points and percentages are real numbers and `math.Round` is exact. What the NUMERIC columns keep of points, totals and scores is modelled.
- JSON text: configurations are parsed documents or "malformed". The difference between decoding a first value and the whole text, texts that jsonb refuses and numbers that it rewrites are not modelled.
- QuestionConfig.ExtractAcceptedAnswers: lower case is modelled for Latin letters, U+0130, the Kelvin sign and the Cyrillic letters of Russian and Tajik; other letters are left unchanged.
- Database errors on reads, context cancellation outside the delivery loop, HTTP handlers, routing, logging, audit entries, uploads and configuration files.
- Validation of identifiers as UUIDs, and blank-identifier checks where a row is named by its position.
- Cryptography and randomness: hashes, tokens, serials and signatures are given values; a token is never reused, and the password comparison is a parameter.
- `GetByTokenWithUser` is modelled as the intended join; as written it selects one column more than it scans (internal/repository/postgres/sessions.go:71-82, internal/repository/postgres/sessions.go:152-177).
- The date in the limit message: the message shows the day of the unlock moment, the model the moment itself.
- Deleting courses, users or sessions by other means than logout, and dropping an enrollment, which no operation of the modelled code does.
- Lease timing: a turn of a worker, dispatch and mark statement together, is bounded by the time per event; the 20 s limit of the source covers the dispatch only.
- Order inside a claimed batch: the update returns rows in no promised order, so only the choice of the oldest rows is stated.
- The stored delivery result's `updated_at`, the delivery request itself, and its signature.
- A failed write of a login record: the lockout statements assume that each login past the field checks is recorded.
- One clock read per cache and authentication operation: the source reads it two or three times in a row.
- Auth.AuthUseCase.UpdateProfile: the field checks of the profile and its merge into the row are not modelled; the row to save is a parameter.
- Password resets, Google and reCAPTCHA verification and registration: they enter the runs as writes of a user row and as opened sessions.
- AttemptLimitRuns.AttemptWindowBound: assumes that submits do not overlap; overlapping submits are the subject of RacingSubmits, where starting times are left to the server.
- LoginLockout.LockoutBound: assumes that logins do not overlap; overlapping logins are the subject of RacingLogins.
- LmsRuns.OneCertificateExact: takes one operation at a time; overlapping automatic issuing is the subject of RacingIssues, in which no certificate is issued by hand meanwhile.
- AuthRuns.BoundedStaleness: assumes a positive cache lifetime and that a profile update comes with a token of the same user.
- Modules, content blocks, reviews, notifications, course packages, list filters and the migrator are not modelled.
