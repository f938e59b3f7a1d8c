# JobPilot: a Dafny model of its protocols and evidence rules

JobPilot matches a person's saved profile to job postings, drafts application answers and fills
forms through a browser extension. This project models the parts of it whose correctness is hardest
to see from one function, and proves what they promise. `dafny verify dfyconfig.toml` checks the
whole project.

## What is modelled

| files | part of the system |
|---|---|
| `lease.dfy` | `SourceLease`: one leased row, workers, heartbeat threads, crashes, a database clock read before the update that uses it |
| `paid_run.dfy`, `paid_request.dfy` | the paid AI batch: unique-key insert, one provider call, compare-and-set finish, concurrent expiry |
| `answer_cache.dfy`, `prepare_answers.dfy` | `prepare_answers`: the per-question cache, owner lock, claims, stale takeover, two-step finish |
| `text.dfy`, `chunks.dfy`, `sequences.dfy` | whitespace rules; the two exact-slice chunkers; sublists |
| `citations.dfy` | issued spans, the catalog, ranges resolved to exact slices |
| `evidence.dfy`, `evidence_theorems.dfy`, `exact_outcomes.dfy`, `reasons.dfy`, `requirement_row.dfy` | the three-valued requirement logic through its four stages, with the exact outcomes and reasons |
| `assessment.dfy`, `batch.dfy` | related evidence, career strengths, flags, the final order, gap correction on saved results |
| `drafts.dfy`, `question_sources.dfy` | the draft budget; the catalog of question passages |
| `grants.dfy`, `grant_limit.dfy`, `connection.dfy`, `handshake.dfy` | extension authorization (RFC 7636, RFC 6749) on the server, and the extension's handlers run against it |
| `ats_fill.dfy`, `fill_report.dfy` | one reviewed form fill against an arbitrary page, its report and both consumers |
| `review_store.dfy`, `review_fill.dfy` | the application bridge: bounded single-use reviews and re-authorized writes |
| `skill_mentions.dfy`, `positive_profile.dfy`, `quote_contexts.dfy`, `skill_matching.dfy` | skill evidence with vetoes |

## How it is modelled

A protocol is a state, a datatype of steps and a total function `Next`; a step that does not apply
changes nothing, so a run is any list of steps and every interleaving, crash and delay is a run. A
committed transaction is one step; reading a clock or a row and writing later are separate steps.
The UPDATE statements that the machines take are functions on a row, and each is also a method of a
class whose fields are that row's columns. A loop that the source runs is a method with the same
loop, proved equal to the function that the lemmas are about.

Regular-expression tests and vocabularies are uninterpreted: they are function-valued fields of
`Rules`, `CareerRules`, `Reader`, `Scanner`, `Tables` and `Tests`, so every result holds for all of
them. SHA-256 and the content hashes are injective constructors, and random tokens are fresh numbers.
Integers in the source are Python or script numbers without a width.

## What the code does not keep

Seven promises that a reader might expect do not hold as they stand. Each has a member that shows it,
and the exact condition under which the promise does hold.

- `prepare_answers` reads the row and writes it later (backend/app/answer_preparation/service.py:1154-1165).
  A late write can forget a later claim, whose question is then asked of the model again
  (`PrepareAnswers.LateWriteIsReachable`, `LateWriteReasks`). A write keeps the promise exactly when everything
  asked after its claim has a shared mapping (`LateWriteIff`), and over all runs whose writes meet that
  condition each question is asked once (`PendingOnce`). If the read and the write are one step, they
  always do (`AtomicFinishesAreQuiet`, `QuietRunIsHarmless`).
- A range over a whitespace-only line inside a saved education entry resolves, and after stripping it
  is empty, so a row supported by it rejects the whole batch
  (`EvidenceTheorems.BlankEducationLineIsRefused`). Resolved rows are rejected exactly for such blank support
  (`ResolvedRejectedIff`).
- Two `complete` messages can both read one pending request before either removes it, and then two
  exchanges are sent. Without such an overlap there is at most one (`Connections.OneExchangePerRequest`), and
  every overlap, in every state, can send two (`OverlapSendsTwice`), so the condition is exact (`ApartIff`). The
  server still exchanges each grant at most once.
- An exchange can succeed after a logout has committed, exactly when its grant was inserted after the
  logout's UPDATE and was not touched since; its token is never accepted (`Grants.ExchangeAfterLogoutIff`).
- A fence can extend a lease that has already run out, because the clock is read before the row is
  locked. This happens exactly when the lease runs out between the reading and the update
  (`Leases.LateFenceIff`, `LateInHistoryIff`). The lease stays exclusive (`RunsAreLegal`).
- The limit of twenty live authorizations for a login is counted before the insert. With k calls between count
  and insert at once the bound is 19 + k (`GrantLimits.LimitHolds`), it is reached (`OverlapReachesBound`), and
  one insert keeps the limit exactly when fewer than twenty are live by then (`InsertKeepsLimitIff`).
- A conflict that the model had already listed among twenty warnings can be pushed off the list by a later one
  (`Batches.ListedNoteIsLost`). Nothing is lost exactly when the warnings and the notes not yet listed are at
  most twenty (`NothingLostIff`).

## Model

| member | source | states |
|---|---|---|
| Leases.RunsAreLegal | backend/app/ingestion/locks.py:51-143 | In every run of any number of workers and heartbeat threads, with crashes and with clock reading and update apart, the claims, fences and releases form a legal history of one sequential lease, and the row always shows the lease that history leaves in force. |
| Leases.StepKeepsInv | backend/app/ingestion/locks.py:51-143 | Each single step (clock read, claim, fence taking the row lock, commit, rollback, release, crash, tick) keeps that invariant. |
| Leases.FencePassesIff | backend/app/ingestion/locks.py:85-105 | A fence passes exactly when the history leaves this token in charge and its lease outlasts the clock reading used; then the token is the newest one issued. |
| Leases.TakeoverOnlyWhenFree | backend/app/ingestion/locks.py:51-83 | A claim succeeds only on a lease that is free or has really expired, and then the whole row is stated: the claimer's fresh token, its reading plus the lease time, and the run id as stored. |
| Leases.ClaimIff | backend/app/ingestion/locks.py:51-83 | Exactly when a claim succeeds: no lease is in force at its clock reading; a worker that saw no row needs it still missing; else nothing changes. |
| Leases.OldTokenIsShutOut | backend/app/ingestion/locks.py:85-105 | After a takeover, in every continuation, the old token never passes a fence, its commit publishes nothing and its release changes nothing. |
| Leases.FencesFollowClaims | backend/app/ingestion/locks.py:85-105 | After a token is claimed, every later publication is by that token or a newer one. |
| Leases.HolderIsNewest | backend/app/ingestion/locks.py:51-83 | Only the newest token can hold the lease. |
| Leases.ClaimsWaitForExpiry | backend/app/ingestion/locks.py:64-74 | A claim that replaces a lease takes effect no earlier than the time that lease runs out. |
| Leases.LateFenceIff | backend/app/ingestion/locks.py:85-105 | Exactly when a fence passes although the lease has run out by the time its update lands: its token still holds the lease, and the lease ran out after the clock reading and no later than the update; an update that lands earlier, or at the time of its reading, is never late. |
| Leases.LateInHistoryIff | backend/app/ingestion/locks.py:85-105 | In every legal history a fence lands late exactly when the lease it renews ran out between its reading and its commit, and even then the lease is its own. |
| Leases.StaleClockFenceStillLands | backend/app/ingestion/locks.py:85-105 | A concrete run with a late fence, in which the waiting claimer is refused: the update excludes it instead of sharing. |
| Leases.LeaseRow.Claim | backend/app/ingestion/locks.py:64-80 | The claim UPDATE on the row object: when it changes the row and the whole new state. |
| Leases.LeaseRow.Fence | backend/app/ingestion/locks.py:87-105 | The fence UPDATE on the row object, with the optional run id. |
| Leases.LeaseRow.Release | backend/app/ingestion/locks.py:130-143 | The release UPDATE: clears the owner and expiry of this token only. |
| Leases.FenceLeaves | backend/app/ingestion/locks.py:85-105 | The row that a passing fence leaves once it commits: the same owner, the clock reading as heartbeat, an expiry 300 seconds after it, and the run id if one is given. |
| Leases.ReleaseLeaves | backend/app/ingestion/locks.py:130-143 | A release clears owner and expiry for its own token and leaves another's row as it is. |
| PaidRuns.AtMostOneCall | backend/app/ai_recommendations/service.py:755-838 | In every interleaving of any number of requests and expiries, with crashes, a (user, input hash) pair gets at most one provider call. |
| PaidRuns.TerminalForever | backend/app/ai_recommendations/service.py:495-510 | A row is never lost, leaves running at most once and never changes after that. |
| PaidRuns.RowsAgree | backend/app/ai_recommendations/service.py:755-869 | Running exactly when an owner token is set, succeeded exactly when a report is stored, failed exactly when an error is; a stored answer is the one the provider gave for that key, written before the expiry; a lease failure is written only after it. |
| PaidRuns.ReturnsAreSettled | backend/app/ai_recommendations/service.py:839-869 | The request that paid for the call always returns the terminal row; any other request returns the terminal row or one that had not expired when it looked. |
| PaidRuns.LostFinishIsExpired | backend/app/ai_recommendations/service.py:852-869 | When the finish matches no row, the row is already terminal or the expiry that follows is bound to succeed. |
| PaidRuns.NoClaimConflict | backend/app/ai_recommendations/service.py:777-789 | The 409 after a lost insert cannot happen. |
| PaidRuns.StepKeepsInv | backend/app/ai_recommendations/service.py:755-869 | Each step of a request keeps the invariant behind the results above. |
| PaidRuns.RunRow.Finish | backend/app/ai_recommendations/service.py:852-866 | The finish UPDATE, guarded by owner, status and expiry, and the whole row it leaves. |
| PaidRuns.RunRow.Expire | backend/app/ai_recommendations/service.py:495-510 | The expiry UPDATE and the whole row it leaves. |
| PaidRuns.RunRow.constructor | backend/app/ai_recommendations/service.py:765-774 | The inserted row, with the longer of 180 seconds and the timeout plus 60. |
| PaidRuns.InsertStores | backend/app/ai_recommendations/service.py:765-789 | A claim that finds no row inserts a running one with its own token, empty report and error, expiring 180 seconds, or the timeout and 60 more if that is longer, after its clock reading. |
| PaidRuns.FinishIff | backend/app/ai_recommendations/service.py:852-866 | Exactly when a finish takes effect, and that it stores the provider's answer or its error. |
| PaidRuns.ExpireIff | backend/app/ai_recommendations/service.py:495-510 | Exactly when an expiry takes effect, and that it stores the lease failure. |
| PaidRequests.FirstRequestPays | backend/app/ai_recommendations/service.py:755-869 | An undisturbed request for a new batch, from every state and for every provider delay: one call, and it returns the row it stored, which holds the provider's answer exactly when that came within the longer of 180 seconds and the timeout plus 60, else the lease failure. |
| PaidRequests.LaterRequestReads | backend/app/ai_recommendations/service.py:754-760 | A request for a stored batch calls nobody and returns the row, failed first if its time is over. |
| PaidRequests.RaceLoserReads | backend/app/ai_recommendations/service.py:776-789 | Neither does a request that loses the race to insert. |
| AnswerCaches.FailPendingKeys | backend/app/answer_preparation/service.py:1029-1038 | The loop of `_fail_pending` records every pending key as failed and fills only the missing draft kinds. |
| AnswerCaches.FailPendingCaches | backend/app/answer_preparation/service.py:1029-1038 | After `_fail_pending` a key is cached exactly when it was cached before or was pending. |
| AnswerCaches.MergeSharedCaches | backend/app/answer_preparation/service.py:1002-1008 | Merging the shared mappings caches exactly the old keys and the shared ones. |
| AnswerCaches.Needed | backend/app/answer_preparation/service.py:952-967 | The loop of `_needed` returns exactly the questions that neither the local rules nor the cache answer, and whether the drafts are needed. |
| AnswerCaches.UnknownMeaning | backend/app/answer_preparation/service.py:952-967 | Membership of a question in that list, both directions. |
| AnswerCaches.PendingIsUncached | backend/app/answer_preparation/service.py:1074-1079 | Nothing that is cached enters the pending list of a new call. |
| AnswerCaches.ResultCaches | backend/app/answer_preparation/service.py:1090-1153 | Whatever the model answers, the result of a call caches exactly the keys known before and the pending ones. |
| AnswerCaches.ResultEntries | backend/app/answer_preparation/service.py:1090-1153 | What each of those keys holds: of a usable plan the plan's own answer, for any other pending question `question_not_analyzed`; after an error every pending question that error; every other key the entry it had. |
| AnswerCaches.ResultDrafts | backend/app/answer_preparation/service.py:1090-1153 | The same for each kind of draft: the plan's draft, else the one already cached, else the failure if drafts were asked for, else none. |
| AnswerCaches.ErrorIff | backend/app/answer_preparation/service.py:1109-1133 | A plan is usable exactly when it answers only questions among the first forty shown, and brings drafts only if they were pending. |
| AnswerCaches.AskedIff | backend/app/answer_preparation/service.py:1074-1079 | What a call asks: exactly the open questions that the merged cache does not answer, and the drafts when a first page asks and none were attempted. |
| AnswerCaches.NeedsCommonIff | backend/app/answer_preparation/service.py:952-967 | When drafts are asked for. |
| AnswerCaches.FailPendingEntries | backend/app/answer_preparation/service.py:1029-1038 | What each question key holds after `_fail_pending`. |
| AnswerCaches.MergeSharedEntries | backend/app/answer_preparation/service.py:1002-1008 | What each key holds after the merge: the shared mapping if there is one, else the cached entry; drafts stay as they were. |
| PrepareAnswers.PendingOnce | backend/app/answer_preparation/service.py:1041-1170 | Each question key is pending in at most one model call, over all runs in which every finishing write, quiet or late, finds everything asked after its claim already shared. |
| PrepareAnswers.PendingOnceIfQuiet | backend/app/answer_preparation/service.py:1154-1165 | In particular when every finishing write lands while its claim is still current. |
| PrepareAnswers.QuietRunIsHarmless | backend/app/answer_preparation/service.py:1154-1165 | Quiet runs meet that condition. |
| PrepareAnswers.ExitCachesPending | backend/app/answer_preparation/service.py:1057-1090 | Every exit from running, by finish, error or takeover, leaves all pending keys in the stored cache; if a harmless late write ends it, they are shared. |
| PrepareAnswers.SettledForever | backend/app/answer_preparation/service.py:1002-1038 | A key that is cached or shared stays so in every continuation whose late writes are harmless. |
| PrepareAnswers.SharedOnlyGrows | backend/app/answer_preparation/service.py:1011-1026 | Shared fact mappings are never lost, in any run at all. |
| PrepareAnswers.StepKeepsInv | backend/app/answer_preparation/service.py:1041-1170 | Each step (lock and read, decide, answer, finishing read, harmless finishing write, crash, sharing from another job) keeps the invariant. |
| PrepareAnswers.AtomicFinishesAreQuiet | backend/app/answer_preparation/service.py:1154-1165 | If the finishing read and write are one step, every run is quiet; only a finish that has mappings to share waits for the owner lock. |
| PrepareAnswers.LateWriteIff | backend/app/answer_preparation/service.py:1154-1165 | A finishing write, late or not, keeps the invariant exactly when everything asked after its claim is shared; with no later claim it always does. |
| PrepareAnswers.LateWriteReasks | backend/app/answer_preparation/service.py:1154-1165 | Every other write, followed by one ordinary request, asks the model for the same question or drafts again. |
| PrepareAnswers.LateWriteIsReachable | backend/app/answer_preparation/service.py:1057-1090 | Such a state is reachable: read, be taken over, let another request claim, then write. |
| PrepareAnswers.Preparation.Interrupt | backend/app/answer_preparation/service.py:1062-1069 | The stale takeover on the run object: whole new state. |
| PrepareAnswers.Preparation.Reclaim | backend/app/answer_preparation/service.py:1085-1088 | Claiming an existing run leaves its stored cache as it was. |
| PrepareAnswers.Preparation.Finish | backend/app/answer_preparation/service.py:1156-1161 | The finishing assignment on the run object: whole new state. |
| PrepareAnswers.FinishStores | backend/app/answer_preparation/service.py:1154-1165 | After a finishing write the row is ready, or failed with the error; it holds each answer of the plan, a reason for each other question of the call and the older entries; exactly the answered mappings become shared. |
| PrepareAnswers.TakeoverStores | backend/app/answer_preparation/service.py:1057-1070 | A takeover waits until the stale time is over; then each pending question holds the interruption, every other key the shared mapping or the entry it had, and no call is claimed. |
| PrepareAnswers.ClaimIff | backend/app/answer_preparation/service.py:1070-1090 | A request that finds no live call claims exactly when something is still needed, and asks exactly for that. |
| Text.NormalPreservesIn | backend/app/ai_recommendations/service.py:255-256 | Whitespace normalization by split and join preserves the substring relation, for all texts. |
| Text.WordsAreWords | backend/app/ai_recommendations/service.py:255-256 | Every word of a split text is non-empty and free of whitespace. |
| Text.WordsKeepText | backend/app/ai_recommendations/service.py:255-256 | Splitting loses exactly the whitespace. |
| Text.StripKeepsNormal | backend/app/ai_recommendations/service.py:255-256 | Stripping both ends never changes a containment check. |
| Chunks.SegmentsChunked | backend/app/ai_recommendations/citations.py:109-128 | Citation segments are ordered, disjoint, trimmed spans of at most 240 characters that contain every non-whitespace character. |
| Chunks.CoveredOnce | backend/app/ai_recommendations/citations.py:109-128 | No character lies in two spans of one chunking. |
| Chunks.SegmentEndsAtBreak | backend/app/ai_recommendations/citations.py:109-119 | A segment never runs past the first sentence break and is cut elsewhere only when its window has none. |
| Chunks.Segments | backend/app/ai_recommendations/citations.py:109-128 | The generator, with its moving offsets, yields exactly those spans. |
| Chunks.LinesOrdered | backend/app/ai_recommendations/citations.py:137-146 | Education entries are cut into whole lines: ordered, disjoint, covering everything but line breaks. |
| Chunks.PassagesChunked | backend/app/answer_preparation/service.py:198-215 | Bounded passages are ordered, disjoint, trimmed spans within the given limit that contain every non-whitespace character. |
| Chunks.PassageEndsAtStop | backend/app/answer_preparation/service.py:198-212 | Where a passage is cut: the last stop at least eighty characters in, else the last space, else the limit. |
| Chunks.BoundedPassages | backend/app/answer_preparation/service.py:198-215 | The generator yields exactly the quotes of those spans, each an exact slice. |
| Chunks.StripIsTrimmed | backend/app/answer_preparation/service.py:212-215 | The stripped piece is the slice its trimmed span names. |
| Drafts.MakeDraft | backend/app/answer_preparation/service.py:450-488 | `_draft` refuses a bad plan or assembles exactly the kept excerpts; its text is at most 736 characters, so the 900-character rejection is never taken. |
| Drafts.KeepWhatFits | backend/app/answer_preparation/service.py:462-476 | The selection loop equals the greedy selection. |
| Drafts.GreedyInBudget | backend/app/answer_preparation/service.py:462-476 | The greedy selection stays within the 700-character budget it starts in. |
| Drafts.DroppedDoesNotFit | backend/app/answer_preparation/service.py:462-476 | A row left out does not fit beside the final selection. |
| Drafts.SelectionInBudget | backend/app/answer_preparation/service.py:462-476 | The budget covers applicant and job excerpts together, and neither required excerpt is lost. |
| Drafts.AssembledLength | backend/app/answer_preparation/service.py:477-488 | The assembled text is at most 736 characters for every kind and selection. |
| Drafts.AssembledText | backend/app/answer_preparation/service.py:477-488 | What a draft says: the kept job excerpts as the role and then the kept applicant excerpts as the background, or the applicant excerpts under the heading of their kind, word for word, in order, with single spaces. |
| Drafts.PlanErrorIff | backend/app/answer_preparation/service.py:450-461 | Which plans are refused, and for which reason: references not issued by their side or repeated, experience without an experience source or a performed activity, a motivation without and any other draft with job sources. |
| Drafts.SelectionIsIssued | backend/app/answer_preparation/service.py:450-476 | The first applicant excerpt (and the first job excerpt of a motivation) is kept, order is kept, and every citation is an issued source. |
| QuestionSources.Build | backend/app/answer_preparation/service.py:294-338 | The catalog holds at most 64 exact slices, none repeated under its source and field; each document row lies in a run of lines without a heading inside and carries the section of the last heading up to it; a fact is recorded as confirmed missing exactly if nothing was truncated, and then every visible character of the whole document was shown in a passage of the document itself and every passage of the other texts is listed under its field; truncation is reported only for a long document or a full catalog. |
| QuestionSources.AddDocument | backend/app/answer_preparation/service.py:317-331 | The section loop over lines adds exact slices, each under the section of the last heading up to its block, and, unless truncated, shows every visible character of the document. |
| QuestionSources.Catalog.AddQuote | backend/app/answer_preparation/service.py:304-314 | One turn of the nested `add`: whole new state. |
| QuestionSources.Catalog.Add | backend/app/answer_preparation/service.py:304-314 | The unseen passages of one text are appended until the catalog is full. |
| QuestionSources.LineStopIs | backend/app/answer_preparation/service.py:321-321 | A line ends with the first terminator from its start on, the pair of carriage return and line feed counting as one, or with the text. |
| QuestionSources.ShownInWhole | backend/app/answer_preparation/service.py:322-331 | Passages of a block are passages of the whole text. |
| Citations.CatalogOfIsCatalog | backend/app/ai_recommendations/citations.py:131-163 | The catalog holds every issued span under its own id and nothing else. |
| Citations.SourceCatalog | backend/app/ai_recommendations/citations.py:131-163 | The method that fills the dictionary computes that catalog. |
| Citations.ResolveExact | backend/app/ai_recommendations/citations.py:185-211 | A range resolves to a contiguous slice of one saved entry of the source asked for, at most 4000 characters, without a redaction marker. |
| Citations.ResolveIff | backend/app/ai_recommendations/citations.py:185-211 | Exactly when a range of issued ids resolves; the ordinal, end, text and bounds comparisons never decide anything. |
| Citations.SameIdSameSpan | backend/app/ai_recommendations/citations.py:137-163 | An issued id names one span of its entry. |
| Citations.QuoteContained | backend/app/ai_recommendations/citations.py:185-211 | No resolved quote can fail a later containment check against the text it came from, even after stripping. |
| Citations.QuoteTrimmed | backend/app/ai_recommendations/citations.py:185-211 | Only an education line can resolve to whitespace. |
| EvidenceTheorems.SupportedOnlyIfModelSaidSo | backend/app/ai_recommendations/service.py:263-492 | Through resolve, validate with its recursion, prioritize and gap correction, a row or condition ends supported only if the model called it supported (promotions off). |
| EvidenceTheorems.SupportedSatisfiesOperator | backend/app/ai_recommendations/service.py:443-456 | A final supported row satisfies its operator over its final conditions: all for atomic and all_of, some for any_of, never unspecified. |
| ExactOutcomes.RowSupportedIff | backend/app/ai_recommendations/service.py:263-492 | Exactly when a requirement ends supported: the model said so, its final conditions meet its operator, and none of the rules on scope, activity, availability, years, degree, compounds, construction and dates applies at the text that it reads. |
| ExactOutcomes.ConditionSupportedIff | backend/app/ai_recommendations/service.py:399-442 | Exactly when a condition ends supported: the model said so, its citation lies in the row's, and none of those rules, nor the one on subjects, applies to its own words. |
| ExactOutcomes.RowGapIff | backend/app/ai_recommendations/evidence_rules.py:213-249 | Exactly when a requirement ends a gap: explicit education dates, or the model's own gap, borne out by its conditions, none of them bare, with a negative statement in its quotation. |
| ExactOutcomes.ConditionGapIff | backend/app/ai_recommendations/service.py:399-442 | Exactly when a condition ends a gap. |
| ExactOutcomes.ResolvesIff | backend/app/ai_recommendations/citations.py:241-313 | Exactly when a requirement resolves at all. |
| ExactOutcomes.PromotionIff | backend/app/ai_recommendations/evidence_rules.py:136-193 | What the promoting branch, when it is on, newly supports, and that it changes no other outcome. |
| ExactOutcomes.ValidatedIsQuoted | backend/app/ai_recommendations/service.py:282-303 | Whatever its origin, a row that passes validation cites the posting and an entry of its own field, and support shows no redaction. |
| Reasons.FinalReason | backend/app/ai_recommendations/service.py:259-456 | The final row in full: an outcome the model keeps carries the model's own reason, and one the server lowered carries the words of a rule that applies to it, or the standard explanation. |
| Reasons.ConditionReason | backend/app/ai_recommendations/service.py:399-442 | The same for each condition, within 1000 characters. |
| Reasons.AppendedReasonFits | backend/app/ai_recommendations/service.py:259-260 | An appended note is never cut and the reason stays within 2000 characters, for every note under 2000. |
| ExactOutcomes.FirstErrorWins | backend/app/ai_recommendations/citations.py:268-296 | The loop over conditions fails with the first failing condition's error. |
| EvidenceTheorems.SupportedIsQuoted | backend/app/ai_recommendations/citations.py:241-313 | A final supported row shows a contiguous, nonempty slice of one saved profile entry of at most 4000 characters without a redaction marker, and each supported condition cites such a slice inside it. |
| EvidenceTheorems.GapProvenance | backend/app/ai_recommendations/evidence_rules.py:213-249 | A final gap of a row is the model's own gap with a negative statement in its quotation, or comes from explicit education dates. |
| EvidenceTheorems.ConditionGapProvenance | backend/app/ai_recommendations/service.py:399-442 | A final gap of a condition comes from explicit education dates under a row that cites the education entry, or is the model's own gap with a negative statement in its quotation. |
| EvidenceTheorems.CheckOnlyLowers | backend/app/ai_recommendations/service.py:399-442 | What the one-row recursion keeps of a condition that ends supported or a gap. |
| EvidenceTheorems.ResolvedRejectedIff | backend/app/ai_recommendations/service.py:282-303 | Validation of a resolved row fails exactly when a supported row or condition cites only whitespace. |
| EvidenceTheorems.BlankSupportNeedsEducation | backend/app/ai_recommendations/service.py:291-303 | For a requirement with a condition that takes a whitespace-only line of the education field. |
| EvidenceTheorems.BlankEducationLineIsRefused | backend/app/ai_recommendations/service.py:291-303 | A concrete saved profile, with a line of one space inside its education entry, whose citation resolves and then rejects the whole batch. |
| EvidenceTheorems.BlankLines | backend/app/ai_recommendations/citations.py:137-146 | That entry is trimmed as a profile stores it, and its blank line is issued. |
| EvidenceTheorems.SupportedRowComesOut | backend/app/ai_recommendations/service.py:263-492 | The four stages let an honestly supported requirement through unchanged, so the results about supported rows are not empty. |
| EvidenceTheorems.GuardedOnlyLowers | backend/app/ai_recommendations/service.py:304-398 | The validation guards only ever turn an outcome into unknown. |
| EvidenceTheorems.PrioritizedOnlyLowers | backend/app/ai_recommendations/evidence_rules.py:136-267 | With promotions off, prioritizing keeps or lowers an outcome, except for the gap introduced by explicit education dates. |
| EvidenceTheorems.ValidateRowKeeps | backend/app/ai_recommendations/service.py:263-456 | What validation keeps of a row and of each condition, and that a supported row meets its operator. |
| EvidenceTheorems.ResolveEstablishes | backend/app/ai_recommendations/citations.py:241-313 | What resolving one requirement guarantees to the later stages. |
| EvidenceTheorems.NotRejected | backend/app/ai_recommendations/service.py:282-303 | The containment checks never reject exact quotations. |
| RequirementRows.RequirementRow.Guard | backend/app/ai_recommendations/service.py:282-398 | The guards on the row object: reject, or lower in place; whole new state. |
| RequirementRows.RequirementRow.Validate | backend/app/ai_recommendations/service.py:263-456 | The whole validation of one row object, with its loop over conditions and the one-row recursion. |
| RequirementRows.RequirementRow.ValidateCondition | backend/app/ai_recommendations/service.py:399-442 | One condition goes through its own row object and counts only if its citation lies within the parent's. |
| RequirementRows.RequirementRow.CheckCompound | backend/app/ai_recommendations/evidence_rules.py:136-193 | `_compound_evidence` on the row object. |
| RequirementRows.RequirementRow.CheckConstruction | backend/app/ai_recommendations/evidence_rules.py:35-90 | `_construction_evidence` on the row object. |
| RequirementRows.RequirementRow.Prioritize | backend/app/ai_recommendations/evidence_rules.py:204-249 | `prioritize_assessment` on one row object. |
| RequirementRows.RequirementRow.Correct | backend/app/ai_recommendations/gap_evidence.py:33-52 | `correct_unverified_gaps` on one row object. |
| Assessments.RelatedNeverRejected | backend/app/ai_recommendations/citations.py:314-360 | Nothing the resolver kept as related evidence can fail the later checks; each is an exact slice of the saved experience, listed once. |
| Assessments.ValidateStrengths | backend/app/ai_recommendations/career.py:161-171 | The strength loop rejects exactly on a malformed point; else it keeps exactly the backed points, reworded where no source makes them safe, and reports whether anything changed. |
| Assessments.ReviewIsExact | backend/app/ai_recommendations/career.py:161-171 | Which points remain, by the rows alone: a requirement that is supported with a field and a quotation, a condition that is, or a related activity of the requirement; every other well-formed point is dropped. |
| Assessments.SourcesIff | backend/app/ai_recommendations/career.py:61-88 | The sources of a point are exactly what backs it, each with that category, field, quotation and statement; a point is malformed exactly when it names a row or condition that is not there, or a condition without that basis. |
| Assessments.SliceCareerContained | backend/app/ai_recommendations/career.py:37-38 | An exact slice passes the case-folded containment check, whatever folding does to characters. |
| Assessments.Rank | backend/app/ai_recommendations/evidence_rules.py:264-267 | The in-place sort and renumbering equals the stable sort by flag and rank. |
| Assessments.RankingMeaning | backend/app/ai_recommendations/evidence_rules.py:264-267 | The same jobs, numbered 1 to N, flagged after unflagged, model order kept within each group. |
| Batches.FinalStrengthsAreSourced | backend/app/ai_recommendations/career.py:161-171 | Although prioritizing may lower rows after the first strength check, the second check never rejects; the remaining strengths are exactly those whose row or condition is supported in the final outcomes, with field and quotation, or that rest on a related activity. |
| Batches.PrioritizingKeepsShape | backend/app/ai_recommendations/career.py:61-88 | Prioritizing changes whether a strength is backed, never whether it is well formed. |
| Batches.FlaggedIff | backend/app/ai_recommendations/evidence_rules.py:196-250 | The loop over a job's rows leaves a note exactly when one of its final rows is a date discrepancy or an education or availability gap that is not called optional. |
| Batches.ValidatedBatchOrder | backend/app/ai_recommendations/evidence_rules.py:204-267 | A finished batch holds exactly the requested jobs, ranked 1 to N; no job with a flagging final row comes before one without; the model order is kept within each group; and each job keeps exactly the strengths backed by its own final rows. |
| Batches.BatchRefusedIff | backend/app/ai_recommendations/service.py:271-278 | When a batch is refused at this point: it does not hold the requested jobs ranked from 1, or some strength is malformed; the second strength check adds no refusal. |
| Batches.FinalItemIsSound | backend/app/ai_recommendations/service.py:483-492 | What prioritizing, the second strength check and the final projection make of one job. |
| Batches.RankSetMeansDistinct | backend/app/ai_recommendations/service.py:271-278 | N items cannot cover 1 to N with a repeated rank. |
| Batches.CorrectionIsIdempotent | backend/app/ai_recommendations/gap_evidence.py:33-66 | Correcting saved results twice changes nothing more, and no correction changes an outcome or citation. |
| Batches.CorrectWarnings | backend/app/ai_recommendations/gap_evidence.py:53-66 | The warning loop replaces stale availability conflicts and removes repeats in order. |
| Batches.WarningsMeaning | backend/app/ai_recommendations/gap_evidence.py:36-66 | Warnings change only for a job that shows a re-explained availability row and no gap: then the stale ones give way to the reason of the first such row, and all others stay, once each. |
| Batches.NotesMeaning | backend/app/ai_recommendations/evidence_rules.py:196-250 | The notes of a job are exactly those its final rows call for, with their words. |
| Batches.AddNotesMeaning | backend/app/ai_recommendations/evidence_rules.py:251-253 | While they fit in twenty, notes not yet listed go to the front, the newest first, and no warning is lost. |
| Batches.NothingLostIff | backend/app/ai_recommendations/evidence_rules.py:251-253 | No warning and no note is lost exactly when the warnings and the notes not yet listed are at most twenty. |
| Batches.ListedNoteIsLost | backend/app/ai_recommendations/evidence_rules.py:251-253 | Otherwise even a conflict can be lost: one that the model had listed in the twentieth place disappears when another is noted after it. |
| Batches.AddNotesBounded | backend/app/ai_recommendations/evidence_rules.py:251-253 | In any case at most twenty warnings remain, and the last note is among them. |
| Batches.FinalWarnings | backend/app/ai_recommendations/service.py:483-492 | The warnings finally shown with a job, in terms of its final rows. |
| Grants.ExchangedOnce | backend/app/auth/extension_router.py:113-158 | In every interleaving a grant is exchanged at most once (RFC 6749, section 4.1.2). |
| Grants.ExchangeIsBound | backend/app/auth/extension_router.py:113-158 | Every exchange in every run consumed its grant with the grant's own code and the verifier behind its challenge (RFC 7636, section 4.6). |
| Grants.NeverAcceptedAgain | backend/app/auth/extension_tokens.py:18-34 | A revoked grant, or any grant of a logged-out login, is never accepted again, whatever was in flight. |
| Grants.AcceptedIsFresh | backend/app/auth/extension_tokens.py:18-34 | An accepted session lies before its login's expiry and within eight hours of the authorization, and its token belongs to one grant. |
| Grants.AcceptedIff | backend/app/auth/extension_tokens.py:18-34 | In every reachable state a token is accepted exactly for the one consumed, unrevoked, unexpired grant that carries it, of a registered client, a login not logged out and an active account. |
| Grants.InactiveIsShutOut | backend/app/auth/extension_tokens.py:31-33 | Once an account is deactivated, and until it is activated again, no token, code or login of it passes a check, in any continuation. |
| Grants.ActiveIff | backend/app/auth/extension_tokens.py:31-33 | An account is active exactly as its last switch left it. |
| Grants.DisconnectIff | backend/app/auth/extension_router.py:169-173 | Exactly who may disconnect, and from which grant. |
| Grants.DisconnectEnds | backend/app/auth/extension_router.py:169-173 | After a disconnect its token is never accepted, in any continuation. |
| Grants.LogoutIff | backend/app/auth/extension_router.py:176-193 | Exactly who may log out. |
| Grants.LogoutEnds | backend/app/auth/extension_router.py:176-193 | A logout revokes the grants of its login that its UPDATE saw and no others; from then on neither the login nor any grant of it is accepted, in any continuation. |
| Grants.ExchangeCheckIff | backend/app/auth/extension_router.py:113-134 | Exactly when an exchange check passes, including the client that the grant was issued to. |
| Grants.AuthorizeCheckIff | backend/app/auth/extension_router.py:63-79 | Exactly which login is served. |
| Grants.AuthorizeTimeIff | backend/app/auth/extension_router.py:80-88 | An authorization goes on exactly while its login has fewer than twenty live grants. |
| Grants.AuthorizeIssues | backend/app/auth/extension_router.py:89-109 | What an authorization issues, with both expiries. |
| GrantLimits.LimitHolds | backend/app/auth/extension_router.py:80-108 | Over all runs in which at most k authorizations of a login are ever between count and insert, the login has at most 19 + k live grants. |
| GrantLimits.InsertKeepsLimitIff | backend/app/auth/extension_router.py:80-108 | An insert keeps a login within twenty exactly when fewer than twenty are live at that moment, or the new grant is already over. |
| GrantLimits.OverlapReachesBound | backend/app/auth/extension_router.py:80-108 | From every state with nineteen live grants, k overlapping authorizations reach 19 + k. |
| Grants.ConsumedInTime | backend/app/auth/extension_router.py:135-151 | A code is consumed only within ninety seconds of its authorization by the clock reading its UPDATE carries, unconsumed and unrevoked. |
| Grants.ExchangeAfterLogoutIff | backend/app/auth/extension_router.py:176-193 | An exchange in flight at a logout succeeds at any later time, whatever happens in between, exactly when its grant was inserted after the logout's UPDATE, could be consumed and was not touched since; the token is never accepted. |
| Grants.LogoutRaceIsReachable | backend/app/auth/extension_router.py:176-193 | Such an exchange is reachable. |
| Grants.StepKeepsInv | backend/app/auth/extension_router.py:63-193 | Each check, clock read and commit of the four endpoints keeps the grant table sound and only ever adds a token once and a revocation. |
| Grants.GrantRow.Consume | backend/app/auth/extension_router.py:137-151 | The compare-and-set UPDATE of `exchange` on the row object. |
| Grants.GrantRow.Revoke | backend/app/auth/extension_router.py:169-173 | Revocation of one row object. |
| Grants.RevokeRows | backend/app/auth/extension_router.py:189-191 | The revoking UPDATE over all rows: exactly those of the login. |
| Grants.GrantRow.constructor | backend/app/auth/extension_router.py:94-107 | The inserted grant: both expiries bounded by the login and by 90 seconds and eight hours. |
| Connections.SessionsAgree | extension/connection.js:73-84 | Whenever the extension holds a session, the server has a consumed grant for that user with that token, whose challenge is the hash of the verifier made by the same begin, and whose exchange was asked for. |
| Connections.StepKeepsInv | extension/connection.js:31-84 | Each handler or server step keeps that agreement. |
| Connections.OneExchangePerRequest | extension/connection.js:73-84 | If no second complete reads a request between another's read and removal of it, each pending request leads to at most one exchange. |
| Connections.ApartIff | extension/connection.js:73-84 | The condition is exact: a step keeps every request with one handler if and only if it overlaps no other complete between its read and its removal. |
| Connections.OverlapSendsTwice | extension/connection.js:73-84 | Every step that breaks the condition, in every state, lets the same request be sent twice. |
| Connections.OverlapIsPossible | extension/connection.js:73-84 | Every state with a live request and two idle handlers allows such a step. |
| Connections.StepKeepsSingle | extension/connection.js:31-84 | Each step keeps a request with at most one handler on its way to the exchange. |
| Connections.GuardAdmitsUnsent | extension/connection.js:73-77 | Without overlaps, passing the guard means: the request was made by the begin whose state the message carries, is bound to this tab, has not expired, has not been sent, and no handler is past reading it. |
| Connections.ConnectionHandler.BeginTab | extension/connection.js:33-43 | The end of begin stores the request again with its tab: the machine's step, keeping the agreement. |
| Connections.ConnectionHandler.Complete | extension/connection.js:73-77 | The read and guard of complete on the handler object: the machine's step, keeping the agreement. |
| Connections.ConnectionHandler.CompleteRemove | extension/connection.js:78-78 | The removal of complete takes whatever request is stored. |
| Connections.ConnectionHandler.Store | extension/connection.js:80-82 | Storing the session keeps the agreement with the server. |
| Handshakes.HandshakeConnects | extension/connection.js:31-84 | From every state with an idle handler, an idle endpoint and a served login below its limit, an undisturbed handshake ends with a session for that user, its token, the verifier of this begin, and an expiry of eight hours or the login's. |
| Handshakes.RequestLapses | extension/connection.js:33-43 | Whatever happens after a begin has stored its request, a message with its state passes the guard only within the next 300 seconds. |
| Handshakes.BeginStores | extension/connection.js:38-43 | A begin stores its request first without and then with its tab, for 300 seconds; before it has the tab no message passes the guard. |
| Handshakes.CompleteIff | extension/connection.js:73-77 | Exactly when complete passes its guard, and with which request. |
| Handshakes.ReceiveIff | extension/connection.js:79-82 | What a handler receives: token, user and expiry of the grant exchanged for its own code and verifier, unless already expired. |
| Handshakes.SessionsAreStored | extension/connection.js:80-82 | A session appears only when a handler stores one that it received. |
| Handshakes.Forgets | extension/connection.js:23-72 | A disconnect and a sign-out forget session and request, a begin the old session. |
| ATSFills.PreflightIff | extension/ats-page.js:700-757 | A fill begins exactly when there are at most sixty confirmed, non-blank answers with distinct ids, each answering its field exactly as reviewed, and no ongoing student beside an education end date. |
| ATSFills.RunPreflight | extension/ats-page.js:700-759 | The preflight loops return exactly the first problem in the script's order, or the write order. |
| ATSFills.CheckShapes | extension/ats-page.js:710-719 | The shape loop with its set of ids stops at the first bad item. |
| ATSFills.ReviewAllIff | extension/ats-page.js:720-752 | Each item is paired, in order, with the field it answers. |
| ATSFills.ReviewProblem | extension/ats-page.js:720-752 | Which field the refusal of one item names: its own public id for a changed field, nothing for an option, choice or date that does not fit. |
| ATSFills.ShapesName | extension/ats-page.js:710-719 | A shape problem is that of the first bad item and names its id if that is a public one. |
| ATSFills.OrderedIs | extension/ats-page.js:753-758 | An ongoing student beside an end date is refused under the id of the first such answer; else the student checkbox is written first if it is answered with yes, all others in the order of the items. |
| ATSFills.StudentsAre | extension/ats-page.js:753-758 | Everything moved to the front is a student checkbox, and nothing left behind is. |
| ATSFills.StudentsMultiset | extension/ats-page.js:753-758 | The stable sort that puts the student checkbox first loses nothing. |
| FillReports.FillFields | extension/ats-page.js:761-856 | The write loop: report and mutation flag against an arbitrary page. |
| FillReports.Interact | extension/ats-page.js:700-870 | A fill either answers before any write with the mutation flag false, or reports on every item. |
| FillReports.FillPartitions | extension/ats-page.js:761-856 | Filled and skipped partition the approved ids, with a reason for each skipped one. |
| FillReports.ReportsEach | extension/ats-page.js:761-856 | What the report says of each item: filled exactly if the answer stayed, else skipped with the page's message or the default one; website choice and correction exactly for ordinary fields that need them. |
| FillReports.ReportsInOrder | extension/ats-page.js:761-856 | Every list of the report stands in the order of writing. |
| FillReports.ReportIsAccepted | extension/ats-page.js:96-147 | Against every page, an approved fill returns a report that lists each approved id exactly once and that both consumers accept. |
| FillReports.CheckedIff | extension/popup.js:185-199 | The popup's check accepts exactly the reports in which nothing is missing, doubled or invented. |
| FillReports.RejectedMeansUntouched | extension/ats-page.js:96-147 | The reader is told that nothing was filled only if the script says it had not begun. |
| FillReports.ParseIff | extension/ats-page.js:96-147 | A report is taken exactly if it is the only answer, from the top frame of the expected document; exactly an answer that is none, or comes from elsewhere, is lost. |
| FillReports.RefusalIsVetted | extension/ats-page.js:118-140 | Of any refusal the reader gets a known code, a known mismatch only with an invalid review, and only a public field; whatever is legal is passed on unchanged. |
| FillReports.RefusalRoundTrip | extension/ats-page.js:96-147 | A preflight refusal reaches the popup with the same code, mismatch and public field. |
| FillReports.PreflightExplained | extension/ats-page.js:700-757 | Every preflight refusal has a known code, and a mismatch only for an invalid review. |
| Reviews.StoreIsSafe | extension/application-bridge.js:184-199 | After any run the store has at most 32 reviews and one for each tab; each review id starts at most one fill, with the review as issued. |
| Reviews.SurvivesIff | extension/application-bridge.js:184-191 | A review survives an insertion exactly when it is live, of another tab, and fewer than 31 newer ones are. |
| Reviews.InsertedInOrder | extension/application-bridge.js:184-191 | The store keeps the order of insertion, the new review last. |
| Reviews.InspectStores | extension/application-bridge.js:184-191 | What inspecting stores: the review as read, for five minutes, under an id of its own. |
| Reviews.FillIff | extension/application-bridge.js:195-199 | Exactly when a fill begins: its review is stored and has not expired; in any case it is gone and the others stay in order. |
| Reviews.StepKeepsInv | extension/application-bridge.js:97-102 | Inspecting, asking for a fill and a session change keep the store sound. |
| Reviews.ReviewStore.Insert | extension/application-bridge.js:184-191 | Prune, evict the oldest while full, append: whole new state. |
| Reviews.ReviewStore.Take | extension/application-bridge.js:195-199 | A fill consumes its review first. |
| Reviews.ReviewStore.Inspect | extension/application-bridge.js:184-191 | Storing a review under a fresh id is the machine's step and keeps the store sound. |
| Reviews.ReviewStore.BeginFill | extension/application-bridge.js:195-199 | A fill begins exactly with a live review, which it uses up; the store stays sound. |
| Reviews.ReviewStore.SessionChanges | extension/application-bridge.js:98-100 | A change of the stored session forgets every review. |
| ReviewFills.Fill | extension/application-bridge.js:195-251 | Every dispatch follows an authorization equal in every field to the reviewed context, in time and to the reviewed document, and holds only ids that fit it: the country answer and widget fields go to the widget writer, other reviewed fields to the ordinary one; exactly when a fill succeeds, and that a success partitions the approved ids; a failure is called uncertain exactly when something was dispatched. |
| ReviewFills.Apply | extension/application-bridge.js:225-240 | One dispatch and the reading of its reply. |
| ReviewFills.Authorize | extension/application-bridge.js:119-154 | Comparing all eleven fields is equality of contexts. |
| ReviewFills.Split | extension/application-bridge.js:200-222 | The approval loop accepts exactly answers whose field was reviewed, is free and long enough, and sends each to the writer of its field. |
| ReviewFills.RouteIff | extension/application-bridge.js:200-222 | Where one answer goes, by its field alone: country answers need a country state and two offered countries; an unavailable, occupied or too short field takes nothing. |
| ReviewFills.RoutedIff | extension/application-bridge.js:200-222 | An id goes to a writer exactly when some approved answer with that id belongs there. |
| ReviewFills.RoutesPartition | extension/application-bridge.js:200-222 | The split loses and invents nothing. |
| ReviewFills.SortedMeaning | extension/application-bridge.js:234-239 | Each dispatched id is filled or skipped once, and filled only if the page said so and did not also skip it. |
| SkillMentions.ResolveListContext | backend/app/skill_signals.py:293-312 | The verdicts updated in place: an unclear match is accepted exactly when its maximal list is the whole text or holds a match accepted on its own. |
| SkillMentions.ResolvedIff | backend/app/skill_signals.py:293-312 | What a match is taken for, read off its list. |
| SkillMentions.InGroup | backend/app/skill_signals.py:293-312 | Every match lies in a maximal list. |
| SkillMentions.CollectedFrom | backend/app/skill_signals.py:315-332 | The mentions are the first matches of their skills that count, all of them, in the order of the text. |
| SkillMentions.MentionsName | backend/app/skill_signals.py:315-332 | `mentions` lists exactly the skills of accepted matches. |
| SkillMentions.CollectedOnce | backend/app/skill_signals.py:315-332 | No skill is listed twice. |
| SkillMentions.FindMentions | backend/app/skill_signals.py:315-332 | The loop computes that list in order. |
| PositiveProfiles.ProfileMeaning | backend/app/skill_signals.py:369-392 | A skill is in the profile exactly when some entry affirms it and no entry vetoes it; its evidence is the first affirming entry, word for word. |
| PositiveProfiles.OrderDoesNotMatter | backend/app/skill_signals.py:369-392 | The affirmed skills do not depend on the order of the entries. |
| PositiveProfiles.VetoRemoves | backend/app/skill_signals.py:369-392 | An unsafe entry, put anywhere, removes exactly the skills it names, and everything if the list then exceeds the limits: it only shrinks the profile. |
| PositiveProfiles.CollectProfile | backend/app/skill_signals.py:369-392 | The loops over entries and mentions compute that profile. |
| QuoteContexts.FindContexts | backend/app/job_matching.py:231-252 | The scanning loop returns the sentences of all unclipped occurrences, or nothing when there are more than sixteen. |
| QuoteContexts.ContextsAre | backend/app/job_matching.py:219-252 | Exactly what is answered: nothing without a quote; a quote that is a whole line and occurs once, itself; else the sentences of the leftmost occurrences that do not overlap and are not cut out of a word, in order, or nothing beyond sixteen. |
| QuoteContexts.SoleIff | backend/app/job_matching.py:227-230 | Counting finds one occurrence exactly when every occurrence overlaps the first. |
| QuoteContexts.ContextIsSentence | backend/app/job_matching.py:243-251 | A context is the whole sentence: it holds its quote, reaches from the last break before it to the first one after it, and has none inside. |
| QuoteContexts.ScannedCovers | backend/app/job_matching.py:233-236 | The scan misses no occurrence: each starts inside a scanned one. |
| QuoteContexts.ContextsAreComplete | backend/app/job_matching.py:219-252 | A non-empty answer has the sentence of every scanned unclipped occurrence. |
| SkillMatching.OverlapsIff | backend/app/job_matching.py:255-276 | The overlaps are exactly the skills that the label, the quote and every sentence around it name without doubt, and that some entry affirms and none vetoes, with the first affirming entry as proof. |
| SkillMatching.VerdictMeaning | backend/app/job_matching.py:174-216 | A verdict is supported exactly when some saved entry is the compared skill and none denies it, a gap exactly the other way round, and it cites the first such entry. |
| SkillMatching.EntriesIff | backend/app/job_matching.py:185-216 | Each list of entries is nonempty exactly when some saved entry is the skill, or denies it, and starts with the first such entry. |
| SkillMatching.AffirmedAloneIff | backend/app/job_matching.py:326-370 | When some entry, taken by itself, affirms a skill that the label names. |
| SkillMatching.GroundsIff | backend/app/job_matching.py:433-498 | When a group condition may be compared: it is a skill, its texts stand in the posting and the group's are certain. |
| SkillMatching.OneSkillIff | backend/app/job_matching.py:521-545 | When a group's whole source text is one unqualified skill. |
| SkillMatching.CompareEntries | backend/app/job_matching.py:174-216 | The loop of `compare_skill` computes that verdict. |
| SkillMatching.SpecificInOrder | backend/app/job_matching.py:269-276 | Overlaps, and the specific ones, stand in the order of the label's mentions. |
| SkillMatching.JoinedProofsAre | backend/app/job_matching.py:363-369 | An undecided row with overlaps cites their proofs, each once, in order, joined by bars. |
| SkillMatching.CompareLegacyRow | backend/app/job_matching.py:326-370 | Exactly when a legacy skill row is supported, is a gap or stays unknown, and its overlaps. |
| SkillMatching.CompareAtom | backend/app/job_matching.py:433-498 | Exactly when a group condition is supported, a gap or unknown, and that each of its overlaps is specific and grounded. |
| SkillMatching.CompareGroup | backend/app/job_matching.py:521-545 | The outcome of a group: that of its condition if it is one unqualified skill, else unknown. |

## Left out

- PrepareAnswers.PendingOnce: for runs whose finishing writes are harmless, the exact condition for one write; the unconditional statement is false of the code, as said above.
- GrantLimits.LimitHolds: the bound is 19 + k for k overlapping calls; twenty is false of the code, as said above.
- Batches.FinalWarnings: while a job's warnings and unlisted notes fit in twenty, the exact condition under which none is lost; beyond that only the bound and the last note are stated (Batches.AddNotesBounded).
- Connections.OneExchangePerRequest: for runs without overlapping `complete` handlers, the exact condition for one step; the unconditional statement is false of the code, as said above.
- EvidenceTheorems.SupportedOnlyIfModelSaidSo: with promotions off, as `execute` runs it; for the promoting branch of `_compound_evidence` only the branch itself is stated (ExactOutcomes.PromotionIff).
- Lease: the run id that `claim` returns beside the lease is read before its UPDATE and can be stale; its callers are not modelled. One row stands for the table, since sources do not interact.
- Paid batch: deleting a user, which deletes its rows, is left out, and so are the stored pipeline, usage and candidate columns.
- `prepare_answers`: the unlocked first read, which only answers early, the last snapshot comparison, and the reports built by `_report` and `_responses` are left out. How one answer is validated (`_question_answer`, `_choice_answer`, URL and date scopes) is left out too: a plan is any set of answers for the shown questions.
- Evidence pipeline: a batch's item and check objects are values and only the row is an object updated in place, so aliasing between items is not captured. Schema validation strips every string of the model's answer; only the stripping of quotations is modelled.
- Career fit: the considerations (`_attention`), the two focus labels and `application_recommendation` are left out.
- The batch theorem starts from jobs whose rows passed validation; that validation is stated row by row.
- `derive_advice` and the summaries are left out; lowering a row need not lower the advice.
- Citations: a span id is the tuple that it hashes; `request_with_sources`, which shows the catalog to the model, is left out.
- Drafts and question sources: `_draft_tasks`, `_sources` and `_experience_passages` are left out; section labels come from an arbitrary recogniser.
- Grants: row locks held between an UPDATE and its commit are not modelled, which only allows more interleavings.
- Extension connection: one platform site and its API. Messages from other origins, permissions, the status message and the contents of failed responses are left out.
- Form fill: reading the form gives an arbitrary list of fields or a failure; what the page does with one answer is an arbitrary outcome. The evidence types attached to one mismatch, the not-a-number value, thrown values that are not error objects, the résumé attachment and widget handling are left out.
- Review store: what `inspect` reads from the page is arbitrary, and only the review it stores is modelled. The URL and key-shape checks of a message are one flag of an answer.
- Skill matching: profile entries that are not text, de-duplication of language groups, reasons, importance, and the education and experience rows, which are always unknown, are left out.
- The ambiguity rules of single skill names (`_ambiguity_status`), Unicode normalization, the skill tables and all text patterns are uninterpreted.
- HTTP routing, settings, JWT decoding, password handling, migrations, the frontend, the status-transition table, history paging, scripts and the test mailbox are plumbing or easy members.
- `submission.js` and the submission handlers of the popup are disabled in the source.
