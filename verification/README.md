# NovaGrade: a Dafny model of the grading pipeline

NovaGrade grades scanned exams. A submission is rendered, transcribed by vision
models, graded against a marking guide, reviewed and approved by a teacher, and
published. Stage workers and an orchestrator exchange envelopes over queues that
redeliver; handlers write to an audit log, an object store, a database and the
bus, any of which may fail. This project models the parts of that system where
correctness is not visible in one function body, and proves what they keep.

Go's `float64` is `real`, `int` is unbounded, text is `seq<char>`. Library calls
whose result matters but whose code is not here (case folding, lower case,
`ParseFloat`, square root, `json.Valid`) are parameters, constrained only where a
theorem needs it. Every call that leaves the process takes a parameter that says
how it ends: it succeeds, it fails, or it takes effect and still reports an error.
`dafny verify dfyconfig.toml` checks everything.

## The files

* The submission protocol. `StateMachine` is the transition table and function,
  `Protocol` one delivery on values (rows, every message with the place it is in,
  delivery counts, dead letters), `Orchestrator` the same step as the methods of
  the bus and the orchestrator. `Delivery` reads off a message and its row what
  one delivery does. `Drain`, `Gate`, `Token`, `Earned` and `Progress` are about
  whole runs, `Races` about handlers that overlap and `Overlap` about the one-step
  runs they amount to.
* JSON in model replies. `JsonGrammar` is RFC 8259 as derivation trees, `JsonScan`
  the bracket scanner over them, `JsonExtract` both `extractJSON` functions, on
  the string facts of `Text`.
* Grading. `Papers` holds the exchanged data, `Matchers` and `Lines` the
  deterministic matchers, `Awards` what each of them awards and `MultiStep` how a
  multi-step award depends on the lines, `AnswerForms` which differences in writing
  the matchers overlook, `Schemes` the two dispatchers, `Totals` the totals and the
  score.
* Review, approval, storage. `Overlay` lays overrides over a paper, `Ledger` is
  the interleaved writes of the handlers, `Handlers` the handlers as methods,
  `Archive` the object store under regrading, `Guides` the guide table.
* Analytics and numbering. `Sorting`, `Correlation`, `ItemAnalysis`,
  `Distribution`, `Outcomes`, `Numbering` (with `Decimal`).
* `Wrappers` and `Seqs` hold the option type and facts about sequences as bags.

## What is assumed of delivery

* `Drain` and `Gate` assume nothing about order, duplication or failure: any live
  message may be delivered next, any message may be sent again from outside
  (`Gate`), every call may fail or fail after taking effect. `DrainsWithin` also
  needs messages of known submissions and failures that can be recorded;
  `EndlessIffStray` shows that the first cannot be dropped.
* `Token`, `Earned` and `Progress` speak of orderly runs: nothing fails between a
  state write and its publish, no call both takes effect and reports an error, work
  and result messages are not sent from outside, and no `flagged_for_review` is
  sent. Calls may still fail anywhere else. `Progress` also needs MaxAttempts > 1.
* In those modules one delivery is one step. `Races` and `Overlap` drop that: a
  handler's read of a row and its write are two moves with anything in between.
  Runs without stale writes, that is without a handler that changes a row no longer
  in the state it read, amount to runs of one-step deliveries, each handler taken at
  its write, or at its read when it writes nothing (`NoStaleRunsAreSerial`). In
  orderly runs with one consumer of the commands, as a single orchestrator has, no
  write is ever stale (`OrderlyRunsAreSerial`), so what `Token`, `Earned` and
  `Progress` prove holds for overlapping handlers too.
* Acknowledgements reach the broker, and a consumer does not die while it holds a
  message.

## What the model found

* Nobody reads the dead-letter queue of `results.q`. A stage result that runs out
  of attempts there, say because its flags cannot be fetched, leaves the
  submission in its state for ever, and this is the only way to get stuck in an
  orderly run (`CarriedIffNoResultLost`, `StrandedForever`). `feedback.result`
  maps to no event and ends there too, unless it names another tenant and is
  dropped (`FeedbackResultHandled`, `FeedbackResultDies`).
* A dead-letter queue counts no deliveries: a dead letter whose submission
  is unknown is redelivered for ever (`PoisonNeverDrains`). A system without new
  messages stays busy for ever exactly when a message of an unknown submission lies
  in a stage queue, or its dead-letter queue, at the start (`EndlessIffStray`).
* Five results are one event. A duplicated `render.result` takes a submission
  past the quality gates (`DuplicateRenderResultSkipsGates`), and a publish lost
  after the state was written makes the retried `transcribe.result` count as the
  grading (`LostPublishSkipsGrading`). `ReviewEntries` says exactly what enters
  teacher_review; in orderly runs it is earned by a grading (`ReviewIsEarned`).
  The approval gate holds all the same (`ApprovalGate`).
* Some edges of the transition table no event takes: those to archived and
  grading_review_required, and teacher_review to grading (`EdgesAreTaken`). The
  comment above the table (pkg/contracts/states.go:31) says an approved submission
  never returns to an earlier state; regrading does that, in table and code.
* The write of a state does not look at the state it replaces. A result read
  before a dead letter failed its submission, and written after it, takes the
  submission to teacher_review, whatever MaxAttempts is (`StaleWriteRevives`).
  Failed is final exactly in runs without such a write (`FailedIsFinalIffNoStale`),
  and without them the approval gate holds for overlapping handlers too.
* The pipeline's `extractJSON` loses a container that has a code fence inside;
  the provider's loses it only when no fence follows (`FirstFenceExact`,
  `LastFenceExact`, and `FenceArrayIsLost` for an input).
* A whole-answer fallback that matches what no line matches makes an appended
  line cost marks, exactly for expected answers with an inner newline
  (`OneLineIsNeeded`) and for sets with a value of several lines none of which
  hits by itself (`SetLinesAreNeeded`).
* Preview and grading disagree on the marks where a guide entry has none of its
  own (`PreviewAgrees`, and `PreviewUnderstates` for an input).
* An override with empty feedback does not clear the drafted feedback, although
  the response shows it cleared (`NextViewShowsTheOverride`). Where two questions
  share a number the handler reads the first and the overlay changes the last
  (`OverrideHitsTheLast`).
* The grade row of one approval can stand beside the artifact of another: when
  approvals overlap (`OverlapMixesGrades`), and also when they follow each other
  and the row write of the later one fails (`SerialMixesGrades`). They agree
  exactly when their last effective writes do (`AgreeIffLastWritesDo`), and a
  retry whose row write succeeds mends it (`RetryMends`). An override that arrives
  after an approval listed the rows is accepted and does not show in the grade
  (`LateOverrideIsLost`, exactly: `FinalShowsTheRowsIff`). The comment at
  internal/api/appeal_handler.go:258-277 says an approval never changes an
  existing grade; the code overwrites both the artifact and the row, and the model
  follows the code.
* A guide lock that fails is only logged. That alone never makes a grading use an
  older version than an earlier one (`FailingLocksNeverDrop`), but it leaves room
  for an explicit lock of an older version, which does (`FailedLockCanDrop`,
  exactly: `NeverDropsIffNoUndercut`).
* `Responses` of a question is documented as the number of papers; the code
  counts occurrences, so a number that occurs twice in a paper counts twice
  (`RepeatedNumberCountsTwice`, exactly: `ResponsesArePapersIff`).
* Outcomes that share a code, or have no metadata, are reported in an order that
  depends on how Go walks a map (`WalkOrderHiddenIffCodesApart`).
* Deduplicated question numbers are not always unique (`HashCanCollide`,
  `UniqueIffNoClash`).

## Model

| member | source | states |
|---|---|---|
| StateMachine.OnlyThreeEventsLoopBack | internal/domain/statemachine.go:77-176 | every accepted event but apply_fix, retry_stage and regrade moves a submission strictly forward; failed and archived accept no change, and no event leads to archived or grading_review_required |
| StateMachine.EdgesAreTaken | pkg/contracts/states.go:24-94 | the transition table against the events, if and only if: an edge leads to failed, from all but failed and archived, or where no event leads, or some event takes it |
| StateMachine.FailsFromAnywhere | internal/domain/statemachine.go:58-87 | a failed stage fails a submission in every state but archived |
| StateMachine.EvaluateGates | internal/domain/gates.go:47-73 | each of the four flags is raised exactly when its gate is exceeded |
| Protocol.StateChange | internal/orchestrator/orchestrator.go:99-184 | a delivery changes a row's state only along an edge taken for an envelope of that submission and tenant, or to failed from a dead-letter queue |
| Orchestration.Bus.Publish | internal/queue/rabbit.go:104-136 | a publish adds one fresh message, or nothing when it fails before taking effect |
| Orchestration.Bus.Acknowledge | internal/queue/rabbit.go:195-252 | a handled message is settled; a failed one is requeued with one more delivery, or dead-lettered when its attempts are used up |
| Orchestration.Orchestrator.HandleEnvelope | internal/orchestrator/orchestrator.go:124-184 | rows, published message and verdict are those of the protocol step, for every combination of failing calls |
| Orchestration.Orchestrator.DispatchNext | internal/orchestrator/orchestrator.go:190-254 | the follow-up message of a state goes out, with the row's tenant, or nothing does |
| Orchestration.Orchestrator.HandleDeadLetter | internal/orchestrator/orchestrator.go:101-121 | a dead letter of a known submission fails that submission, and nothing else |
| Orchestration.Orchestrator.HandleDelivery | internal/queue/rabbit.go:219-252 | the imperative delivery refines the step that the run theorems are about |
| Drain.DeliveryDescends | internal/queue/rabbit.go:219-252 | every delivery uses up part of a bound computed from the messages and the rows, unless it is a failing dead-letter handling, which uses up none |
| Drain.Drains | internal/orchestrator/orchestrator.go:101-254 | in every run without new messages, with failures anywhere, the deliveries other than failing dead-letter handlings are at most the bound of the start |
| Drain.DrainsWithin | internal/orchestrator/orchestrator.go:101-254 | when every message names a known submission and every failure can be recorded, such a run has at most that many steps, so it ends |
| Drain.PoisonNeverDrains | internal/orchestrator/orchestrator.go:101-117 | a stage dead letter with an unknown submission can be delivered any number of times and leaves the system unchanged |
| Drain.EndlessIffPoison | internal/queue/rabbit.go:219-252 | with failures that can be recorded, runs without new messages are unbounded exactly when one of them reaches such a dead letter |
| Drain.EndlessIffStray | internal/orchestrator/orchestrator.go:101-254 | and that is exactly when, at the start, a readable message of an unknown submission lies in the render, transcribe or grade queue or in its dead-letter queue |
| Drain.FeedbackResultHandled | internal/orchestrator/orchestrator.go:124-151 | a feedback.result changes nothing, and is acknowledged exactly when it names another tenant than its submission's |
| Drain.FeedbackResultDies | internal/queue/rabbit.go:240-252 | otherwise it stays in results.q or its dead-letter queue in every run, and is dead-lettered once its attempts are used up |
| Drain.AttemptsBounded | internal/queue/rabbit.go:188-252 | a message is delivered from its queue at most MaxAttempts times in any run |
| Delivery.EntersExactly | internal/orchestrator/orchestrator.go:99-184 | for every state, exactly when a delivery enters it: the message is with the orchestrator and of that submission and tenant, the read and the write work, and the row is in the one earlier state with the one result or command; or it is failed, from a stage dead letter |
| Delivery.OnlyTheState | internal/orchestrator/orchestrator.go:101-184 | nothing else of a row changes, but the stage a dead letter records |
| Delivery.GatesByDefault | internal/domain/gates.go:14-73 | with the gates the orchestrator uses, a transcript is free of flags exactly when nothing was read doubtfully, no answer is blank and the checksum agrees |
| Delivery.PostsFollowUp | internal/orchestrator/orchestrator.go:171-254 | exactly when a follow-up goes out, to which queue and stage, with one attempt more, the row's tenant, and the payload of its cause or, for rendering, the row's PDF |
| Delivery.WorkersPostResults | internal/queue/rabbit.go:219-252 | a stage worker answers every readable message it works off with its result in results.q, and dead letters are answered by nothing |
| Delivery.SentIsFresh | internal/queue/rabbit.go:104-136 | whatever is sent, from outside or by a handler, is one live message in its queue with no delivery counted |
| Delivery.EndsUp | internal/queue/rabbit.go:219-252 | a message is settled exactly when its handler succeeds; a failure leaves it live with one delivery more until the last attempt, or an unreadable body, dead-letters it |
| Delivery.DeadAfterMaxAttempts | internal/queue/rabbit.go:240 | a fresh message is dead-lettered by exactly MaxAttempts failures |
| Gate.RunCounts | internal/domain/statemachine.go:58-176 | the state of a submission fixes how its entries into grading, teacher_review and approved compare, along any run |
| Gate.ApprovalGate | internal/domain/statemachine.go:58-176 | from uploaded, under any delivery: approved <= teacher_review <= grading <= approved + 1; archived and grading_review_required are never reached; nothing is published unapproved |
| Gate.OnlyTheTeacherApproves | internal/orchestrator/orchestrator.go:124-184 | approved, published and exported are each entered from one state only, by one command, sent for that submission and its tenant |
| Gate.FailedIsFinal | pkg/contracts/states.go:33-105 | failed is never left, whatever is delivered |
| Gate.GradingEntries | internal/orchestrator/orchestrator.go:153-184 | exactly which deliveries move a submission into grading |
| Gate.ReviewEntries | internal/orchestrator/orchestrator.go:153-184 | exactly which deliveries move a submission into teacher_review |
| Gate.DuplicateRenderResultSkipsGates | internal/orchestrator/orchestrator.go:259-267 | a second render.result in transcribing enters grading whatever the transcript's flags are |
| Gate.LostPublishSkipsGrading | internal/orchestrator/orchestrator.go:171-184 | after a publish that failed behind the state write, the retried transcribe.result reaches teacher_review with no grading ever requested |
| Token.SoloStep | internal/orchestrator/orchestrator.go:124-254 | one orderly action keeps: at most one work, result or stage dead-letter message per submission, and it belongs to the current state |
| Token.SingleToken | internal/orchestrator/orchestrator.go:124-254 | so does every orderly run, for each submission on its own |
| Token.SoloAtStart | internal/orchestrator/orchestrator.go:124-254 | a freshly uploaded submission satisfies the invariant |
| Token.GradingIsEarned | internal/domain/statemachine.go:152-176 | in orderly runs grading is entered only by a flag-free transcribe.result, approve_for_grading or regrade |
| Token.DeadLettersAreCurrent | internal/orchestrator/orchestrator.go:67-121 | in orderly runs a dead letter names the stage its submission is really in |
| Earned.TallyStep | internal/orchestrator/orchestrator.go:171-254 | one orderly action keeps: grade requests equal entries into grading, gradings and a waiting request stay within requests, entries into teacher_review and a waiting result within gradings |
| Earned.ReviewIsEarned | internal/orchestrator/orchestrator.go:124-254 | from uploaded, in orderly runs: entries into teacher_review <= successful gradings <= grade requests == entries into grading |
| Earned.OnlyGradeResultEntersReview | internal/orchestrator/orchestrator.go:259-267 | and each entry into teacher_review is made by a grade.result |
| Races.ReadThenCommit | internal/orchestrator/orchestrator.go:124-184 | a read followed at once by its write is the one-step delivery |
| Races.RevivedByStale | internal/orchestrator/orchestrator.go:131-183 | with overlapping handlers a move takes a submission out of failed exactly when it writes over a state other than the one its handler read |
| Races.FailedIsFinalIffNoStale | internal/orchestrator/orchestrator.go:73-95 | over any run failed is kept throughout exactly when there is no such write to that submission |
| Races.StaleWriteRevives | internal/store/db/submission.sql.go:241-259 | for every MaxAttempts, a run in which a grade.result read before a dead letter's failure and written after it takes a failed submission to teacher_review |
| Races.RunCounts | internal/orchestrator/orchestrator.go:73-184 | without stale writes to a submission its state fixes its entry counts, however handlers overlap |
| Races.ApprovalGate | internal/domain/statemachine.go:58-176 | so the approval gate holds for overlapping handlers without stale writes |
| Races.StaysKept | internal/orchestrator/orchestrator.go:131-183 | a handler between read and write keeps its message waiting and its row's tenant and PDF, so it can always finish |
| Races.ExclusiveIsFresh | internal/orchestrator/orchestrator.go:131-183 | when no row changes state under another handler's read, every write finds the state that was read |
| Overlap.StaysAhead | internal/orchestrator/orchestrator.go:124-184 | the run of single deliveries stays ahead of the real one by exactly the held handlers that will write nothing |
| Overlap.NoStaleRunsAreSerial | internal/orchestrator/orchestrator.go:73-184 | without stale writes there is a run of single deliveries, each writing handler at its write and each other at its read, with the same rows at any moment and the same messages whenever no handler is held |
| Overlap.SerialEntries | internal/orchestrator/orchestrator.go:73-184 | a submission enters each state equally often in both |
| Overlap.OnlyCommandsMeet | internal/orchestrator/orchestrator.go:259-300 | with a single token, two messages that would both move a submission are both commands |
| Overlap.StaysSteady | internal/orchestrator/orchestrator.go:124-254 | one orderly move keeps: single tokens, held handlers whose rows are in the state they read, and one command handler per submission |
| Overlap.OrderlyRunsAreSerial | internal/queue/rabbit.go:150-186 | from single tokens and with one consumer of the commands, orderly runs of overlapping handlers have no stale write and amount to an orderly run of single deliveries |
| Overlap.ReviewIsEarned | internal/orchestrator/orchestrator.go:124-254 | so entries into teacher_review stay within gradings, and these within entries into grading, however the handlers overlap |
| Overlap.CarriedIffNoResultLost | internal/orchestrator/orchestrator.go:67-254 | and a submission's message is in flight or not needed exactly when no result of it was dead-lettered |
| Progress.CarriedStep | internal/orchestrator/orchestrator.go:124-254 | an orderly action that dead-letters no result keeps: a submission in a working state has its message in flight |
| Progress.LosingStrands | internal/queue/rabbit.go:240-244 | a dead-lettered result leaves its submission in a working state with nothing in flight |
| Progress.StrandedForever | internal/orchestrator/orchestrator.go:67-95 | from there no orderly run changes its state again |
| Progress.CarriedIffNoResultLost | internal/orchestrator/orchestrator.go:67-254 | over any orderly run the message is in flight or not needed exactly when no result of the submission was dead-lettered |
| Progress.RestsWhereItMay | internal/orchestrator/orchestrator.go:67-254 | once its messages are used up without such a loss, an uploaded submission waits for a human, is exported, or has failed |
| JsonScan.ValuePass | internal/pipeline/transcribe.go:375-408 | inside a container the scanner reads any JSON value without closing the container and comes out in the state it went in |
| JsonScan.ContainerCloses | internal/pipeline/transcribe.go:375-408 | on a container followed by anything, depth first returns to 0 at the container's last character |
| JsonExtract.FindClose | internal/providers/vllm.go:387-419 | the loop over depth, inString and escaped finds the first closing position, or none |
| JsonExtract.ScanStripped | internal/pipeline/transcribe.go:353-408 | the part both functions share: valid JSON as it stands, else the earliest balanced container |
| JsonExtract.ExtractInPipeline | internal/pipeline/transcribe.go:335-408 | the pipeline's extractor computes its specification for every reply |
| JsonExtract.ExtractInProvider | internal/providers/vllm.go:346-420 | so does the provider's |
| JsonExtract.ReturnsExactly | internal/pipeline/transcribe.go:353-408 | what is returned for a text without its fences, if and only if: the trimmed text when that is JSON, else the JSON that runs from the earliest bracket to where its depth first returns to zero |
| JsonExtract.StripsFences | internal/pipeline/transcribe.go:335-351 | what both extractors look at: the trimmed reply or, behind an opening fence and its json tag, the text up to the first fence, or for the provider the last |
| JsonExtract.ExtractsOnlyJson | internal/providers/vllm.go:387-420 | for every reply both extractors return valid JSON or nothing, and nothing exactly when there is no such text |
| JsonExtract.BrokenObjectGivesNothing | internal/pipeline/transcribe.go:400-403 | brackets that close around something else give nothing |
| JsonExtract.ContainerPrefixFree | internal/pipeline/transcribe.go:353-356 | a valid JSON text that begins with a container is that container and white space |
| JsonExtract.OnlyAQuoteHides | internal/pipeline/transcribe.go:353-370 | bracket-free prose can make the whole reply valid JSON around a container only by opening a string |
| JsonExtract.ExtractionRoundTrip | internal/pipeline/transcribe.go:335-408 | a container in prose without brackets or fences, with any text after it, comes out of both extractors exactly when the trimmed reply is not itself other JSON |
| JsonExtract.FirstFenceExact | internal/pipeline/transcribe.go:338-351 | the first-fence extractor returns a fenced container exactly when it holds no fence |
| JsonExtract.LastFenceExact | internal/providers/vllm.go:351-361 | the last-fence extractor exactly when it holds none or one follows |
| JsonExtract.FenceArrayIsLost | internal/pipeline/transcribe.go:335-351 | the array of the one string of three backticks, fenced: the first-fence extractor loses it, the last-fence one only without a closing fence |
| JsonExtract.ExtractorsAgree | internal/providers/vllm.go:346-420 | both return every fenced container without an inner fence, whatever follows it |
| Matchers.ObjectiveMatch | internal/pipeline/grade/guide.go:296-325 | the loop decides whether the answer equals an accepted value |
| Matchers.MatchObjectiveNormalized | internal/pipeline/grade/matchers.go:60-88 | full marks or none, by normalized or plain comparison with every accepted value |
| Matchers.CheckTolerance | internal/pipeline/grade/matchers.go:158-172 | a value is accepted exactly between expected - tolerance and expected + tolerance, or within that percentage of the expected value, or when both are 0 |
| Matchers.MatchNumeric | internal/pipeline/grade/matchers.go:112-201 | the reading of number and unit and the verdict on them, for every answer |
| Awards.NumberAloneAwards | internal/pipeline/grade/matchers.go:112-201 | a number alone earns nothing outside the tolerance, all marks inside when no unit counts, else the marks less the unit's; with confidence and reason |
| Awards.NumberAndUnitAwards | internal/pipeline/grade/matchers.go:112-201 | with a word behind it the unit's marks are kept exactly when the word is the unit up to case |
| Awards.NoNumberEarnsNothing | internal/pipeline/grade/matchers.go:128-156 | an answer that is no number earns nothing |
| Awards.ObjectiveAwards | internal/pipeline/grade/matchers.go:60-88 | full marks or none: an exact entry compares the text, exact_ci and set overlook case, a normalized entry compares normal forms |
| AnswerForms.SpacingIrrelevant | internal/pipeline/grade/matchers.go:128-156 | answers with the same words get the same numeric verdict, however they are spaced |
| AnswerForms.NumberAlone | internal/pipeline/grade/matchers.go:99-107 | a number among blanks is read as that number without a unit |
| AnswerForms.NumberAndUnit | internal/pipeline/grade/matchers.go:94-107 | a number and a word behind it are read as value and unit, the unit being right exactly when it is the expected one but for case |
| AnswerForms.NormalizeIdempotent | internal/pipeline/grade/matchers.go:15-46 | a normalized text is its own normal form |
| AnswerForms.NormalizeOverlooks | internal/pipeline/grade/matchers.go:15-46 | anywhere in a text upper case counts as lower case, an apostrophe as nothing, other punctuation as a blank |
| AnswerForms.PlainIsRespaced | internal/pipeline/grade/matchers.go:43-46 | lower-case letters and digits stay as they are, with one blank between words |
| AnswerForms.NormalizeIgnoresPadding | internal/pipeline/grade/matchers.go:43-46 | blanks around a text do not change its normal form |
| AnswerForms.NormalizingNeverLoses | internal/pipeline/grade/matchers.go:60-88 | an answer that matches a guide entry as it stands also matches it normalized |
| AnswerForms.MoreTextNeverLower | internal/pipeline/grade/matchers.go:310-334 | text written around a partial answer never lowers its award |
| Matchers.MatchStep | internal/pipeline/grade/matchers.go:236-281 | the line loop and its fallback add a step's positive marks exactly when some line or the whole answer matches |
| Matchers.MatchMultiStep | internal/pipeline/grade/matchers.go:220-296 | award, confidence and justification over all steps |
| Awards.NumericStepHits | internal/pipeline/grade/matchers.go:236-281 | a line hits a numeric step exactly when it is a number within the step's own tolerance |
| Awards.ObjectiveStepHits | internal/pipeline/grade/matchers.go:236-281 | it hits any other step exactly when the step's values accept it as the step's type compares |
| Awards.StepsAward | internal/pipeline/grade/matchers.go:220-296 | the award is the sum of the positive marks of the steps some line, or the whole answer, hits, held between 0 and the maximum |
| Awards.StepsReason | internal/pipeline/grade/matchers.go:220-296 | the justification names exactly the steps that earned and those that did not |
| Matchers.MatchPartial | internal/pipeline/grade/matchers.go:310-334 | the award is the clamped sum of the criteria met |
| Awards.PartialAwards | internal/pipeline/grade/matchers.go:310-334 | a criterion adds its marks exactly when one of its texts stands in the answer, whatever the case; the sum is held within bounds and reported |
| MultiStepAwards.FallbackRedundant | internal/pipeline/grade/matchers.go:262-275 | with one-line guide values whatever the whole answer matches some line matches |
| MultiStepAwards.AwardIsLineMarks | internal/pipeline/grade/matchers.go:220-296 | then the award is the clamped sum of the positive marks of the steps some line matches |
| MultiStepAwards.MoreLinesNeverLower | internal/pipeline/grade/matchers.go:220-296 | then writing more lines never lowers an award |
| MultiStepAwards.OrderOfStepsIrrelevant | internal/pipeline/grade/matchers.go:220-296 | then permuting the steps does not change it |
| MultiStepAwards.OneLineIsNeeded | internal/pipeline/grade/matchers.go:236-281 | for a step of any type but numeric and set, all compared with one expected answer, appended lines never cost marks exactly when its trimmed text is one line |
| MultiStepAwards.SetLinesAreNeeded | internal/pipeline/grade/matchers.go:236-281 | for a set of accepted values, exactly when every accepted value of several lines has a line that hits by itself |
| Schemes.Provider.Complete | internal/pipeline/grade/llmjudge.go:46-72 | a model call is an arbitrary reply, counted |
| Schemes.GuideMarkScheme.AskJudge | internal/pipeline/grade/llmjudge.go:46-136 | the judge's grade and its number of model calls for any reply |
| Schemes.GuideMarkScheme.Grade | internal/pipeline/grade/guide.go:169-288 | the grading dispatcher, its result and its model calls for any reply |
| Awards.BlankEarnsNothing | internal/pipeline/grade/guide.go:169-195 | a blank answer asks nobody, earns nothing and is flagged |
| Awards.MatcherGrades | internal/pipeline/grade/guide.go:196-288 | a deterministic entry asks nobody: the verdict of the matcher its type names, held within the maximum, which a plain right answer earns in full |
| Awards.ModelGrades | internal/pipeline/grade/llmjudge.go:46-136 | one call; the marks given when they lie within the maximum, else the nearer bound; a failed call gives 0 and its flag |
| Schemes.PreviewGuide | internal/pipeline/grade/preview.go:51-125 | one result per sample, in order, that of the second dispatcher |
| Awards.Previews | internal/pipeline/grade/preview.go:51-125 | a preview is the matcher's verdict held within the entry's own maximum, and 0 with the reason where the entry is missing or needs a model |
| Schemes.PreviewAgrees | internal/pipeline/grade/preview.go:51-125 | on a written answer a previewable result has the confidence and justification of grading, and its award exactly when the paper's own marks do not stand in |
| Schemes.PreviewUnderstates | internal/pipeline/grade/preview.go:51-125 | an entry with max_marks 0 and a right answer: preview awards 0, grading the paper's marks |
| Schemes.PreviewableMeansNoModel | internal/pipeline/grade/preview.go:32-60 | with a provider, previewable is exactly: grading calls no model |
| Schemes.AwardsAreBounded | internal/pipeline/grade/llmjudge.go:74-136 | whatever the model replies, a question with non-negative maximum is awarded between 0 and it |
| Totals.GradePaper | internal/pipeline/grade/grader.go:28-79 | every question graded in place by the scheme's answer at its position, a failing one isolated at 0, totals and sections those of the graded questions |
| Totals.FailureIsIsolated | internal/pipeline/grade/grader.go:36-53 | a question the scheme fails on earns 0 and is flagged, any other is kept |
| Totals.SumsAdd | internal/pipeline/grade/grader.go:55-68 | the two sums are those of the awards and of the maxima |
| Totals.SectionsAreNamed | internal/pipeline/grade/grader.go:58-63 | questions without a section count under ? |
| Totals.SectionExact | internal/pipeline/grade/grader.go:55-68 | a section appears exactly when a question is in it, with the sum of its awards |
| Totals.SectionsAddUp | internal/pipeline/grade/grader.go:55-68 | the section totals sum to the total |
| Totals.MarksAreConserved | internal/pipeline/grade/grader.go:55-87 | with awards within bounds, sections sum to Total <= MaxTotal and the score lies in [0,100], within 0.05 of the exact percentage |
| Totals.GradedPapersConserve | internal/pipeline/grade/grader.go:28-87 | so does every paper a guide grades, whatever the model replies to each question, when guide and paper maxima are non-negative |
| Totals.ScoreMonotone | internal/pipeline/grade/grader.go:70-87 | more marks never score less |
| Totals.RoundingError | internal/pipeline/grade/grader.go:82-87 | rounding to one decimal is off by at most 0.05 |
| Totals.RoundsToOneDecimal | internal/pipeline/grade/grader.go:82-87 | the result has one decimal, and how far it is off below zero too |
| Totals.ScoreIsThePercentage | internal/pipeline/grade/grader.go:70-80 | the score is the rounded percentage of MaxTotal, 0 without one |
| Totals.RecomputeEffectiveTotals | internal/api/review_handler.go:328-345 | the review side's loop recomputes totals and score of the effective questions |
| Totals.OneScore | internal/api/review_handler.go:322-351 | it is the identity exactly on papers whose totals are their questions', so grade stage, review and approval agree |
| Overlay.BuildIndex | internal/api/review_handler.go:295-301 | the index map holds exactly the last position of every number |
| Overlay.OverlayReviews | internal/api/review_handler.go:291-320 | overwriting the questions in place through the index is the overlay of the reviews in order |
| Overlay.LastReviewWins | internal/api/review_handler.go:291-320 | with unique numbers a question shows its last review's marks and last non-empty feedback, and is otherwise unchanged |
| Overlay.OverrideHitsTheLast | internal/api/review_handler.go:133-320 | the next view differs from the last one in the last question with the number, whichever question the handler read |
| Overlay.RequestIsGranted | internal/api/review_handler.go:180-236 | the row and the returned question carry the requested marks held within the question's maximum, or the old ones, and the requested feedback, comment and actor |
| Overlay.MarksShowIffLast | internal/api/review_handler.go:133-320 | so the returned marks show exactly when the returned question is the last with its number or its marks did not change |
| Overlay.NextViewShowsTheOverride | internal/api/review_handler.go:133-289 | when the first question with the number is also the last, the next view shows the returned marks, leaves other questions alone, shows the feedback exactly when it is non-empty or there was none, and moves Total by new minus old exactly when Total was the sum |
| Overlay.NextViewShowsTheRequest | internal/api/review_handler.go:133-289 | so the next view shows the requested marks, and the feedback unless it was empty |
| Overlay.SameTotalsIff | internal/api/review_handler.go:291-345 | further reviews move the recomputed total by the sum of their changes to the questions they hit, and leave the maximum |
| Ledger.StaysSound | internal/api/approval_handler.go:111-193 | one write of one request, failing or not, keeps every row, grade, artifact and command audited |
| Ledger.AuditDominates | internal/api/review_handler.go:239-274 | so does every interleaving of any number of requests |
| Ledger.NothingUnaudited | internal/api/approval_handler.go:111-193 | at every moment override rows are no more than their audit events, commands no more than the audit events of that step for that submission, grades and artifacts show audited totals, a grade has its artifact, and an approve command its grade |
| Ledger.OthersWait | internal/api/approval_handler.go:111-193 | a move begins one request or takes one a write further, or to its end when the call fails; the other requests and, but for that write, the books stay as they are |
| Ledger.ApprovalKeepsAgreement | internal/api/approval_handler.go:131-178 | an approval served alone keeps grade row and artifact in agreement exactly when the row was written whenever the artifact was, or there was no row, or the old row shows the new totals |
| Ledger.RetryMends | internal/api/approval_handler.go:64-78 | an approval whose row write takes effect leaves the two in agreement, whatever they were before |
| Ledger.SerialMixesGrades | internal/api/approval_handler.go:131-178 | a successful approval and a later one whose row write fails leave different totals in row and artifact |
| Ledger.AgreeIffLastWritesDo | internal/api/approval_handler.go:131-178 | after any interleaving row and artifact agree exactly when the last row write and the last artifact write that took effect carry equal totals |
| Ledger.OverlapMixesGrades | internal/api/approval_handler.go:131-178 | two overlapping approvals can leave different totals even though every call succeeds |
| Ledger.FinalShowsTheRowsIff | internal/api/approval_handler.go:99-178 | a grade an approval wrote shows the marks now in the table exactly when the rows inserted since it listed them change the marks by nothing altogether, as when there are none |
| Ledger.LateOverrideIsLost | internal/api/approval_handler.go:99-178 | an override inserted between the listing and the grade row does not show in the grade |
| Handlers.Desk.InsertAuditEvent | internal/api/review_handler.go:239-256 | an audit insert appends the event, or nothing when it fails before taking effect |
| Handlers.Desk.PublishCommand | internal/api/approval_handler.go:180-193 | so does a command publish |
| Handlers.Desk.PatchQuestion | internal/api/review_handler.go:133-289 | the handler's writes are those of its request, stopping at the first failing call, and it returns the question exactly when all went well |
| Handlers.Desk.Approve | internal/api/approval_handler.go:79-209 | likewise, and a returned grade is the one stored |
| Handlers.Desk.Snapshot | internal/api/approval_handler.go:111-193 | audit, artifact, grade row and command, in that order, up to the first failure |
| Handlers.Desk.Release | internal/api/approval_handler.go:211-328 | publish and export: audit before command, only from approved and published |
| Handlers.Desk.RegradeAppeal | internal/api/appeal_handler.go:278-345 | audit, regrade command, appeal status, in that order, up to the first failure |
| Handlers.OverrideWrites | internal/api/review_handler.go:133-289 | served from the state of the books, an override writes its audit event and its row, and nothing at all outside teacher_review or for a number the paper lacks |
| Handlers.ApprovalWrites | internal/api/approval_handler.go:79-209 | an approval writes event, artifact, row and command with the same totals, each once the ones before succeeded, and nothing outside teacher_review |
| Handlers.ReleaseWrites | internal/api/approval_handler.go:211-328 | publish and export write their own event and command |
| Handlers.RegradeWrites | internal/api/appeal_handler.go:278-345 | a regrade writes its event, the command and the appeal's status |
| Handlers.ServingIsARun | internal/api/approval_handler.go:111-193 | a request served on its own is one of the runs Ledger speaks about |
| Archive.KeysApart | internal/gradeworker/gradeworker.go:316-349 | archive keys are distinct per index and never the current key |
| Archive.SlotFrom | internal/gradeworker/gradeworker.go:328-341 | the search for a free slot ends on every store, at the first free index |
| Archive.ObjStore.Put | internal/gradeworker/gradeworker.go:342-349 | a put sets one key, or none when it fails before taking effect |
| Archive.ObjStore.ArchivePriorGradedArtifact | internal/gradeworker/gradeworker.go:316-349 | the current paper is copied to the first free slot, or nothing changes; success means it was copied |
| Archive.ObjStore.StoreGraded | internal/gradeworker/gradeworker.go:220-234 | archive then overwrite; whatever fails, one of three well-defined outcomes |
| Archive.StoreIsALog | internal/gradeworker/gradeworker.go:220-234 | over any run of gradings and feedback, failures included, archive 1..k and the current paper are the log of the run |
| Archive.ArchiveNeverChanges | internal/gradeworker/gradeworker.go:316-349 | no event changes or removes an archived copy |
| Archive.LogIsTheGradings | internal/gradeworker/gradeworker.go:220-234 | without errors the log has one entry per grading, the paper written last before the next grading, by that grading or by feedback |
| Archive.OnlyTheNewestIsRewritten | cmd/feedback/main.go:150-161 | feedback and regrading leave all but the newest log entry as it is |
| Guides.ListedNewestFirst | internal/store/db/marking_guide.sql.go:125-181 | the listing holds exactly a scope's rows, newest version first |
| Guides.GuideTable.InsertGuideVersion | internal/store/db/marking_guide.sql.go:61-123 | an import appends an unlocked row with the next version of its scope |
| Guides.GuideTable.LockGuide | internal/store/db/marking_guide.sql.go:183-203 | locking sets one row of the tenant, or none |
| Guides.GuideTable.SelectLockedOrLatestGuide | internal/gradeworker/gradeworker.go:362-384 | the highest locked version is chosen, else the latest and it is to be locked |
| Guides.GuideTable.PinForGrading | internal/gradeworker/gradeworker.go:156-177 | a grading uses that version, and locks it when nothing was locked |
| Guides.GradingLocks | internal/gradeworker/gradeworker.go:156-177 | every scope with guides can be graded; unless its lock fails a grading locks the version it used when nothing was locked, and changes nothing else |
| Guides.StaysNumbered | internal/store/db/marking_guide.sql.go:61-78 | every event keeps versions numbered 1, 2, 3, ... in each scope |
| Guides.RunStaysNumbered | internal/store/db/marking_guide.sql.go:61-78 | so does every run |
| Guides.GradedVersionsNeverDrop | internal/gradeworker/gradeworker.go:156-177 | with locks that succeed, the versions graded against never decrease, explicit locks and imports included |
| Guides.LockedVersionStays | internal/gradeworker/gradeworker.go:156-177 | once locked and nobody locks explicitly, every grading uses that version |
| Guides.FirstGradingPins | internal/gradeworker/gradeworker.go:156-177 | without explicit locks all gradings use the version of the first |
| Guides.NeverDropsIffNoUndercut | internal/gradeworker/gradeworker.go:156-177 | whatever locks fail, the versions graded against never decrease exactly when no grading follows an explicit lock that, with nothing locked, put the highest lock below a version already graded against |
| Guides.FailingLocksNeverDrop | internal/gradeworker/gradeworker.go:168-177 | so failing locks alone never make a grading use an older version |
| Guides.FailedLockCanDrop | internal/gradeworker/gradeworker.go:168-177 | a failed lock, then an explicit lock of an older version: the next grading uses the older one |
| Correlation.Mean | internal/analytics/analytics.go:218-227 | the loop computes the arithmetic mean, 0 of nothing |
| Correlation.DeviationsCancel | internal/analytics/analytics.go:218-227 | the mean is where the deviations cancel out |
| Correlation.Pearson | internal/analytics/analytics.go:195-216 | the loops compute the coefficient of the centred sequences |
| Correlation.CauchySchwarz | internal/analytics/analytics.go:203-212 | cov squared is at most varX times varY, for all sequences |
| Correlation.WithinOne | internal/analytics/analytics.go:195-216 | so the coefficient lies in [-1,1] |
| Correlation.Symmetric | internal/analytics/analytics.go:195-216 | it does not matter which side comes first |
| Correlation.ScaleInvariant | internal/analytics/analytics.go:195-216 | shifting or scaling either side changes nothing but, for a negative scale, the sign |
| Correlation.DocumentedFormula | internal/analytics/analytics.go:29-44 | it equals the documented covariance over the product of the population deviations, 0 where either is 0 |
| Correlation.PerfectIffLinear | internal/analytics/analytics.go:195-216 | where both sides vary it is 1 exactly when one is a rising linear function of the other |
| ItemAnalysis.Group | internal/analytics/analytics.go:112-131 | one pass over papers and questions files every answer under its number, in order, with the first-seen maximum |
| ItemAnalysis.ItemAnalysis | internal/analytics/analytics.go:100-190 | exactly one statistic per distinct question, strictly sorted, each field the value of filtering all papers for that question |
| Sorting.BeforeIsLexical | internal/analytics/analytics.go:182-190 | numbers are ordered as in a dictionary |
| ItemAnalysis.AnalysisIsUnique | internal/analytics/analytics.go:100-190 | that promise determines the result |
| ItemAnalysis.FiguresAreOfThePapers | internal/analytics/analytics.go:112-176 | mean, difficulty and both shares by the occurrences of the question in the papers: those with all marks, those with none, the sum, the first-seen maximum; 0 without a maximum |
| ItemAnalysis.DiscriminationIsOfThePapers | internal/analytics/analytics.go:168-176 | the discrimination correlates the awards with the totals of their papers |
| ItemAnalysis.ResponsesAddUp | internal/analytics/analytics.go:116-176 | the responses sum to the number of graded questions |
| ItemAnalysis.ResponsesArePapersIff | internal/analytics/analytics.go:18-26 | Responses is the documented number of papers with the question exactly when no paper has its number twice |
| ItemAnalysis.RepeatedNumberCountsTwice | internal/analytics/analytics.go:112-131 | one paper with the same number on two questions gives two responses |
| ItemAnalysis.StatsInRange | internal/analytics/analytics.go:153-176 | discriminations lie in [-1,1] and both shares in [0,1], whatever was awarded |
| ItemAnalysis.HardestQuestions | internal/analytics/analytics.go:342-360 | the requested number of questions, the start of a sorted arrangement of all |
| ItemAnalysis.HardestAreHardest | internal/analytics/analytics.go:337-360 | no question left out is harder than one returned |
| ItemAnalysis.HardestFirst | internal/analytics/analytics.go:342-360 | they come by difficulty, then by number, and ties at the cut are decided by number too |
| Distribution.BucketIsInterval | internal/analytics/analytics.go:320-332 | the index of a score is i exactly when the score lies in interval i, the outer two being unbounded |
| Distribution.BarsAreLabelled | internal/analytics/analytics.go:232-252 | the captions and bounds of the ten bars |
| Distribution.Populate | internal/analytics/analytics.go:305-308 | each bucket counts exactly the scores in its interval |
| Distribution.GradeDistribution | internal/analytics/analytics.go:254-318 | buckets, mean, median, deviation, extremes and count, and zeros for no papers |
| Distribution.HistogramIsComplete | internal/analytics/analytics.go:305-308 | the counts sum to the number of scores, in or out of [0,100] |
| Distribution.MedianHalves | internal/analytics/analytics.go:294-303 | at least half of the scores lie on each side of the median |
| Distribution.MedianIsTheMiddle | internal/analytics/analytics.go:294-303 | twice the median is the sum of the two middle scores in order |
| Distribution.DeviationSquared | internal/analytics/analytics.go:284-292 | StdDev squared is the mean of the squares minus the square of the mean |
| Outcomes.OpenEntries | internal/analytics/outcomes.go:73-89 | in whatever order the mapping is walked, every outcome gets exactly its questions |
| Outcomes.Walk | internal/analytics/outcomes.go:91-107 | the triple loop adds every contribution to its outcome once |
| Outcomes.OutcomeMastery | internal/analytics/outcomes.go:54-132 | one statistic per mapped outcome, from its contributions, in the order of some map walk sorted stably by code; none when either input is empty |
| Outcomes.ResponsesAddUp | internal/analytics/outcomes.go:91-107 | responses sum to the mapped outcomes of all graded questions |
| Outcomes.FiguresAreOfThePapers | internal/analytics/outcomes.go:91-127 | responses and mean by the questions mapped to the outcome: the mean times their maxima is their awards; code, description, number of questions, and the label by interval |
| Outcomes.MeanIsAShare | internal/analytics/outcomes.go:109-127 | MeanPct lies in [0,1] when awards lie within their maximum |
| Outcomes.WalkOrderHiddenIffCodesApart | internal/analytics/outcomes.go:109-132 | every walk of the map gives the same result exactly when no two mapped outcomes share a code |
| Outcomes.LearningGaps | internal/analytics/outcomes.go:152-180 | the requested number of answered outcomes, the start of a sorted arrangement of all |
| Outcomes.GapsAreTheWeakest | internal/analytics/outcomes.go:144-180 | every gap was answered, and no answered outcome left out is weaker |
| Outcomes.WeakestFirst | internal/analytics/outcomes.go:152-180 | they come by mean, then by code, and ties at the cut are decided by code too |
| Numbering.DedupeQuestionNos | internal/pipeline/transcribe.go:317-329 | in place: first occurrences keep their number, the k-th repetition gets the suffix #k, nothing else changes |
| Numbering.SuffixedInjective | internal/pipeline/transcribe.go:323 | a suffixed number determines the number and the count it was made of |
| Numbering.UniqueIffNoClash | internal/pipeline/transcribe.go:315-329 | the new numbers are unique exactly when no raw number equals another one with a suffix its repetitions receive |
| Numbering.UniqueWithoutHash | internal/pipeline/transcribe.go:315-329 | in particular when no raw number contains # |
| Numbering.HashCanCollide | internal/pipeline/transcribe.go:315-329 | the promise of the comment fails on 1, 1, 1#2 |

## Left out

* HTTP routing, request decoding, JWT, API keys, RBAC, webhooks, encryption, the
  Postgres, object-store and AMQP clients: only how a call ends is kept, with the
  table, map or queue it acts on.
* OCR, vision, transcription, feedback and judge models: any reply is possible.
  The worker's own steps before its result message are one call that may fail.
* Floating-point rounding and 64-bit overflow: arithmetic is exact. In particular
  `int64(x)` truncates without a range limit, and the clamp `idx > 9` of
  internal/analytics/analytics.go:328-330 never applies.
* `ParseFloat` results that are no real numbers (infinities, NaN).
* The nesting limit of Go's JSON decoder (10000 levels), and invalid UTF-8:
  `json.Valid` is taken to accept exactly RFC 8259.
* The sort of the library is an insertion sort on values; only its order,
  permutation and stability are used.
* Text of justifications, error details and log lines: a justification is a
  constructor with the values it formats.
* The two scan loops of `extractJSON` are one method here; each caller keeps its
  own fence handling. Publish and Export are one method with a flag.
* Questions and reviews carry only the fields the modelled code reads or writes;
  `section_totals` after an overlay is kept as it was, as the code does.
* ValidateGuide: no theorem needs a valid guide, so it is not a precondition.
* FlagFrequencies, TotalMaxMarks, ResolveAppeal, FileAppeal, the roster and CSV
  imports, and the Python proof of concept: easy members or an older duplicate.
* A consumer that dies holding a message, and lost acknowledgements. In `Races` a
  handler's write, its publish and its acknowledgement are one move; a later
  publish is a later delivery of the same message.
* Queues as queues: any live message may be delivered next, so no theorem relies
  on order. Messages and places are values in one journal; the in-place part is
  the bus and orchestrator classes.
* The lookup of a submission in its tenant, with its 404, before each handler.
