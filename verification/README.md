# Verified model of the paper-grading backend

Teachers upload papers, confirm a rubric, and start grading batches. Workers grade each paper by calling a
model provider that bills per call; results are reviewed by the teacher and exported as workbooks. This
project models the parts of the backend where money, grades or files could be lost by an unlucky order of
events, and proves what they promise.

## What is modelled

- **Grading pipeline** (`GradingRows`, `AttemptHistory`, `GradingTransitions`, `GradingInvariants`,
  `GradingEffects`, `GradingSystem`, `GradingEvolution`, `GradingSafety`, `GradingFreshness`, `GradingTheorems`,
  `GradingMeaning`, `GradingPause`, `GradingLimits`, `GradingConfirmation`, `StalePreparation`, `GradingRepository`,
  `GradingRunner`). Jobs, items and attempts are
  rows with their CHECK constraints and triggers. Any number of worker slots prepare, claim, call and finish; they
  may crash, messages may be delivered again, a sweeper expires leases, teachers pause, resume, cancel, retry and
  confirm, and providers are edited and tested meanwhile. Each database transaction is one step. The repository and the
  runner are classes whose loops and column updates are proved against the transition functions. `GradingEffects`
  says column by column what each transaction writes, without those functions; the repository's and runner's
  contracts and `GradingMeaning`, which covers every step in every reachable state, hold both to it. The
  theorems speak about every run of the step system. The SQL of `control_grading_job` and
  `confirm_teacher_reviews` is modelled as it stands after migration 0015, the job transition table as it stands
  after migration 0012, and the provider trigger with the eight columns it compares after migration 0012.
- **Provider configurations** (`ProviderConfigs`, `ProviderRepository`): the conditional updates, the version
  trigger and the guard for active jobs. Their runs are part of the grading step system.
- **Provider schema compiler** (`ProviderSchema`, `SchemaProjection`, `SchemaMeaning`, `SchemaDirections`,
  `SchemaLosses`, `SchemaNames`, `SchemaInputs`): the recursive projection, terminating by definitions not yet
  expanded and then by structure, and an evaluator for schemas in which keywords beside a reference count. Strings
  are sorted by the keywords that matter; numbers are reals; any keyword not listed is an arbitrary assertion on the
  instance.
- **Rubrics and grades** (`Rubric`, `Grades`, `Workbook`, `ReviewEvidence`): both rubric validators, the grade
  validator with its evidence check, the totals, the workbook's own recomputation, and a review's evidence.
  Amounts are integers in units of 0.0001.
- **Rubric lifecycle** (`RubricRows`, `RubricLifecycle`, `RubricFlushes`): an assignment and its rubric versions, flush by
  flush, through triggers, CHECK constraints and partial unique indexes.
- **Exports** (`ExportRows`, `ObjectStore`, `ExportRunner`, `ExportProtocol`,
  `ExportRefinement`): the row functions of migration 0017, the write-once object store, one runner from claim to
  cleanup, any number of runners interleaved request by request, with requests that arrive after their sender gave
  up, and the proof that the runner is a run of that interleaved model.
- **Canonical JSON** (`CanonicalDecimal`, `CanonicalJson`), **backup envelopes** (`BackupEnvelope`, `BackupFiles`) and the
  **upload saga** (`SubmissionUpload`).

## Properties that turned out false, and when they hold

- "At most one correction per round" (`docs/STAGE10_ACCEPTANCE.md:842`) holds after a run iff the run never finished
  a call whose output was rejected, whose plan had been made without a correction prompt, and whose round had already
  asked for a correction (`GradingLimits.CorrectionLimitIff`). "At most R + 2 calls per round" holds iff no claim was
  granted for a round with two corrections requested after its R retries (`GradingLimits.CallLimitIff`); the number
  of calls is exact in every reachable state (`GradingTheorems.CallsPerRound`). Both conditions read the rows just
  before the step. `StalePreparation.StalePreparationBreaksTheLimit` is a run of two slots that breaks both.
  The retries for provider errors alone never exceed R (`GradingTheorems.ProviderRetriesPerRound`), and both limits
  hold for fresh preparations (`GradingTheorems.FreshRunLimits`) and for the deployed worker with one slot
  (`GradingTheorems.SingleSlotLimits`).
- A valid rubric and a valid answer can have deductions whose sum needs more than ten digits; the exception that
  follows is none of the validator's own errors. `Grades.UnhandledExactlyWhenDeductionsOverflow` gives the exact
  condition, `Grades.DeductionsCanOverflow` an input.
- An upload settles as ready-with-text or failed-without-text unless it is cancelled just after one of three
  commits. `SubmissionUpload.SettlesUnlessUnprotected` is the exact condition;
  `SubmissionUpload.UnprotectedIsStuck` shows what is left.
- A compiled schema does not always accept what its source accepts. For regular schemas, where the compiler changes
  names, references and objects only, these are all the differences, at every depth
  (`SchemaNames.StrictCompiledDecides`, `SchemaNames.GeminiCompiledDecides`): a strict dialect loses required names
  that are not kept as properties and keywords beside a reference; Gemini loses limits and such keywords, and rejects
  what stands under a property name it is not sent where additionalProperties does not accept it. An instance that
  meets none of them is read alike, whatever the schema's anyOf; that the others are read differently is proved
  unless the readings take the instance for different alternatives of an anyOf.
- `SchemaLosses` has the conditions at one object that need not be regular: required names (`RequiredKeptIff`,
  `RequiredLoses`), constants and enumerations of any shape (`ChoiceLostIff`), and keywords beside a reference
  (`SiblingsLostIff`, for regular definitions). `SchemaInputs` has an input for each loss.
- Further changes have no condition here: properties called `$ref` or `const`, or `properties` in a strict dialect,
  apart from what they do to required names; values of keywords that are not read as schemas here, such as `not` or
  `oneOf`, when the compiler changes something inside them; and schemas that are malformed.

## Model

| member | source | states |
|---|---|---|
| AttemptHistory.AggregatesOfChain | backend/app/workers/repository.py:648-671 | on every legal history the two max() aggregates give the next attempt number n + 1 and continue the round's call sequence |
| AttemptHistory.RoundsAndSequences | backend/app/workers/repository.py:648-692 | along attempt numbers rounds never decrease, sequences of one round have no gaps, and only a retried call is followed within its round |
| AttemptHistory.RoundStart | backend/app/workers/repository.py:660-671 | the calls of a round form one block whose sequences are exactly 1..k |
| AttemptHistory.CallsOfRound | backend/app/workers/tasks.py:277-285 | on every legal history the calls of a round beyond R + 1 are exactly as many as its corrections requested after the R retries; a call is beyond R + 2 iff two of those precede it |
| AttemptHistory.ProviderRetryBound | backend/app/workers/tasks.py:277-285 | on every legal history at most R retries of a round were granted for provider errors |
| AttemptHistory.OneCorrectionPerRound | backend/app/workers/tasks.py:375-394 | with fresh preparations a round asks for at most one correction |
| AttemptHistory.FreshCallBound | backend/app/workers/tasks.py:277-285 | with fresh preparations a round has at most R + 2 calls |
| AttemptHistory.FreshShape | backend/app/workers/repository.py:512-557 | with fresh preparations parents form the chain n to n - 1 and the kind is determined by the position in the history |
| AttemptHistory.KindsOfRound | backend/app/workers/repository.py:528-557 | how many automatic retries and corrections the calls of a round can be |
| AttemptHistory.RetryLimits | docs/STAGE10_ACCEPTANCE.md:842 | with fresh preparations at most R automatic retries and at most one correction per round |
| GradingInvariants.ClaimKeepsItem | backend/app/workers/repository.py:649-705 | a claim appends one running attempt with the next number and keeps the item invariant, its CHECK and its trigger |
| GradingInvariants.FinishKeepsItem | backend/app/workers/repository.py:753-797 | success or failure ends exactly the running attempt, leaves the item queued, needs_review or failed, and passes both history triggers |
| GradingInvariants.ExpireKeepsItem | backend/app/workers/repository.py:435-459 | an expired lease ends the running attempt as ambiguous and hands the item to the teacher |
| GradingInvariants.TeacherKeepsItem | backend/migrations/versions/20260719_0015_build_teacher_review_workbench.py:172-245 | a teacher's retry, cancellation or confirmation keeps the item invariant and passes the item trigger |
| GradingInvariants.ReconcileSettles | backend/app/workers/repository.py:891-918 | reconciling after one item changed restores the job invariant; its cancelled branch is never taken |
| GradingInvariants.ControlKeepsJob | backend/migrations/versions/20260719_0015_build_teacher_review_workbench.py:172-245 | pause, resume, cancel and retry keep the job invariant and pass the job trigger |
| GradingInvariants.ConfirmKeepsJob | backend/migrations/versions/20260719_0015_build_teacher_review_workbench.py:586-834 | a confirmation completes exactly the items named, or finds them completed and changes nothing; the job is then completed iff all its items are, and stays open iff one is queued or running |
| GradingConfirmation.ConfirmAllIsRun | backend/migrations/versions/20260719_0015_build_teacher_review_workbench.py:777-826 | what is committed for reviews of several jobs, items first and jobs after, is a run of confirmations of one job each |
| GradingConfirmation.ConfirmAllIff | backend/migrations/versions/20260719_0015_build_teacher_review_workbench.py:603-776 | all or nothing: committed iff 1 to 100 existing reviews are named and either all are confirmed or all are confirmable and no job among them is cancelled |
| GradingSafety.StepSafe | backend/app/workers/repository.py:403-918 | every step of workers, sweeper, teachers and administrators keeps the whole invariant and only evolves rows forward |
| GradingSafety.RunSafe | backend/app/workers/repository.py:403-918 | every run keeps the invariant, whatever the interleaving |
| GradingSafety.ConcurrencyKept | backend/app/workers/repository.py:596-616 | replacing one job keeps the running calls of each provider below its largest snapshot |
| GradingFreshness.FreshRunKept | backend/app/workers/repository.py:512-557 | runs whose claims use fresh preparations keep every history fresh |
| GradingFreshness.SingleSlotRunsAreFresh | backend/app/workers/supervisor.py:28-46 | with one worker slot every preparation is fresh when it is claimed |
| GradingTheorems.CallNumbering | backend/app/workers/repository.py:648-692 | in every reachable state attempts are 1..n, rounds start at 1 and never skip, and sequences of a round are exactly 1..k |
| GradingTheorems.NoCallAfterSuccessOrUnknown | docs/STAGE10_ACCEPTANCE.md:9 | within a round no call follows a success or an unknown outcome: one success at most, and no automatic second billing |
| GradingTheorems.RunningIffOneAttempt | backend/app/workers/repository.py:435-444 | an item is running iff exactly one attempt is, and that is its latest |
| GradingTheorems.SweeperNeverRaises | backend/app/workers/repository.py:403-459 | the sweeper sweeps exactly the expired items; neither of its errors is reachable |
| GradingTheorems.RetryCountMeaning | backend/app/workers/repository.py:873-878 | retry_count counts the calls of the current round that asked for a retry |
| GradingTheorems.LeaseIsExclusive | backend/app/workers/repository.py:753-761 | a worker's result is accepted iff its attempt still runs, and at most one worker holds an item's lease, even if tokens repeat |
| GradingTheorems.HistoryIsPermanent | backend/migrations/versions/20260716_0012_build_stage_ten_batch_pipeline.py:211-255 | attempts are only appended, and a finished attempt never changes |
| GradingTheorems.SweptWorkerChangesNothing | backend/app/workers/repository.py:838-846 | a worker whose lease was swept can only raise, in every continuation |
| GradingTheorems.JobFollowsItems | backend/app/workers/repository.py:891-918 | the status of a job that was not cancelled is a function of its items' statuses |
| GradingTheorems.RowChecksHold | backend/app/domain/models.py:405-424 | the timestamp, progress and state CHECKs hold in every reachable state |
| GradingTheorems.FinishSettlesJob | backend/migrations/versions/20260721_0016_keep_active_review_batches_dispatchable.py:20-52 | a successful finish passes all row triggers unchanged and settles a job without open items as needs_review or failed, never as cancelled |
| GradingTheorems.CancelledJobsAreNotBilled | docs/STAGE10_ACCEPTANCE.md:689 | after a cancellation no attempt is ever added to the job |
| GradingTheorems.StateVersionDetectsChange | backend/app/workers/repository.py:891-918 | state_version is equal iff job, items and attempts are unchanged |
| GradingTheorems.ProviderConcurrency | backend/app/workers/repository.py:596-616 | the running calls of a provider are its running items, one each, and never more than some job of that provider was created to allow |
| GradingTheorems.EnabledMeansTested | backend/app/providers/repository.py:115-136 | an enabled provider has exactly the columns that some successful test used |
| GradingTheorems.NoVersionReuse | backend/migrations/versions/20260716_0012_build_stage_ten_batch_pipeline.py:41-81 | equal config_version means equal columns, for ever |
| GradingTheorems.OpenJobKeepsConfiguration | backend/app/workers/repository.py:498-508 | a job that is open, or open again, finds its provider with the columns it was created with |
| GradingTheorems.CallsPerRound | backend/app/workers/tasks.py:277-285 | in every reachable state the calls of a round number R + 1 and one more per late correction; a call is beyond R + 2 iff two late corrections of its round precede it |
| GradingTheorems.ProviderRetriesPerRound | docs/STAGE10_ACCEPTANCE.md:842 | in every reachable state at most R retries of a round were granted for provider errors |
| GradingTheorems.FreshRunLimits | docs/STAGE10_ACCEPTANCE.md:842 | in every fresh run: R + 2 calls, R automatic retries, one correction per round, one parent chain, kinds by position |
| GradingTheorems.SingleSlotLimits | backend/app/workers/supervisor.py:28-46 | the deployed single-slot worker meets the limits in every run |
| GradingEffects.PlanNextFits | backend/app/workers/repository.py:512-557 | the next call follows the latest one; it is a correction iff that one asked for it in this round, a manual retry iff it opens a later round, and quotes the rejected output iff the latest rejection of the round stored it |
| GradingEffects.SequenceCountsCalls | backend/app/workers/repository.py:660-671 | the sequence aggregate is the number of calls of the round |
| GradingEffects.ClaimWrites | backend/app/workers/repository.py:617-713 | a claim is granted iff the work is due, and writes a call numbered n + 1, one more than its round has made, under a lease of the timeout and 30 seconds, in a running job |
| GradingEffects.DecisionTable | backend/app/workers/tasks.py:259-404 | queued again iff the error is safe with retries left or the output was rejected the first time; failed iff nothing could be sent or the error is final; else with the teacher; due after 5, 10, 20, 40 or 60 seconds, corrections at once; call state, code, details and response are those of the outcome |
| GradingEffects.FinishWrites | backend/app/workers/repository.py:753-918 | a finish under a held lease writes one item by that table and settles the job by its items, and nothing else |
| GradingEffects.FailureWrites | backend/app/workers/repository.py:838-889 | finish_failure sends the item where the failure's action says, with its delay, code and call state |
| GradingEffects.SweepWrites | backend/app/workers/repository.py:403-459 | a candidate is swept iff it runs under a lease that is over; its call becomes ambiguous and its item waits for the teacher |
| GradingEffects.ConfirmWrites | backend/migrations/versions/20260719_0015_build_teacher_review_workbench.py:603-834 | a confirmation commits iff all named reviews are confirmed already, or all can be and the job is not cancelled; then exactly those items are completed and the job follows |
| GradingMeaning.PrepareMeaning | backend/app/workers/repository.py:461-587 | in every reachable state an idle slot takes a message iff its work is due, and no configuration error can stop it |
| GradingMeaning.ClaimMeaning | backend/app/workers/repository.py:589-713 | in every reachable state a prepared slot gets its lease iff the job is queued or running, the item is queued, due and of the prepared dispatch, and the provider has a free call; otherwise it gives up and nothing is written |
| GradingMeaning.FinishMeaning | backend/app/workers/tasks.py:259-404 | in every reachable state a result is written by the decision table iff its attempt and item run under the claim's token, and otherwise changes no row |
| GradingMeaning.SweepMeaning | backend/app/workers/repository.py:403-459 | in every reachable state the sweeper expires exactly the items whose lease is over |
| GradingMeaning.PauseResumeMeaning | backend/migrations/versions/20260719_0015_build_teacher_review_workbench.py:197-207 | pausing takes a queued or running job, resuming exactly a paused one, and neither touches an item |
| GradingMeaning.CancelMeaning | backend/migrations/versions/20260719_0015_build_teacher_review_workbench.py:208-219 | cancelling takes an open job and its queued items; calls in flight are not touched |
| GradingMeaning.RetryMeaning | backend/migrations/versions/20260719_0015_build_teacher_review_workbench.py:220-243 | a retry queues an unconfirmed item that waits for review or failed for its next round and lets the job run, unless it was cancelled or the provider changed |
| GradingMeaning.ConfirmMeaning | backend/migrations/versions/20260719_0015_build_teacher_review_workbench.py:586-834 | in every reachable state a confirmation completes the items it names iff each holds a successful call of its current round and the job is not cancelled |
| GradingMeaning.CreateJobMeaning | backend/app/workers/repository.py:169-300 | as far as the provider decides, a job of 1 to 100 papers is created iff it is enabled, with every item queued in its first round |
| GradingMeaning.ProviderMeaning | backend/app/providers/repository.py:38-151 | an update stores the columns given for the current version and asks for a new test iff tested columns change, which no open job allows; disabling changes the status alone |
| GradingMeaning.ProviderEnables | backend/app/providers/repository.py:88-136 | a provider with a key and a profiled default model is enabled by one passed test |
| GradingMeaning.DueWorkCompletes | backend/app/workers/tasks.py:179-404 | due work of a live job with a free call can be claimed, graded and confirmed: four steps complete the item |
| GradingPause.HaltedJobsAreNotBilled | backend/app/workers/repository.py:626-634 | from a state in which a job is paused or over, no run adds a call to it until the teacher resumes it or retries one of its items, whatever the workers still hold |
| GradingLimits.ClaimedCalls | backend/app/workers/repository.py:648-671 | a claim makes a call beyond R + 2 iff its item's rows already hold two late corrections of the round |
| GradingLimits.FinishedCorrections | backend/app/workers/tasks.py:375-394 | finishing a call makes a second correction of its round iff the output was rejected, the plan had no correction prompt, and the round had asked for one |
| GradingLimits.StepLimits | backend/app/workers/tasks.py:277-394 | a step breaks the call limit iff it is such a claim, the correction limit iff it is such a finish, and a broken limit stays broken |
| GradingLimits.CallLimitIff | docs/STAGE10_ACCEPTANCE.md:842 | after any run from an empty database all rounds are within R + 2 calls iff no claim of the run was of that kind |
| GradingLimits.CorrectionLimitIff | docs/STAGE10_ACCEPTANCE.md:842 | after any run all rounds have at most one correction iff no finish of the run was of that kind |
| GradingLimits.OneCorrectionImpliesCalls | docs/STAGE10_ACCEPTANCE.md:842 | in a reachable state with one correction a round at most, every round is within R + 2 calls |
| StalePreparation.StalePreparationBreaksTheLimit | backend/app/workers/repository.py:512-557 | two slots that prepared before either claimed make a third call in a round with R = 0; the exact conditions find the extra claim and the stale rejection in that run |
| GradingRepository.GradingJobRepository.ReadPlan | backend/app/workers/repository.py:512-557 | the two latest-first queries yield the plan: parent, kind and prompt are what the earlier calls of the item and of the round demand |
| GradingRepository.GradingJobRepository.PrepareItem | backend/app/workers/repository.py:461-587 | a preparation is returned iff the job is queued or running and the item is queued, due and of the named dispatch; it carries the job's provider snapshot and the fitting plan |
| GradingRepository.GradingJobRepository.CountRunning | backend/app/workers/repository.py:596-616 | the join counts the provider's running attempts over all jobs |
| GradingRepository.GradingJobRepository.NextNumbers | backend/app/workers/repository.py:648-671 | the two aggregates of a claim |
| GradingRepository.GradingJobRepository.ClaimAttempt | backend/app/workers/repository.py:589-713 | a claim is granted iff the provider has a free call, the job is queued or running (not paused), and the item is queued, due and of the prepared dispatch; it writes exactly one call, one lease and the job's start |
| GradingRepository.GradingJobRepository.ReconcileJob | backend/app/workers/repository.py:891-918 | the status counters settle the job: unchanged while work remains or once cancelled, else needs_review, failed or cancelled by what its items are; an item count other than the snapshot's raises |
| GradingRepository.GradingJobRepository.FinishSuccess | backend/app/workers/repository.py:715-798 | succeeds iff attempt and item run under the claim's token; the call is recorded as succeeded, the item waits for review, and the job settles |
| GradingRepository.GradingJobRepository.FinishFailure | backend/app/workers/repository.py:800-889 | succeeds iff attempt and item run under the claim's token; every column of call and item is the failure's, the back-off included |
| GradingRepository.GradingJobRepository.ExpireStaleAttempts | backend/app/workers/repository.py:403-459 | exactly the candidates whose lease is over are expired, no other item is touched, and each is counted once however often it is listed |
| GradingRepository.GradingJobRepository.FindRunning | backend/app/workers/repository.py:427-444 | a running item always has its running attempt |
| GradingRunner.BackoffBounds | backend/app/workers/tasks.py:323-327 | the wait doubles from 5 seconds and is 60 from the fifth call on |
| GradingRunner.GradingAttemptRunner.FailureOf | backend/app/workers/tasks.py:277-368 | retry iff the error is safe and retries are left, failed iff it is never to be retried, else to the teacher; delay, code, details and call state are those of the error |
| GradingRunner.GradingAttemptRunner.Conclude | backend/app/workers/tasks.py:259-404 | every outcome of a call is written by exactly one finishing transaction, by the decision table, and the result names where the item went |
| GradingRunner.GradingAttemptRunner.Run | backend/app/workers/tasks.py:179-404 | a message makes a call iff its work is due and the provider has a free call; that call is claimed and concluded by the tables, and the result reports it |
| GradingRunner.RunOnceMeaning | backend/app/workers/tasks.py:179-404 | a message that is not runnable changes nothing; any other adds exactly one call to exactly one item, claimed and concluded as its outcome demands |
| GradingRunner.RunnerIsThreeSteps | backend/app/workers/tasks.py:179-404 | what the runner does to the rows is a run of three steps of one slot, so the theorems cover real runners |
| ProviderConfigs.UpdateRowMeaning | backend/migrations/versions/20260716_0012_build_stage_ten_batch_pipeline.py:41-81 | columns change iff the version moves by one, back to draft and untested, and only without open jobs |
| ProviderRepository.ProviderConfigRepository.ExecuteUpdate | backend/migrations/versions/20260716_0012_build_stage_ten_batch_pipeline.py:505-538 | one UPDATE through both triggers and the CHECKs |
| ProviderRepository.ProviderConfigRepository.Update | backend/app/providers/repository.py:64-86 | stores what it is given iff the version is the expected one, the columns fit together, and tested columns change only without open jobs; then the version moves and the row is an untested draft |
| ProviderRepository.ProviderConfigRepository.MarkTested | backend/app/providers/repository.py:88-113 | records the test and nothing else iff the version is still the tested one |
| ProviderRepository.ProviderConfigRepository.EnableTested | backend/app/providers/repository.py:115-136 | enables iff key, default model, its profile and the test are all those of the current version, and changes nothing else |
| ProviderRepository.ProviderConfigRepository.DisableEnabled | backend/app/providers/repository.py:138-151 | disables iff enabled, and changes nothing else |
| ProviderSchema.ProjectNode | backend/app/providers/schema.py:44-102 | the loop over keys computes the projection, with the same first error, for every schema including cyclic ones |
| ProviderSchema.ProjectEntries | backend/app/providers/schema.py:76-96 | the loop over the keys of one object, dropping, renaming and projecting |
| ProviderSchema.DefinitionsGiven | backend/app/providers/schema.py:115-120 | a name has the definition written last under it, and there is no other |
| SchemaProjection.ProjectIsClean | backend/app/providers/schema.py:66-102 | compiled output has no reference, definition, const or dropped keyword at any depth, and strict objects are closed |
| SchemaProjection.CleanIsFixed | backend/app/providers/schema.py:66-102 | a clean schema is left as it is |
| SchemaProjection.ProjectionIsIdempotent | backend/app/providers/schema.py:44-102 | the fixed points are exactly the clean schemas, so compiling twice is compiling once |
| SchemaMeaning.ProjectionMeaning | backend/app/providers/schema.py:44-102 | a projected regular schema accepts exactly what its source accepts in the reading the dialect is told, through references, dropped property names and closed objects |
| SchemaDirections.AlongAccepts | backend/app/providers/schema.py:56-101 | at every depth: what a stronger reading accepts, the weaker one accepts if, along the instance, required lists name kept properties and nothing beside a reference is violated (strict to standard), or additionalProperties accepts what stands under hidden names (standard to lax) |
| SchemaDirections.WeakerAcceptsMore | backend/app/providers/schema.py:79-101 | for schemas that have none of these at any depth, the strict reading accepts no more than the standard one and the standard one no more than the lax one |
| SchemaDirections.CompiledMeaning | backend/app/providers/schema.py:105-132 | the exact meaning of a compiled schema |
| SchemaDirections.StrictDialectsAcceptNoMore | backend/app/providers/schema.py:98-101 | whatever the OpenAI or Anthropic schema accepts, the canonical schema accepts, if required lists name kept properties and references stand alone at every depth |
| SchemaDirections.GeminiAcceptsNoLess | backend/app/providers/schema.py:77-81 | whatever the canonical schema accepts, the Gemini schema accepts, if no property beside additionalProperties is called like a keyword that Gemini is not sent |
| SchemaDirections.AcyclicCompiles | backend/app/providers/schema.py:56-66 | schemas whose references only go down some ranking of the definitions always compile |
| SchemaLosses.LastWriteWins | backend/app/providers/schema.py:76-96 | for any dictionary the key loop leaves exactly the names that kept keys write, each with what the last of them wrote |
| SchemaLosses.KeywordsWritten | backend/app/providers/schema.py:76-96 | by name: definitions and the two pydantic keywords never survive, five limits do not survive for Gemini, const is written as enum, every other key is kept |
| SchemaLosses.RequiredKeptIff | backend/app/providers/schema.py:98-101 | for any object schema, at any depth, with projected properties: an object that its strict projection accepts meets a required list of the source iff the list names projected properties only |
| SchemaLosses.CompiledNames | backend/app/providers/schema.py:76-101 | which property names those are: the ones whose key is not dropped, const as enum, and the two that closing adds |
| SchemaLosses.RequiredLoses | backend/app/providers/schema.py:98-101 | for any schema: a required name that is no compiled property makes it weaker as soon as the compiled schema accepts some object |
| SchemaLosses.RequiredLostIff | backend/app/providers/schema.py:98-101 | for a regular schema with nothing else to lose, the compiled one is weaker iff it accepts some object and the root requires a name that is not kept |
| SchemaLosses.SiblingsLostIff | backend/app/providers/schema.py:56-66 | a reference with keywords beside it is weaker whenever an instance that the compiled schema accepts violates one of them, and with nothing else to lose only then |
| SchemaLosses.ChoiceLostIff | backend/app/providers/schema.py:82-96 | for constants and enumerations of any shape, in any order, beside any keywords, at any depth: what the projected object accepts is a survivor, and it accepts a violation of const or enum iff it accepts a survivor that is one |
| SchemaLosses.CompiledChoice | backend/app/providers/schema.py:82-96 | a schema of const and enum compiles to one that accepts exactly the survivors, the projections of what the last of the two names |
| SchemaLosses.ChoicesWeakenedIff | backend/app/providers/schema.py:82-96 | in every dialect such a schema is weakened iff a survivor violates the const or the enum; a const alone iff the compiler changes its value |
| SchemaNames.AlongDecides | backend/app/providers/schema.py:56-101 | at every depth and through references, what the stronger reading accepts the weaker one accepts iff it is along the schema, unless the two take it for different alternatives of an anyOf |
| SchemaNames.StrictCompiledDecides | backend/app/providers/schema.py:56-132 | the same for what OpenAI and Anthropic may answer beyond the canonical schema; the direction that guarantees acceptance holds for every anyOf |
| SchemaNames.GeminiCompiledDecides | backend/app/providers/schema.py:56-132 | the same for what Gemini may reject although the canonical schema accepts it |
| SchemaNames.FlatIsUnmixed | backend/app/providers/schema.py:56-101 | alternatives without parts are never mixed up |
| SchemaInputs.RequiredOutsidePropertiesIsLost | backend/app/providers/schema.py:98-101 | an input: a required name that is no property |
| SchemaInputs.RequiredHiddenPropertyIsLost | backend/app/providers/schema.py:76-101 | an input: a required property called decimal_places |
| SchemaInputs.SiblingIsLost | backend/app/providers/schema.py:56-66 | an input: a minimum beside a reference |
| SchemaInputs.ConstIsChanged | backend/app/providers/schema.py:82-91 | an input: a constant with a key the compiler drops |
| SchemaInputs.ConstBesideEnumIsLost | backend/app/providers/schema.py:82-91 | an input: a const before an enum |
| SchemaInputs.HiddenPropertyIsRejected | backend/app/providers/schema.py:76-81 | an input: Gemini rejects a property called pattern that the canonical schema accepts |
| Rubric.ValidateDomain | backend/app/domain/rubric.py:90-140 | the error is that of a broken rule before which none is broken, in the validator's order; there is none iff no rule is broken |
| Rubric.Scores | backend/app/domain/rubric.py:110-122 | the collected scores are all on the step iff every score of the rubric is |
| Rubric.MaximaAdd | backend/app/domain/rubric.py:108-109 | the sum of maxima adds over lists of dimensions, one dimension counts its maximum, none counts 0 |
| Rubric.MaximumChangeShows | backend/app/domain/rubric.py:108-109 | raising one maximum by k raises the sum by exactly k |
| Rubric.CheckBands | backend/app/domain/rubric.py:125-139 | the scan with previous_max accepts exactly the contiguous band lists |
| Rubric.DistinctByCount | backend/app/domain/rubric.py:92-108 | comparing the size of the set with the length decides distinctness |
| Rubric.ValidateSql | backend/migrations/versions/20260716_0008_enforce_stage_six_rubric_contract.py:233-389 | the database accepts exactly the rubrics that meet the contract for the expected total and step |
| Rubric.CheckSqlDimensions | backend/migrations/versions/20260716_0008_enforce_stage_six_rubric_contract.py:258-361 | the dimension loop accepts exactly distinct, well-formed dimensions and totals their maxima |
| Rubric.CheckSqlBands | backend/migrations/versions/20260716_0008_enforce_stage_six_rubric_contract.py:303-349 | the database's band loop accepts exactly the contiguous bands on the step |
| Rubric.ValidatorsAgree | backend/app/domain/rubric.py:90-140 | the domain model accepts exactly what the database accepts and its own size and deduction rules allow |
| Rubric.ExactlyOneBand | backend/app/domain/rubric.py:125-139 | every multiple of the step within a dimension lies in exactly one band |
| Rubric.ContiguousIffPartition | backend/app/domain/rubric.py:125-139 | the accepted band lists are exactly the ascending ones that cover every step |
| Grades.ValidateGradeResponse | backend/app/grading/validator.py:133-187 | the error is that of a broken rule before which none is broken, the first bad quotation included; with none broken the totals are returned, or the exception that is no grade error |
| Grades.ValidateEvidence | backend/app/grading/validator.py:106-130 | the seen-set loop finds the first repeated, unknown or misquoted evidence |
| Grades.RequireExactIds | backend/app/grading/validator.py:88-103 | duplicates are reported before a mismatch of the id lists |
| Grades.CheckScores | backend/app/grading/validator.py:156-169 | accepts iff every score is within its dimension and on the step |
| Grades.NoEvidenceIssue | backend/app/grading/validator.py:106-130 | the evidence check passes iff every group quotes its blocks word for word without repetition |
| Grades.AcceptedMeans | backend/app/grading/validator.py:133-187 | a result is not rejected iff it grades exactly the rubric's items, in range and on the step, with real quotations |
| Grades.SubtotalAdds | backend/app/grading/totals.py:25-28 | the subtotal adds over lists of dimensions, one dimension counts its score, none counts 0 |
| Grades.ScoreChangeShows | backend/app/grading/totals.py:25-34 | raising one score by k raises the subtotal by exactly k, leaves the deductions alone, and the total is what they leave, never below zero |
| Grades.NothingApplied | backend/app/grading/totals.py:29-34 | without an applied deduction nothing is deducted |
| Grades.OneMoreApplied | backend/app/grading/totals.py:29-34 | applying one more deduction deducts exactly the points the rubric gives it |
| Grades.TotalsOfGraded | backend/app/grading/totals.py:19-39 | 0 <= total <= subtotal <= rubric total, total = max(0, subtotal - deductions), all on the step |
| Grades.DeductionBounds | backend/app/grading/totals.py:30-33 | deductions are on the step, and bounded only by their number times the rubric total |
| Grades.UnhandledExactlyWhenDeductionsOverflow | backend/app/domain/grading.py:166-171 | the totals do not fit exactly when the applied deductions need more than ten digits |
| Grades.DeductionsCanOverflow | backend/app/domain/grading.py:166-171 | a valid rubric and answer for which that happens |
| Grades.AssessGradeResponse | backend/app/grading/validator.py:190-226 | a prompt of another request is refused first; only a first call asks for a correction, only a second one goes to the teacher, and both carry the validator's issue |
| Workbook.ValidateResult | backend/app/export/xlsx.py:154-227 | an applied deduction unknown to the rubric is reported first, then any total, score or maximum that grading would not compute from the rows, and last a final export nobody confirmed |
| Workbook.RowWiseIsSetWise | backend/app/export/xlsx.py:200-207 | looking deductions up row by row sums to the same as the set of applied ids |
| Workbook.CriterionScores | backend/app/export/xlsx.py:198 | the dictionary of scores is a copy of the rows when ids are distinct |
| Workbook.SumOfDeductions | backend/app/export/xlsx.py:200-207 | fails exactly on an applied row whose id the rubric does not know |
| Workbook.AcceptedGradesExport | backend/app/export/xlsx.py:209-227 | a frozen accepted grade never reports a mismatch |
| ReviewEvidence.GroupEvidence | backend/app/reviews/service.py:247-263 | the dictionary of lists holds exactly the quotations of each target in order, or a target is unknown |
| ReviewEvidence.QuotesAdd | backend/app/reviews/service.py:247-263 | each target gets its quotations in the order listed, and no other target's |
| ReviewEvidence.ReviewEvidenceConserved | backend/app/reviews/service.py:265-287 | the graded form of a review carries every quotation exactly as often as the teacher listed it |
| ReviewEvidence.ValidatePayload | backend/app/reviews/service.py:233-326 | each answer has one condition, in the service's order: state, attempt, targets, fields, grade, totals; a reason is demanded iff grade or texts differ from the model's and none is given |
| ReviewEvidence.AcceptedReview | backend/app/reviews/service.py:233-326 | an accepted review is of the current attempt, quotes the document word for word, carries the rubric's totals, and gives a reason when it changes the model's grade |
| RubricLifecycle.AssignmentRubricRepository.constructor | backend/app/rubrics/repository.py:158-186 | a new assignment has one draft, version 1 |
| RubricLifecycle.AssignmentRubricRepository.CreateRubricDraft | backend/app/rubrics/repository.py:288-333 | a draft is added iff none exists, the assignment is live, and the step divides the total; it is empty and has the next version, and nothing else changes |
| RubricLifecycle.AssignmentRubricRepository.SaveGeneratedRubric | backend/app/rubrics/repository.py:345-397 | accepted iff version i is the draft of a live assignment, the rubric meets the contract with its total and step, and the provider is enabled and tested at the version and model that were asked; then the draft holds the rubric, the provider and the model |
| RubricLifecycle.AssignmentRubricRepository.UpdateStructuredRubric | backend/app/rubrics/repository.py:399-432 | accepted iff version i is a generated draft of a live assignment and the rubric meets the contract with its total and step; then the draft holds it, and nothing else changes |
| RubricLifecycle.AssignmentRubricRepository.ConfirmRubric | backend/app/rubrics/repository.py:434-507 | accepted iff the provider is ready and the draft was generated with it; every flush passes, the draft is confirmed now as it stands, its predecessor is history, and the assignment is ready |
| RubricLifecycle.AssignmentRubricRepository.UpdateAssignmentStatus | backend/app/rubrics/repository.py:250-286 | archiving always succeeds; restoring takes an archived assignment and makes it ready iff it has a confirmed version; no version changes |
| RubricFlushes.FlushesKeep | backend/migrations/versions/20260716_0008_enforce_stage_six_rubric_contract.py:94-203 | whatever is flushed in whatever order, an accepted transaction leaves one draft and one confirmed version at most, all CHECKs met, no ready assignment without a confirmed version, and confirmed content as it was |
| RubricFlushes.FlushOrderMatters | backend/migrations/versions/20260716_0008_enforce_stage_six_rubric_contract.py:158-199 | of the 24 orders of the confirming flushes exactly the source's ends confirmed; every other is refused by a trigger or an index, or leaves the assignment a draft |
| RubricLifecycle.RunKeeps | backend/app/rubrics/repository.py:158-507 | versions are 1..n, one draft and one confirmed at most, ready iff confirmed, and confirmed content never changes |
| RubricLifecycle.VersionsCarryLastAccepted | backend/app/rubrics/repository.py:345-507 | in every run each version, confirmed ones included, carries the rubric of the last save or edit of it that was accepted |
| RubricLifecycle.JobRubricIsFixed | backend/migrations/versions/20260716_0008_enforce_stage_six_rubric_contract.py:478-506 | the rubric a job was created with keeps its content and meets the contract |
| ObjectStore.ObjectStorage.PutFileOnce | backend/app/storage/supabase.py:320-379 | a new file is created, one with the same hash is found, and every error has one condition, in the order tested; an object is never replaced; the quota reservation ends committed iff it succeeds, else uncertain or as it was |
| ObjectStore.ObjectStorage.PutJsonOnce | backend/app/storage/supabase.py:286-318 | creating and replaying the same bytes succeed, other bytes are refused, every other error has one condition, and the reservation ends as above |
| ObjectStore.ObjectStorage.DeleteIfSha256 | backend/app/storage/supabase.py:381-408 | removes an object iff it is read and its hash is the expected one and the request arrives; the answer says which of these failed |
| ExportRunner.ExportTable.ClaimExport | backend/migrations/versions/20260722_0017_build_stage_twelve_exports.py:388-461 | a lease of 30 to 900 seconds is given iff the export is queued, or its lease is over with a claim left and another token asks; a fourth claim fails it, a repeated token raises, anything else changes nothing |
| ExportRunner.ExportTable.CompleteExport | backend/migrations/versions/20260722_0017_build_stage_twelve_exports.py:464-509 | completes iff name, size and hash are well-formed and the lease is current and unexpired |
| ExportRunner.ExportTable.FailExport | backend/migrations/versions/20260722_0017_build_stage_twelve_exports.py:512-546 | fails only for the current, unexpired lease |
| ExportRunner.ExportRunner.ClaimLease | backend/app/export/tasks.py:37-45 | the lease is taken iff the row can be claimed; otherwise the message is retried when the current lease ends, or dropped |
| ExportRunner.ExportRunner.FailTimedOut | backend/app/export/tasks.py:47-57 | a timed-out build of a claimable export fails it if the lease is still current, and never completes one |
| ExportRunner.ExportRunner.Run | backend/app/export/tasks.py:59-119 | a claimable export that is built, stored and completed in time is completed with its object and hash; every other world has exactly one result, row and object; a run removes only its own object, after its own fail |
| ExportRunner.ExportOnceMeaning | backend/app/export/tasks.py:59-119 | the result of a message, the row and the object it leaves, each by one condition on the world |
| ExportProtocol.StepSafe | backend/app/export/tasks.py:59-119 | every request of every runner, late ones included, keeps the invariant; objects are never replaced |
| ExportProtocol.CompletedObjectStays | backend/app/export/tasks.py:83-113 | in every interleaving a completed export's object is present with the recorded hash for ever |
| ExportProtocol.RemovalOnlyAfterFail | backend/app/export/tasks.py:99-111 | an object disappears only after the lease holder's own fail_export |
| ExportProtocol.TerminalAndBounded | backend/migrations/versions/20260722_0017_build_stage_twelve_exports.py:388-461 | completed and failed are final, and no export is claimed more than three times |
| ExportProtocol.OnlyTheHolderEnds | backend/migrations/versions/20260722_0017_build_stage_twelve_exports.py:388-546 | a running export ends only by the holder of its current, unexpired lease, or by a fourth claim |
| ExportRefinement.RunnerIsRun | backend/app/export/tasks.py:59-119 | whatever one message does to the row and the object, with any fault, is a run of one worker of the interleaved model |
| CanonicalDecimal.StripText | backend/app/domain/grading.py:177-181 | stripping zeros and the point leads to the text of the normal form |
| CanonicalDecimal.SameTextIffSameValue | backend/app/domain/grading.py:177-181 | two decimals have the same text iff they are numerically equal, whatever exponent, padding or zero sign |
| CanonicalDecimal.TextParsesBack | backend/app/domain/grading.py:177-181 | the text parses back to the value |
| CanonicalDecimal.MatchesIffSameMeaning | backend/app/domain/grading.py:174-192 | any two values have the same canonical tree iff they mean the same |
| CanonicalJson.QuoteIsPrefixCode | backend/app/domain/grading.py:195-205 | a quoted string can be read in one way only, whatever it contains and whatever follows |
| CanonicalJson.PrintIsPrefixCode | backend/app/domain/grading.py:195-205 | the compact JSON text with sorted keys determines the value, and where it ends |
| CanonicalJson.SameJsonIffSameMeaning | backend/app/reviews/service.py:328-344 | a stored draft matches a submitted one iff they mean the same: exponents, padding, zero signs and key order never show, any other difference always does |
| BackupEnvelope.ParseInvertsPrint | backend/app/maintenance/backup.py:232-242 | header parsing inverts header printing for every legal key id, whatever follows |
| BackupEnvelope.PrintInvertsParse | backend/app/maintenance/backup.py:281-305 | a header that parses is the printed one |
| BackupEnvelope.ChunksDoNotShow | backend/app/maintenance/backup.py:260-265 | chunk boundaries do not show in the ciphertext or the plaintext |
| BackupEnvelope.RoundTrip | backend/app/maintenance/backup.py:244-332 | decrypting under the same key and id gives back every byte |
| BackupEnvelope.OnlyEnvelopesOpen | backend/app/maintenance/backup.py:268-332 | a file opens iff it is the envelope of its plaintext under some nonce |
| BackupEnvelope.OtherIdentityRefused | backend/app/maintenance/backup.py:302-303 | another backup id or key id is refused |
| BackupEnvelope.TamperingRefused | backend/app/maintenance/backup.py:268-332 | after an honest header the last 16 bytes must be the tag of header and body; another version or magic is refused as such |
| BackupFiles.BackupFileCipher.EncryptFile | backend/app/maintenance/backup.py:244-266 | for every chunk size the new file is the envelope of the source, or on a full disk its beginning; a missing source or an existing file is reported and nothing changes |
| BackupFiles.BackupFileCipher.DecryptFile | backend/app/maintenance/backup.py:268-332 | the loop consumes exactly size minus header minus tag bytes; on any error, a full disk included, the disk is as before |
| SubmissionUpload.SettlesUnlessUnprotected | backend/app/submissions/service.py:222-287 | an upload ends ready with its text, or failed without, and no transition is refused, iff no unprotected cancellation strikes |
| SubmissionUpload.FaultsAreNamed | backend/app/submissions/service.py:222-287 | a failed upload is stored under the code of what went wrong, the source is there iff its write took effect, and nothing is done for an assignment that is not ready |
| SubmissionUpload.ProtectedFaultsAreRetryable | backend/app/submissions/service.py:289-314 | after every other fault the same file can be uploaded again and becomes ready |
| SubmissionUpload.UnprotectedIsStuck | backend/app/submissions/service.py:306-314 | after an unprotected cancellation no later upload changes anything |
| SubmissionUpload.ProtectedRunsSettle | backend/app/submissions/service.py:185-287 | any number of uploads with protected faults settles |
| SubmissionUpload.SubmissionService.Reserve | backend/app/submissions/service.py:199-220 | processing goes on iff the row is new or a failed one was reset |
| SubmissionUpload.SubmissionService.Process | backend/app/submissions/service.py:222-287 | the protected part ends as the fault table says |
| SubmissionUpload.SubmissionService.UploadSubmission | backend/app/submissions/service.py:185-287 | the saga leaves exactly the state the fault table gives; it is refused, a duplicate or accepted by the assignment, the row and the end state |

## Left out

- GradingRepository.GradingJobRepository.PrepareItem: does not model whether submission and rubric are still ready and whether snapshots hash correctly; those errors leave the rows alone.
- Usage, cost and result columns of attempts, `validate_tiers`, `estimate_cost` and `raise_for_provider_status`: computed from the response, without effect on the protocol.
- `create_or_get_job`: its idempotency key, and its tests on assignment, rubric and papers; creation itself is a step with any number of items.
- `expire_stale_attempts`: the order and limit of the candidate query; the candidates are an arbitrary list.
- A storage error between the provider call and the finishing transaction: the worker then raises, which the step system covers as a crash.
- GradingRunner.GradingAttemptRunner.Run: runs alone, from prepare to finish; what others do between its steps is the subject of the step system.
- ExportRunner.ExportRunner.Run: runs alone; interleavings are the subject of `ExportProtocol`, and `ExportRefinement` ties the two.
- ExportProtocol.CompletedObjectStays: speaks of one export and its object key; other exports use other keys.
- SubmissionUpload.SubmissionService.UploadSubmission: one uploader and one fault per upload; interleaved uploads of one paper are not covered, because the row is failed before the text is deleted.
- SubmissionUpload.SubmissionService.Reserve: one uploader and one fault, as above.
- SubmissionUpload.SubmissionService.Process: one uploader and one fault, as above.
- Rubric.ValidateDomain: covers amounts and identifiers; descriptions, labels and evidence requirements are not modelled.
- Rubric.ValidateSql: covers amounts and identifiers; JSON types, texts and evidence fields are not modelled.
- Rubric.ValidatorsAgree: agreement on amounts and identifiers; names are compared in one normalised form although the two validators lower the case differently.
- Grades.ValidateGradeResponse: reasons, suggestions, feedback language and the pattern of block ids are not modelled; `_first_validation_path` is not part of this model.
- Workbook.ValidateResult: text cells, evidence lists and the decimal syntax of stored scores are not modelled; nor is writing the workbook.
- ReviewEvidence.ValidatePayload: the texts of a review are compared with the model's, but their own rules (language, length) are not modelled.
- ReviewEvidence.AcceptedReview: says nothing about the rules for texts, as above.
- GradingConfirmation.ConfirmAllIff: that the named revisions are drafts with a valid payload is not modelled; a review is its item's position.
- SchemaMeaning.ProjectionMeaning: speaks of regular schemas, as described above; equality of instances is structural, so the keys of an object count in their order, which canonical JSON fixes.
- SchemaLosses.RequiredLostIff: the root may lack other losses only; `SchemaLosses.RequiredLoses` needs no such assumption.
- SchemaNames.StrictCompiledDecides: where an anyOf is accepted through different alternatives by the two readings, only the direction that guarantees acceptance is stated.
- CanonicalJson.SameJsonIffSameMeaning: no floating-point numbers, and the text is not yet encoded in UTF-8; texts are sequences of Unicode scalar values.
- BackupEnvelope.RoundTrip: AES, GHASH and the key stream are abstract, bytes are integers below 256; unforgeability of the tag is not modelled.
- ObjectStore.ObjectStorage.DeleteIfSha256: hash check and DELETE are one step here; `ExportProtocol` separates them.
- ExportRunner.ExportTable.CompleteExport: the test on the object key is left out; the runner always passes the key of its own export.
- SHA-256 is an arbitrary function; the stores compare its values only.
- Row-level security, roles, leases of maintenance jobs, retention and quota functions of migration 0018, account invitations, HTTP adapters, URL policy, document parsing, routes and the frontend: other subjects.
