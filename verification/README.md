# What holds of the agent operating system, proved in Dafny

This project models the parts of the agent operating system that are algorithms or
protocols, and proves what they are for. Everything is in Dafny 4.11;
`dafny verify dfyconfig.toml` checks it. Nothing here runs the original program.

The modules follow the program's own components:

- **Missions.** `Locks` is the owner-and-expiry mutex, `Scheduler` the service one worker
  runs (due, claim, fire, tick), `ClaimProtocol` the same claim taken apart into atomic
  steps of any number of workers that interleave and crash, `Passes` how the steps of one
  worker make up a tick.
- **Workflows.** `Planning` is the stage planner, `WorkflowGraph` one step of the run
  state machine with outcomes, gate verdicts and human decisions as inputs,
  `WorkflowRuns` whole runs of distinct stages, `Engine` the engine that starts, pauses and
  resumes runs, `EngineSafety` what every sequence of engine calls keeps. `Ways` is the way
  through a stage list, repeats included, and how far the engine's 200 steps to a call serve
  it, `Sessions` a run over all its calls, `Endings` when runs end, `Retries` when they fail,
  `GateVerdicts` when a NO-GO holds.
- **Storage.** `Keys` prints and parses storage keys, `Relational` is the database's
  view of one write, `Migration` the order and the fixpoint of the start-up migration,
  `MigrationPass` one pass of it and its count, `Repository` the repository class, `Schema`
  the collections as they are declared, `DocumentStore` the in-memory map and the refinement
  between the two.
- **Memory.** `Memory` is the entry, `Tags` the tags of a merged one, `Words` the words of a
  text, `Topics` the topic of a statement, `Facts` versioned facts, `Consolidation` forgetting
  and merging, `Levelling` when one pass of merging is enough, `TfIdf` the ranking.
- **Patches.** `UnifiedDiff` applies parsed hunks, `PatchText` reads and prints their text
  (the "Diff -u or -U Output Format" of the `diff` utility, POSIX.1-2017), `Text` holds
  decimal numerals and white space.
- **Smaller cores.** `Messaging`, `SkillRegistry`, `CircuitBreakers`, `Performance`,
  `ToolLoop`, `Rollback`, `Budgets`; `Sequences` and `Wrappers` are shared by all.

The source's mutable objects are classes whose methods are proved against specification
functions; the statements about whole runs are lemmas about those functions. Clocks,
model replies, tool results, human decisions, the logarithm, the square root and
rounding are parameters. Each is only assumed to do what its predicate says: the clock
does not run back, `IsLog`, `IsRising`, `IsRoot`, `IsNearest`.

## Where the code and its documentation differ

The model follows the code. Each of these has a lemma with the exact condition or an input.

- `fire` writes back the object it claimed, without a lock and without comparing. Every claim
  that can come next keeps the promise exactly when the recorded claim is still the latest,
  or the schedule cannot be claimed any more; when another claim came in between, the next one
  gets a run count that was given out before (`NextClaimKeepsPromiseIffStillLatest`).
- A lock may expire while its holder is still to save its claim. When that worker and another
  one both find the schedule due, both claim it under one run count
  (`ExpiryInsideRepeatsAClaim`); an expiry after the save does no harm. The claim theorem has
  as its hypothesis that locks expire with nobody before the save, and that launches are
  recorded while their claim is the latest.
- `build_workflow` takes an explicit stage list as it is, repeats included. A run can then be
  resumed for ever exactly when its way goes round with an approval stage at least every 199
  stages (`EndsExactlyWithoutGoingRound`, `EndsUnlessAnApprovalComesRound`); every other run
  ends, at the limit of 200 steps to a call if need be. There fails, when all goes well, the
  run of a list with a repeated stage and no approvals (`WithoutApprovalsTheFirstCallEnds`).
- NO-GO keeps build stages from running exactly when none is met, and served, on the way behind
  the gate (`NoGoHoldsExactlyWhenNothingIsBuilt`): with up to 100 distinct stages, when
  `report` is planned after all of them (`NoGoHoldsExactlyWhenReportComesAfterBuild`); a repeated stage can
  lead back to them even then (`RepeatsCanUndoNoGo`).
- `approve` resumes a run with the answer it was given and does not compare it with the
  stored decision; exactly the agreeing answers are sound
  (`ApproveIsSoundExactlyWhenItAgrees`).
- `put` of the relational store takes key columns that are also references from the
  document, `get` from the key; and an empty typed document reads as missing
  (`PutIsReadBackExactlyWhenWellKeyed`, `GetAgreesExceptOnEmptyDocuments`). A key field
  with a colon in it does not come back (`PrintIsUndoneOnlyForCleanFields`).
- The patch reader takes the second range of a header for an index into the old file; it
  reads the intended hunks exactly when earlier hunks move nothing
  (`StandardDiffReadExactlyWhenNothingMoves`). A moved hunk may be refused
  (`MovedHunkIsRefused`), but it may also fit and change the file in the wrong place, which the
  documentation rules out (`MovedHunkLandsElsewhere`).
- Refreshing a fact does not clamp its importance
  (`ImportanceStaysInRangeExactlyUnlessARefreshExceedsIt`).
- Duplicates of equal importance are never merged, and one pass may leave duplicates of
  unequal importance (`MergePassKeepsEveryGroup`, `UnequalDuplicatesMayRemain`). It leaves none
  when in every group the most important outweigh the others, in particular when the first is
  the most important; with at most two importances in a group that is exact
  (`OutweighedGroupsAreLevelled`, `TwoImportancesAreLevelledExactlyWhenOutweighed`).
- The comment on the model breaker says a failure after the cooldown opens it again; that
  is so only with a threshold of 1 (`FailureAfterCooldown`).
- The performance window called "all" starts again every week (`StatsCoverOneBucket`); the
  monthly budget counter never does (`MonthCounterNeverResets`).
- A scope's limits are never passed exactly when every usage charged to it was approved under
  it (`NeverPassedExactlyWhenApproved`); a usage of a project is not checked against the global
  limit, which is kept exactly when every such usage would also have been approved globally
  (`GlobalLimitKeptExactlyWhenAlsoApprovedGlobally`, `GlobalLimitCanBePassed`).
- A tool call that failed keeps a run unverified whatever the repairs do
  (`FailedCallsStayFailed`). The guard against contentless answers is not repeated after a
  repair: a repaired run ends without content exactly when its last answer has no text
  (`RepairedContentIsTheLastAnswer`, `RepairsMayEmptyTheContent`).
- Rolling back a write deletes the file also when it existed before
  (`WriteAndRollBack`); a compensation that refuses or looks for another file counts as done,
  and the file is gone exactly when the record leads back to it and the compensation does not
  refuse it (`WriteIsGoneExactlyWhenTraceable`, `TraceableExactlyWhenPlain`); repeating a rollback is a no-op only under a
  condition (`RepeatIsNoOpExactly`).

## Model

| member | source | states |
|---|---|---|
| `Locks.SecondWinNeedsReleaseOrExpiry` | agentos/db/locks.py:110-129 | mutual exclusion: between two wins of one key, whatever the requests in between, the winner's name released it or its time to live ran out |
| `Locks.HoldPersists` | agentos/db/locks.py:110-129 | a won lock stays with its owner and expiry until released by that owner or expired |
| `Locks.AnswersFollowTheHistory` | agentos/db/locks.py:86-129 | from an empty table: an acquire wins if and only if no earlier win of the key is unexpired and not given back, a query says locked if and only if one is, and a release is granted to its holder |
| `Locks.LockManager.AcquireLock` | agentos/db/locks.py:68-76 | wins exactly when nobody holds the key; only that key's hold changes |
| `Locks.LockManager.ReleaseLock` | agentos/db/locks.py:78-84 | frees the key exactly for its owner |
| `Locks.LockManager.IsLocked` | agentos/db/locks.py:86-97 | true exactly while a hold has not expired |
| `Scheduler.LockKeysDistinct` | agentos/orchestration/scheduler.py:133-169 | different schedules use different lock keys |
| `Scheduler.SchedulerService.ListDue` | agentos/orchestration/scheduler.py:120-131 | exactly the enabled schedules whose time has come and whose runs are not used up |
| `Scheduler.SchedulerService.TryClaim` | agentos/orchestration/scheduler.py:133-169 | one turn under the lock claims exactly a claimable schedule, and leaves every lock as it was |
| `Scheduler.SchedulerService.ClaimDue` | agentos/orchestration/scheduler.py:133-169 | the store is the old one with exactly the claimable schedules claimed, each once: one more run counted, the next an interval after the claim, and disabled exactly when no run is left |
| `Scheduler.ClaimLeaves` | agentos/orchestration/scheduler.py:157-164 | what a claim stores: one more run, the next an interval away, enabled exactly while runs are left, all else as before |
| `Scheduler.FiredLeaves` | agentos/orchestration/scheduler.py:184-205 | what recording a launch keeps of the claim and what it sets |
| `Scheduler.LaunchedIsDueAgain` | agentos/orchestration/scheduler.py:120-209 | after a tick launched it, a schedule is due again if and only if a run is left and an interval has passed since the claim, or since the failure |
| `Scheduler.ListedAfterTick` | agentos/orchestration/scheduler.py:120-229 | which schedules are listed at any instant after a tick |
| `Scheduler.ClaimedAsOftenAsRunsAreLeft` | agentos/orchestration/scheduler.py:133-169 | a schedule can be claimed at given instants if and only if they are an interval apart and no more than its runs left, for ever when these are not limited |
| `Scheduler.SchedulerService.Fire` | agentos/orchestration/scheduler.py:174-209 | the claimed copy with the outcome is written over the stored schedule, also when saving or publishing fails after a good launch |
| `Scheduler.SchedulerService.Tick` | agentos/orchestration/scheduler.py:211-229 | one worker's pass launches every claim exactly once and loses no claim |
| `Passes.PassIsATick` | agentos/orchestration/scheduler.py:133-229 | the steps of one worker with nobody in between are a tick of the scheduler: exactly the due schedules with a free lock are claimed and launched, each once, locks are as before, each claim is logged and the worker is idle again |
| `Passes.CrashForgetsClaims` | agentos/orchestration/scheduler.py:174-229 | a worker that crashes and comes back launches none of its earlier claims; schedules, locks and the log stay |
| `ClaimProtocol.ClaimsAreSequential` | agentos/orchestration/scheduler.py:133-209 | any number of workers, any interleaving, any crashes, as long as locks expire with nobody inside and launches are recorded while their claim is the latest: claims of a schedule are numbered consecutively, at least an interval apart, never more than max_runs; every launch is of a logged claim, none twice |
| `ClaimProtocol.RunKeepsInv` | agentos/orchestration/scheduler.py:133-209 | under the same two conditions, store, locks, workers and the log of claims stay consistent at every step |
| `ClaimProtocol.OneWorkerPerSection` | agentos/orchestration/scheduler.py:146-168 | never two workers between taking the lock of one schedule and saving a claim of it, as long as locks expire with nobody there, whatever launches are recorded |
| `ClaimProtocol.RecordIsSafeIffStillLatest` | agentos/orchestration/scheduler.py:189-203 | the write that records a launch keeps the invariant exactly when the stored run count is still the claimed one and a failure is not dated before the claim |
| `ClaimProtocol.ExpiryIsSafeIffNobodyIsInside` | agentos/db/locks.py:110-119 | the expiry of a lock keeps the invariant, which asks whoever may still save a claim to hold its lock, if and only if nobody is between taking the lock and that save |
| `ClaimProtocol.StepKeepsInvIffHarmless` | agentos/orchestration/scheduler.py:133-209 | of all steps only an expiry before the save and a late record break that invariant, and each of them does |
| `ClaimProtocol.InvHoldsThroughoutIffHarmless` | agentos/orchestration/scheduler.py:133-209 | over any run that invariant holds throughout if and only if no lock expired before the save and no launch was recorded late |
| `ClaimProtocol.NextClaimKeepsPromiseIffStillLatest` | agentos/orchestration/scheduler.py:189-203 | in every consistent state: after a launch is recorded, every next claim keeps the promise if and only if the recorded claim is still the latest (a failure not dated before it) or the schedule cannot be claimed again; and the next run count was given out before if and only if another claim came in between |
| `ClaimProtocol.ExpiryInsideRepeatsAClaim` | agentos/orchestration/scheduler.py:146-168 | in every consistent state: when the lock of a worker that finds the schedule due expires before its save, an idle worker that finds it due too claims it, and both claims carry one run count |
| `Planning.PlanStages` | agentos/planning.py:95-112 | the planned ids are distinct, begin with understanding, and are exactly those two and the stages of the marker, of all templates or of the keyword choice; a marker without report puts it last |
| `Planning.PlanKeepsOrder` | agentos/planning.py:101-112 | the planned stages stand in the order of their first occurrences in that list |
| `Planning.WithoutKeepsOrder` | agentos/planning.py:104-106 | what is not dropped stays in its order, as often as it was there |
| `Planning.BuildWorkflow` | agentos/planning.py:114-144 | the linear chain over the chosen stages, or exactly the unknown ones |
| `Planning.ChainLinksInOrder` | agentos/planning.py:123-134 | every stage takes what it does from its template and leads to the next, the last to none |
| `WorkflowGraph.TickOutcomes` | agentos/orchestration/graph.py:133-267 | the cases a step of an underway run comes to; it fails the run if and only if a stage crashed with no retry left or a decision was no approval |
| `WorkflowGraph.CrashedStep` | agentos/orchestration/graph.py:207-226 | a crashed stage is tried again where the run stands while retries are left, and fails the run when none is |
| `WorkflowGraph.DoneStep` | agentos/orchestration/graph.py:228-267 | a stage that succeeds pauses the run for its approval, or leads to the next stage or by the gate to the report, or completes the run |
| `WorkflowGraph.DecidedStep` | agentos/orchestration/graph.py:145-182 | a decision settles the paused stage and executes nothing: on behind it, completed, or failed |
| `WorkflowGraph.TickMakesProgress` | agentos/orchestration/graph.py:133-267 | every step ends the run or lowers a measure of gate, stages left, retries left and pause |
| `WorkflowRuns.DistinctStagesEnd` | agentos/orchestration/graph.py:133-297 | with distinct stages every run ends within 4n + retries + 1 steps, for all outcomes, verdicts and decisions, without any limit |
| `WorkflowRuns.CrashedStageIsExecutedAgain` | agentos/orchestration/graph.py:207-220 | after a crash, with fewer crashes so far than retries, the run goes on and executes that stage next |
| `WorkflowRuns.FailsExactlyWhenRejectedOrCrashedTooOften` | agentos/orchestration/graph.py:133-267 | a run of any stage list that has ended failed if and only if it was rejected or had one crash more than there are retries |
| `WorkflowRuns.DistinctStagesComplete` | agentos/orchestration/graph.py:133-267 | with distinct stages, every approval given and no more crashes than retries, the run is completed |
| `Retries.SessionFailsExactlyWhenRejectedOrCrashedTooOften` | agentos/orchestration/engine.py:256-340 | over the engine's calls, for distinct stages within the limit: a run that has ended failed if and only if it was rejected or its history holds one crash more than there are retries |
| `Endings.EndsExactlyWithoutGoingRound` | agentos/orchestration/engine.py:256-340 | over the engine's calls, for every stage list: all runs whose approvals are decided end if and only if on neither verdict the way goes round with approvals at most 200 steps apart |
| `Endings.EndsUnlessAnApprovalComesRound` | agentos/orchestration/engine.py:759-770 | a list in which no approval stage is met again on its way always ends; a list of up to 99 stages always ends if and only if none is |
| `Endings.DistinctStagesAlwaysEnd` | agentos/planning.py:95-112 | with distinct stages, as the planner chooses them, every run ends over its calls |
| `Endings.WithoutApprovalsTheFirstCallEnds` | agentos/orchestration/engine.py:759-770 | without approval stages the first call ends every run; with a repeated stage the run in which all goes well fails at the limit |
| `Ways.ServedForEverExactlyWhenGoingRound` | agentos/orchestration/graph.py:133-267 | whether all of a way is served shows on a part of it that is no longer than twice the list and one call |
| `Sessions.SessionStaysOnWay` | agentos/orchestration/engine.py:256-340 | whatever the world answers: between two calls a run has ended or waits at an approval stage that is served on its way, further on with every call, and it executed nothing after the verdict that is not |
| `Sessions.ServedIsExecuted` | agentos/orchestration/engine.py:256-340 | when all goes well, the run executes every stage that is served on its way |
| `GateVerdicts.NoGoHoldsExactlyWhenNothingIsBuilt` | agentos/orchestration/graph.py:27-42 | over the engine's calls, for every stage list: no run executes a build stage after NO-GO if and only if none is met on the way behind the gate, from report if that is planned, before a call meets the limit |
| `GateVerdicts.NoGoHoldsExactlyWhenReportComesAfterBuild` | agentos/orchestration/graph.py:27-42 | for up to 100 distinct stages, when the gate is asked at all: no build stage runs after NO-GO in any run if and only if report is planned after every build stage |
| `GateVerdicts.RepeatsCanUndoNoGo` | agentos/planning.py:114-144 | a list with a repeated stage and report after all build stages, of which a run executes a build stage after NO-GO |
| `Ways.RepeatsGoRound` | agentos/planning.py:114-144 | with a repeated stage and GO, the way never gets past the repeat |
| `Engine.OrchestratorEngine.Invoke` | agentos/orchestration/engine.py:759-770 | one invocation steps until the run pauses, ends, crashes or meets the recursion limit |
| `Engine.OrchestratorEngine.RunWorkflow` | agentos/orchestration/engine.py:263-275 | starts a run from the workflow's entry |
| `Engine.OrchestratorEngine.ResumeRun` | agentos/orchestration/engine.py:277-301 | re-enters a paused run with the decision |
| `Engine.OrchestratorEngine.Approve` | agentos/orchestration/engine.py:324-340 | stores a pending decision, then resumes the run paused on it with the answer given |
| `EngineSafety.ApprovalsGateEveryRun` | agentos/orchestration/engine.py:256-340 | over any sequence of starts and approves from an empty engine, whatever the answers: no stage executes behind an approval that is not stored as approved, and a completed run has a completed result for every executed stage |
| `EngineSafety.AgreeingAnswersGateEveryRun` | agentos/orchestration/engine.py:256-340 | the same with decisions stored behind the engine's back, as long as an answer that resumes a run agrees with what is stored |
| `EngineSafety.InvokeIsSound` | agentos/orchestration/graph.py:133-297 | an invocation of a sound run stops in a sound run |
| `EngineSafety.ApproveIsSoundExactlyWhenItAgrees` | agentos/orchestration/engine.py:324-340 | for a planner-built run paused on an approval, approve keeps it sound if and only if the answer agrees with what is stored |
| `EngineSafety.ApproveStoresTheDecision` | agentos/orchestration/engine.py:324-340 | a pending approval gets the decision whether or not a run waits for it, every other stored status and every other run stays, and an unknown approval or decision changes nothing |
| `EngineSafety.RecursionLimitNeverMatters` | agentos/orchestration/engine.py:759-770 | a workflow of distinct stages within the bound never meets the recursion limit |
| `Keys.JoinUndoesSplit` | agentos/db/store.py:106-115 | every key is the join of its parts, so parsing is injective |
| `Keys.ParseInvertsPrint` | agentos/db/relational.py:388-393 | a key parses to colon-free parts exactly when it is their join |
| `Keys.PrintIsUndoneOnlyForCleanFields` | agentos/db/store.py:106-115 | printing is undone by parsing if and only if no field holds a colon |
| `Relational.UpsertKeepsIntegrity` | agentos/db/relational.py:356-385 | an accepted upsert keeps every foreign key satisfied |
| `Relational.PutIsDoneExactly` | agentos/db/relational.py:264-274 | a typed put is done if and only if its key parses, its key columns are named and every reference names a stored row or the row itself, whether or not the key is stored |
| `Relational.DeleteKeepsIntegrity` | agentos/db/relational.py:289-305 | deleting a row nothing refers to keeps every foreign key satisfied |
| `Relational.Select` | agentos/db/relational.py:307-323 | the documents that match the predicate, each as often as it is stored |
| `Migration.TargetsOf` | agentos/db/relational.py:396-411 | the collections another one refers to |
| `Migration.MigrationOrder` | agentos/db/relational.py:396-411 | every collection exactly once; every referenced collection first if and only if the references have no cycle |
| `Migration.ParentsFirstIsAcyclic` | agentos/db/relational.py:396-411 | an order with parents first shows that there is no cycle |
| `Migration.RowKeepsProgress` | agentos/db/relational.py:217-261 | migrating one row keeps what the pass has achieved in the collection |
| `Migration.SecondPassChangesNothing` | agentos/db/relational.py:217-261 | a pass over a migrated store changes nothing |
| `Migration.MigratedRowsAreDetermined` | agentos/db/relational.py:217-261 | the least fixpoint is unique: any two results hold the same rows |
| `Schema.SchemaIsAcyclicAndWellFormed` | agentos/db/relational.py:73-119 | the declared collections have no reference cycle and name only single-key tables |
| `Repository.RelationalRepository.Put` | agentos/db/relational.py:264-274 | the effect of a put, refusals included; integrity is kept |
| `Repository.RelationalRepository.Get` | agentos/db/relational.py:276-287 | the answer of a get, unparsable keys and empty documents included |
| `Repository.RelationalRepository.Delete` | agentos/db/relational.py:289-305 | the effect of a delete, refused while the row is referred to; integrity is kept |
| `Repository.RelationalRepository.Query` | agentos/db/relational.py:307-323 | the matching documents of a typed or an untyped collection |
| `Repository.RelationalRepository.MigrateRow` | agentos/db/relational.py:226-258 | one legacy row is inserted unless its key is taken or a reference fails; integrity holds after every row |
| `Repository.RelationalRepository.MigrateFromDocs` | agentos/db/relational.py:217-261 | one pass reaches the least fixpoint on an acyclic schema: exactly the satisfiable rows, existing rows win; the number returned counts legacy rows that are there, all that were there before, and one for every new row |
| `Migration.CountedArePresent` | agentos/db/relational.py:217-261 | the count is that of the legacy rows that are there afterwards, if no two of them go to one typed key, and whenever the pass had nothing to do |
| `DocumentStore.MemoryRepository.Put` | agentos/db/memory.py:16-17 | the document is the only change |
| `DocumentStore.MemoryRepository.Get` | agentos/db/memory.py:19-20 | the stored document or none |
| `DocumentStore.MemoryRepository.Delete` | agentos/db/memory.py:22-23 | the removed document is the only change |
| `DocumentStore.MemoryRepository.Query` | agentos/db/memory.py:25-29 | the matching documents, each as often as it is stored |
| `DocumentStore.RelationalRefinesMap` | agentos/db/relational.py:264-305 | any sequence of writes with well-formed keys keeps the relational store in step with the document map, which itself says which writes are refused |
| `DocumentStore.WriteIsDoneExactly` | agentos/db/relational.py:264-305 | said of the map alone: a put is done if and only if what it refers to is there, a delete if and only if no other document refers to the document |
| `DocumentStore.SecondPutReplaces` | agentos/db/relational.py:379-385 | a second put on a key, with its references present, is done and read back |
| `DocumentStore.AnswersAgree` | agentos/db/relational.py:264-326 | from empty repositories, after any such sequence, every query gives the map's answer, and every get does exactly unless it is of an empty typed document |
| `DocumentStore.GetAgreesExceptOnEmptyDocuments` | agentos/db/relational.py:276-287 | a get agrees with the map if and only if it is not of an empty typed document |
| `DocumentStore.PutIsReadBackExactlyWhenWellKeyed` | agentos/db/relational.py:356-385 | an accepted typed put is read back if and only if the document agrees with the key on shared columns and is not empty |
| `DocumentStore.SavedEntitiesAreWellKeyed` | agentos/db/store.py:79-80 | what the entity store saves, with colon-free non-empty key fields, is well keyed |
| `UnifiedDiff.ApplyEdits` | agentos/tools/builtin.py:567-578 | one hunk's edits succeed exactly when its lines are found, and give its new block |
| `UnifiedDiff.ApplyHunks` | agentos/tools/builtin.py:551-579 | succeeds exactly when every hunk finds each of its context and removed lines in the file, up to newlines at the end, behind the hunks before; the result replaces each block |
| `UnifiedDiff.AppliesExactlyWhenLinesAreFound` | agentos/tools/builtin.py:560-575 | the same said line by line, without the hunks' blocks |
| `UnifiedDiff.SameLineIsStripped` | agentos/tools/builtin.py:570 | two lines compare equal if and only if they differ in newlines at their ends alone |
| `UnifiedDiff.LinesLand` | agentos/tools/builtin.py:566-579 | every added line, and every context line as the file has it, is in the result where the lines before it have moved it |
| `UnifiedDiff.FitFromIsApplicable` | agentos/tools/builtin.py:560-575 | what the front-to-back walk accepts is what the hunks declare, independent of the walk |
| `UnifiedDiff.OnlyBlocksChange` | agentos/tools/builtin.py:551-579 | every new block and every line between the hunks is found in the result where earlier hunks moved it, and nothing else; the length changes by added minus removed |
| `UnifiedDiff.InverseRestoresExactly` | agentos/tools/builtin.py:551-579 | the inverse hunks in result coordinates always apply, and restore the original if and only if the removed lines were given exactly |
| `PatchText.ParseHunks` | agentos/tools/builtin.py:582-597 | one hunk for every header line with the marked lines up to the next, all other lines passed over |
| `PatchText.LinesAreReadByTheirMark` | agentos/tools/builtin.py:582-597 | which lines start a hunk, and where; which are edits, of what kind; all others are passed over |
| `PatchText.HeadersAreRecognisedExactly` | agentos/tools/builtin.py:588 | a line announces a hunk by number if and only if it has the form of a header, and then by the number of its second range |
| `PatchText.HunksAreGroupedByHeaders` | agentos/tools/builtin.py:582-597 | one hunk for each header, with exactly the edits up to the next header, whatever lines are between them |
| `PatchText.ApplyUnifiedDiff` | agentos/tools/builtin.py:551-597 | a patch text is refused exactly when one of its hunks does not find its lines |
| `PatchText.HeaderReadsBack` | agentos/tools/builtin.py:588 | the number read from a printed header is that of the second range |
| `PatchText.PrintedPatchReadsBack` | agentos/tools/builtin.py:582-597 | reading a printed unified diff gives its hunks, with the starts of the new file |
| `PatchText.StandardDiffReadExactlyWhenNothingMoves` | agentos/tools/builtin.py:588-592 | the hunks read are those meant if and only if none is moved by the hunks before it, or the off-by-ones cancel |
| `PatchText.MovedHunkIsRefused` | agentos/tools/builtin.py:588-592 | a diff that fits its file and is refused |
| `PatchText.MovedHunkLandsElsewhere` | agentos/tools/builtin.py:551-597 | a diff that fits its file, is accepted, and adds its line in the wrong place |
| `Topics.RestatementsShareATopic` | agentos/memory/store.py:78-96 | leading change words and everything from the next change word on do not matter to the topic |
| `Topics.TopicsAreEqualExactlyForOneSubject` | agentos/memory/store.py:78-96 | statements of one kind share a topic if and only if the first six words of their subjects are the same |
| `Topics.SubjectIsUnique` | agentos/memory/store.py:83-95 | every statement has one subject: its words between the leading change words and the next one, or its first four words |
| `Topics.ContradictsExactlyByAMarker` | agentos/memory/store.py:99-107 | a statement counts as contradicting if and only if one of the markers stands in it |
| `Words.RunsAreTheWords` | agentos/memory/store.py:31 | the words found in a text are the runs of letters and digits it is made of |
| `Words.EveryTextIsSpelled` | agentos/memory/store.py:31 | every text is made of such runs and what is between them |
| `Words.LongerKeepsCounts` | agentos/memory/store.py:34-36 | of the words exactly the long enough ones are kept, each as often as it occurs |
| `Topics.StatementsAboutOneSubjectShareATopic` | agentos/memory/store.py:78-96 | two statements of one kind about one subject have the same topic key |
| `Facts.MemoryStore.SaveFact` | agentos/memory/store.py:259-299 | the entries are the specified ones, links match the chains, and the returned fact is active with the content saved; a fact about a subject no active fact is about archives nothing and adds no link |
| `Facts.OnlyTheRelatedFactIsSuperseded` | agentos/memory/store.py:259-299 | a save refreshes, or archives and supersedes, only the active fact of its owner and kind about the same subject, and without one starts afresh |
| `Facts.RelationIsContradictingByAMarker` | agentos/memory/store.py:296-299 | a link says contradicting if and only if a marker stands in the new version |
| `Facts.MemoryStore.FindPrior` | agentos/memory/store.py:271-277 | the first active entry of the topic, and none only if there is none |
| `Facts.FoundActiveIsLatest` | agentos/memory/store.py:271-277 | among versioned entries, the active one that is found is the latest version |
| `Facts.OneActiveFactPerGroup` | agentos/memory/store.py:259-299 | over any saves a group has an active fact exactly when something was said about it; it is the only one and holds what was said last |
| `Facts.SavesStayVersioned` | agentos/memory/store.py:259-299 | every entry supersedes the version right before it, and exactly the outdated ones are archived |
| `Facts.ChainVisitsEveryOlderVersion` | agentos/memory/store.py:284-298 | the supersedes chain visits every older version once, from newest to oldest |
| `Facts.NothingIsLost` | agentos/memory/store.py:259-299 | every content ever saved is still there |
| `Facts.LinksMatchTheChains` | agentos/memory/store.py:296-309 | the links are exactly the steps of the chains, each once, with their relation |
| `Facts.ImportanceStaysInRangeExactlyUnlessARefreshExceedsIt` | agentos/memory/store.py:278-282 | over any sequence of saves importance stays in 1..5 if and only if none of them refreshes a fact and asks for more than 5 |
| `Consolidation.ArchiveStale` | agentos/memory/store.py:392-402 | exactly the expired and the stale entries are archived, and counted |
| `Consolidation.ArchivesExactlyTheStale` | agentos/memory/store.py:379-402 | an entry is archived by age if and only if it is active and has expired, or was last updated before the limit, is seldom read and of importance at most 3 |
| `Consolidation.MergeInto` | agentos/memory/store.py:408-423 | an entry goes into the first active, less important duplicate, if there is one |
| `Consolidation.DuplicatesExactlyOfSameContent` | agentos/memory/store.py:403-416 | two entries are duplicates if and only if they agree in owner, kind and, up to case and white space around it, content |
| `Consolidation.MergesIntoTheFirst` | agentos/memory/store.py:403-423 | the first less important active duplicate takes an entry in, with its importance and tags; the entry is archived and every other stays |
| `Consolidation.MergeDuplicates` | agentos/memory/store.py:403-423 | the pass over all entries, and the number of flags it flips |
| `Tags.SortedTagsAreSorted` | agentos/memory/store.py:416 | the tags of a merged entry are strictly rising in the order of texts |
| `Tags.SortedIsUnique` | agentos/memory/store.py:416 | there is only one such list of the same tags |
| `Consolidation.Consolidate` | agentos/memory/store.py:379-424 | no entry is removed, every group keeps its greatest importance and its tags, the counts are the flags flipped, and nothing is merged exactly when duplicates are equally important |
| `Consolidation.MergePassKeepsEveryGroup` | agentos/memory/store.py:403-423 | the pass keeps every group's greatest importance and tags, and is the identity if and only if all duplicates are equally important |
| `Consolidation.EveryGroupSurvives` | agentos/memory/store.py:403-423 | a group with an active entry keeps one at least as important |
| `Consolidation.FlipsCountsTheArchived` | agentos/memory/store.py:402-424 | the counts are numbers of entries that left the active set |
| `Consolidation.UnequalDuplicatesMayRemain` | agentos/memory/store.py:408-416 | three duplicates of which one pass leaves two of unequal importance |
| `Levelling.OutweighedGroupsAreLevelled` | agentos/memory/store.py:403-423 | for all entry lists: when the most important of each group outnumber the others at some point in store order, or in the end are no fewer, one pass leaves every group equally important |
| `Levelling.TwoImportancesAreLevelledExactlyWhenOutweighed` | agentos/memory/store.py:403-423 | while no group has three importances: one pass levels all groups if and only if the greater importance outweighs the other |
| `Levelling.FirstGreatestIsLevelled` | agentos/memory/store.py:403-423 | groups that begin with their most important entry are levelled by one pass |
| `Levelling.NeverGrowingIsLevelled` | agentos/memory/store.py:403-423 | groups whose importance never grows in store order are levelled by one pass |
| `Levelling.RisingImportancesAreLevelled` | agentos/memory/store.py:408-416 | three rising importances are levelled although the greatest is outnumbered |
| `TfIdf.CauchySchwarz` | agentos/memory/store.py:61-63 | the square of the dot product is at most the product of the squared norms, and equal to it if and only if the vectors are in one proportion |
| `TfIdf.LagrangesIdentity` | agentos/memory/store.py:61-63 | what it lacks is the sum of the squares of all gaps between two places |
| `TfIdf.TokensAreWordsAndNeighbours` | agentos/memory/store.py:34-38 | the tokens of a text are its words of more than two characters, in order, and then each two neighbours among them |
| `TfIdf.RarerTermsWeighMore` | agentos/memory/store.py:48-52 | a term weighs more than another if and only if fewer documents hold it, and weighs 1 if and only if all do |
| `TfIdf.IdfAtLeastOne` | agentos/memory/store.py:52 | every query term weighs at least 1 |
| `TfIdf.ScoreInRange` | agentos/memory/store.py:41-64 | every score is between 0 and 1, zero norms included |
| `TfIdf.ScoreIsPositiveExactlyOnASharedTerm` | agentos/memory/store.py:41-64 | a score is above 0 if and only if entry and query share a term |
| `TfIdf.ScoreIsOneExactlyWithSameShares` | agentos/memory/store.py:41-64 | a score is 1 if and only if the entry shares a term with the query and holds all its terms in the proportions of the query |
| `TfIdf.RarerTermRanksHigher` | agentos/memory/store.py:41-64 | of two entries that share one term each, equally frequent in the query, the one sharing the rarer term scores higher, and only that one |
| `TfIdf.Frequencies` | agentos/memory/store.py:48-51 | in how many documents each term occurs |
| `TfIdf.Weigh` | agentos/memory/store.py:56-60 | the summed weights of an entry's terms that the query asks for |
| `TfIdf.Rank` | agentos/memory/store.py:41-64 | the loops over tables compute the score of every entry |
| `TfIdf.RankTexts` | agentos/memory/store.py:34-64 | from texts: one score per entry, in range, positive exactly on a shared token; none for a query without tokens |
| `Messaging.MessageBus.Send` | agentos/messaging/inbox.py:22-43 | the message is stored with a fresh id, younger than all others |
| `Messaging.MessageBus.Respond` | agentos/messaging/inbox.py:59-70 | marks the original answered and sends the answer to its sender, on its project and task; an unknown id changes nothing |
| `Messaging.MessageBus.Thread` | agentos/messaging/inbox.py:72-83 | the walk ends, and gives the root and every direct or indirect reply exactly once, breadth first: the replies to each listed message, in turn |
| `Messaging.NextRepliesAreNew` | agentos/messaging/inbox.py:79-82 | no reply is met twice, because replies are younger than what they reply to |
| `SkillRegistry.ResolveDependencies` | agentos/registries/skill_registry.py:75-88 | ends on every graph; exactly the enabled skills reachable through enabled skills, each once |
| `SkillRegistry.ResolutionIsClosed` | agentos/registries/skill_registry.py:75-88 | resolving what was found finds the same skills |
| `CircuitBreakers.ToolBreaker.CircuitState` | agentos/tools/executor.py:95-110 | the state, and the probe it makes of the first call after the cooldown |
| `CircuitBreakers.ToolBreaker.RecordFailure` | agentos/tools/executor.py:112-123 | opens at the threshold or after a failed probe; no other tool changes |
| `CircuitBreakers.ToolBreaker.RecordSuccess` | agentos/tools/executor.py:125-128 | any success makes the tool fresh again |
| `CircuitBreakers.ToolBreaker.Execute` | agentos/tools/executor.py:225-283 | what a call does to the breaker and whether it reaches the handler |
| `CircuitBreakers.FailingToolIsRarelyExecuted` | agentos/tools/executor.py:95-128 | an always failing tool is executed at most threshold + span / cooldown times from a fresh state |
| `CircuitBreakers.ToolIsRefusedExactlyAfterThreeFailures` | agentos/tools/executor.py:32-128 | from the history alone: a tool is refused if and only if its handler failed three times or more since it last succeeded, the last time less than a minute ago; later it is probed |
| `CircuitBreakers.RefusedOnlyAfterAFailure` | agentos/tools/executor.py:225-233 | a call is refused only within a cooldown of a recorded failure |
| `CircuitBreakers.ModelBreaker.RecordFailure` | agentos/models/router.py:83-87 | counts, and opens at the threshold |
| `CircuitBreakers.ModelBreaker.RecordSuccess` | agentos/models/router.py:89-91 | any success makes the model fresh again |
| `CircuitBreakers.ModelBreaker.IsOpen` | agentos/models/router.py:93-102 | open until the cooldown is over, then forgotten |
| `CircuitBreakers.FailingModelIsRarelyAttempted` | agentos/models/router.py:68-102 | guarded attempts on an always failing model number at most threshold * (1 + span / cooldown) |
| `CircuitBreakers.ModelIsAvoidedExactlyAfterFullRounds` | agentos/models/router.py:68-102 | from the history alone: a model is avoided if and only if the number of attempts failed in a row is a positive multiple of the threshold, the last less than a cooldown ago |
| `CircuitBreakers.FailureAfterCooldown` | agentos/models/router.py:97-101 | after a cooldown one failure opens a tool at once, a model if and only if its threshold is 1 |
| `Performance.RollDescribes` | agentos/performance.py:84-101 | within one bucket: exact counts and sums, completed + failed = runs, rates in 0..1 within half a unit, the review average is the true mean, the rounded latency within 0.025 (n + 1) of it |
| `Performance.LatencyStep` | agentos/performance.py:163-164 | one more rounding keeps the drift bound |
| `Performance.PerformanceTracker.Load` | agentos/performance.py:175-189 | starts afresh in a new bucket |
| `Performance.PerformanceTracker.Update` | agentos/performance.py:151-173 | folds one run into one window |
| `Performance.PerformanceTracker.Record` | agentos/performance.py:37-68 | folds into all three windows of the agent and nothing else |
| `Performance.StatsCoverOneBucket` | agentos/performance.py:37-189 | after any history of recorded runs and reviews of any agents, the statistics of each agent and window cover exactly that agent's events since the bucket began, for "all" the current week |
| `Performance.StatsBeginWithThePeriod` | agentos/performance.py:37-189 | after any history, an agent's statistics of a day describe exactly its runs and reviews since the day of the last one began; those of a week, and those called all, since that week began |
| `ToolLoop.AgentRuntime.TakeFresh` | agentos/agents/runtime.py:426-437 | the calls not seen before, each once |
| `ToolLoop.AgentRuntime.ExecuteCalls` | agentos/agents/runtime.py:474-492 | executes in order up to one that waits for approval |
| `ToolLoop.AgentRuntime.RunToolRounds` | agentos/agents/runtime.py:406-509 | the loop is the specified rounds |
| `ToolLoop.AgentRuntime.VerifyAndRepair` | agentos/agents/runtime.py:357-401 | the loop of verification and repair, with its last check |
| `ToolLoop.AgentRuntime.RunLoop` | agentos/agents/runtime.py:313-404 | the whole run from the first call of the model |
| `ToolLoop.FreshCallsAreNew` | agentos/agents/runtime.py:426-437 | fresh calls differ from all seen and from one another, and all are remembered |
| `ToolLoop.FreshCallsInOrder` | agentos/agents/runtime.py:426-437 | the fresh calls are exactly, in order, those whose signature was neither seen before nor met earlier among the calls |
| `ToolLoop.SameSignatureExactly` | agentos/agents/runtime.py:429-434 | two calls count as the same if and only if the tool and all arguments but the content agree |
| `ToolLoop.CallsAreExecutedInOrder` | agentos/agents/runtime.py:474-492 | the calls are executed in order, each once, up to the first that waits for an approval, which the error then names |
| `ToolLoop.RoundsAreSound` | agentos/agents/runtime.py:406-509 | no signature is executed twice, at most 12 model calls, the content or an error is set |
| `ToolLoop.RoundsContent` | agentos/agents/runtime.py:406-509 | rounds without error leave the text of the last answer as the content or, when they were used up, the content there was |
| `ToolLoop.RoundsError` | agentos/agents/runtime.py:406-509 | the error of the rounds: that of a waiting call, of the model or of its answer, or that they were used up without a text, and otherwise none that is new |
| `ToolLoop.RoundsEndAtTheFirstPlainAnswer` | agentos/agents/runtime.py:416-466 | every answer that is followed by another one has a call not met before, or repeats old ones for the first three times; the first that does neither ends the rounds with its text as the content |
| `ToolLoop.RunIsSound` | agentos/agents/runtime.py:313-404 | over rounds and repairs: no signature twice, at most 2 repairs and 39 model calls, content or error set, what verified means, substantive content when there was no repair |
| `ToolLoop.VerifiedExactlyWhenAllIsThere` | agentos/agents/runtime.py:477-594 | a run claims exactly what its successful writing calls reported, each once; no call follows one that waits; without error it is verified if and only if every call was successful and all they reported is on disk at the last check |
| `ToolLoop.RepairedExactlyWhenSomethingIsMissing` | agentos/agents/runtime.py:357-386 | the model is asked for a repair if and only if the first rounds ended without error and a call of them failed or something reported is not on disk |
| `ToolLoop.OpeningLinesAreNotTaken` | agentos/agents/runtime.py:334-347 | a first answer of less than 400 characters is replaced by the final text if that has 400, and otherwise ends the run with an error |
| `ToolLoop.FailedCallsStayFailed` | agentos/agents/runtime.py:571-594 | a failed call in the first rounds leaves the run unverified and uses both repairs |
| `ToolLoop.RepairsMayEmptyTheContent` | agentos/agents/runtime.py:337-401 | a run that ends without error and without content |
| `ToolLoop.RepairedContentIsTheLastAnswer` | agentos/agents/runtime.py:337-401 | a repaired run that ends without error has no content if and only if its last answer has no text, and substantive content if and only if that text is (or, when the last repair used up its rounds, the content before it was) |
| `Rollback.EntryIdsDiffer` | agentos/security/rollback.py:79 | entry ids never collide, whatever the tools are called |
| `Rollback.RollbackLedger.Record` | agentos/security/rollback.py:71-93 | a new active entry, classified honestly; the ledger stays consistent |
| `Rollback.RollbackLedger.RegisterCompensation` | agentos/security/rollback.py:64-65 | the name leads to the given handler from now on, other names as before |
| `Rollback.RollbackLedger.Rollback` | agentos/security/rollback.py:116-144 | the effect on entry and files, every refusal included |
| `Rollback.RepliesFollowTheEntry` | agentos/security/rollback.py:116-144 | which entry gets which reply: a handler is run exactly for an active entry with a registered compensation, everything else changes nothing |
| `Rollback.HandlersRunAtMostOnce` | agentos/security/rollback.py:116-144 | rollback is idempotent: over any sequence of rollbacks the first reply to an entry decides all later ones, and its handler is not run again |
| `Rollback.RollbackLedger.RollbackTask` | agentos/security/rollback.py:146-159 | the specified rollback of the task's active entries; ok exactly when all are rolled back |
| `Rollback.RollsBackUpToTheFirstFailure` | agentos/security/rollback.py:146-159 | exactly the newest-first entries before the first failure are rolled back, that one is failed if its handler raised, all others are untouched |
| `Rollback.RollTaskIsNoOpExactly` | agentos/security/rollback.py:146-159 | nothing changes if and only if nothing is pending or the newest pending entry has no usable compensation |
| `Rollback.RepeatIsNoOpExactly` | agentos/security/rollback.py:116-159 | exactly when repeating a rollback is a no-op |
| `Rollback.RollbackOfWrites` | agentos/security/rollback.py:146-203 | for any writes: rolling them back reports success, exactly the files the records lead to are gone, and the files are as before if and only if that is restorable |
| `Rollback.TraceableIsRestorableExactlyWhenFresh` | agentos/security/rollback.py:179-203 | traceable writes are restorable if and only if every written path was fresh |
| `Rollback.WriteAndRollBack` | agentos/security/rollback.py:71-203 | from the ledger's own records: any writes of a task, rolled back, succeed, delete exactly the files the records lead to, and restore the files if and only if that is restorable; for traceable writes, if and only if every path was fresh |
| `Rollback.WriteIsGoneExactlyWhenTraceable` | agentos/security/rollback.py:179-203 | undoing a write is reported done; the file is gone if and only if its path is traceable and not outside the workspace |
| `Rollback.PlainPathsAreTraceable` | agentos/tools/executor.py:58-65 | paths of at most 200 characters without colon and outer white space are traced |
| `Rollback.TraceableExactlyWhenPlain` | agentos/security/rollback.py:179-203 | a written file is found again if and only if its path has no colon, begins without white space, and ends within 200 characters up to white space after these |
| `Rollback.AfterColonIsTheLastPart` | agentos/security/rollback.py:189 | what follows the last colon is taken for the path |
| `Rollback.OnlyLongPathsAreCut` | agentos/tools/executor.py:58-65 | a path is kept up to its first 200 characters |
| `Budgets.BudgetManager.Get` | agentos/budgets/manager.py:39-45 | the budget with its day rolled; reading changes what nobody reads |
| `Budgets.BudgetManager.Check` | agentos/budgets/manager.py:76-103 | the decision, with no change that can be read |
| `Budgets.DecisionFollowsTheLog` | agentos/budgets/manager.py:76-103 | a usage is approved if and only if its cost is not positive or fits what the logged usages of the scope leave of both limits, and given a cheaper model exactly when it is not and there is one |
| `Budgets.BudgetManager.Record` | agentos/budgets/manager.py:106-124 | charges every scope of the usage |
| `Budgets.ChargedOnce` | agentos/budgets/manager.py:106-118 | each scope is charged once and no other changes |
| `Budgets.HitsAreScopes` | agentos/budgets/manager.py:107-113 | which scopes a usage is charged to |
| `Budgets.CountersAreTheLog` | agentos/budgets/manager.py:39-118 | the monthly counter is the sum of all usages of the scope, the daily one read today the sum of today's |
| `Budgets.KeepsLimitsOfTheLog` | agentos/budgets/manager.py:106-118 | the limits are kept after a usage if and only if what was logged up to then fits them |
| `Budgets.MonthCounterNeverResets` | agentos/budgets/manager.py:67-73 | the monthly counter is this month's spending if and only if nothing was spent before |
| `Budgets.ProjectsAddUpToGlobal` | agentos/budgets/manager.py:106-118 | the projects' totals and what had no project add up to the global total |
| `Budgets.ProjectsStayBelowGlobal` | agentos/budgets/manager.py:106-118 | any projects' totals come to at most the global total |
| `Budgets.ApprovedSpendingStaysWithinLimits` | agentos/budgets/manager.py:76-118 | when every usage of a scope was approved under it with its exact cost, its limits are never passed |
| `Budgets.ApprovalMeansWithin` | agentos/budgets/manager.py:76-103 | a usage is approved, whatever the tier and the picker, if and only if its cost is not positive or fits what is left of both limits |
| `Budgets.NeverPassedExactlyWhenApproved` | agentos/budgets/manager.py:76-118 | for any log of non-negative costs and any scope: the scope's limits are never passed if and only if every usage charged to it was approved under it |
| `Budgets.GlobalLimitKeptExactlyWhenAlsoApprovedGlobally` | agentos/models/router.py:236-239 | spending the router approved keeps the global limits if and only if every usage of a project would also have been approved globally |
| `Budgets.RouterKeepsProjectLimits` | agentos/models/router.py:236-239 | spending the router approved keeps every project's limits |
| `Budgets.GlobalLimitCanBePassed` | agentos/models/router.py:236-239 | a usage approved under its project can pass the global limit |

## Left out

- Network and process I/O, routes, command line, user interface, prompts, personas and keyword tables: no part of the model.
- Engine.OrchestratorEngine.Invoke: a step fails only for an unknown stage or the recursion limit; other exceptions of a step are not modelled.
- Endings.EndsExactlyWithoutGoingRound: a run that waits and is never answered is no session; restarts of the engine between calls are not modelled.
- The graph library and its durable checkpointer: only that returned keys are merged and the step node repeats until the route ends the run; a resumed run starts from the engine's own copy.
- Schedule edits by the API or the command line and manual firing: they write outside the claim lock and are not steps of the claim protocol.
- Redis: acquire, release, get and save are atomic steps; its loss and the fallback to the local table are not modelled.
- Concurrent writers of the relational store and the database's own transactions: one write at a time.
- JSON values: a document field is absent, null or a text.
- The files of a patch: line endings other than "\n", decoding and the reading of the file; decimal digits in headers are the ASCII ones.
- Unicode: lower case, word characters and white space are those of ASCII.
- The other writers of memory entries (plain save, archive, the lazy expiry in recall, episodes) between fact saves; the final ranking that blends score, importance, recency and confidence.
- Levelling.OutweighedGroupsAreLevelled: only one way when a group has three or more importances; the converse is false there (`RisingImportancesAreLevelled`).
- TfIdf.Rank: real arithmetic, no floating-point error; an entry is its list of tokens, scores are listed in the order of entries.
- Messaging.MessageBus.Send: payloads are maps of texts, and the best-effort mirror of a message is not modelled.
- CircuitBreakers.ToolBreaker.Execute: an execution is one round of the handler with its transient retries; permissions, policies and approvals before it are calls that do not run.
- Performance.RollDescribes: reals with rounding to a nearest multiple, however halves go; the per-skill aggregate and the downstream rate repeat the same fold.
- The extra turns after a stub answer in the agent run: their text is a parameter, and the calls they make are not counted.
- ToolLoop.RunIsSound: arguments of calls are maps of texts, and signatures are compared as pairs rather than as one concatenated string.
- Rollback.WriteAndRollBack: a path is the file it names; links, relative steps and the removal of created directories are not modelled.
- Budget warnings and the choice of a cheaper model: the picker is a parameter.
