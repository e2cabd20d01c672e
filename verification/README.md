# HungerLoop verification

A Dafny model of HungerLoop's control loop and of four algorithms beside it, with proofs of what
they promise over whole runs. `dafny verify dfyconfig.toml` checks the project.

## The system in its own terms

A task holds a ledger of hunger items, each with acceptance checks and a gap between 1 (nothing
passes) and 0. A loop ticks the hunger engine, plans one item, lets workers build a candidate tree,
validates it, and promotes it to *best* only if some check newly passes and nothing that best
already passed is broken. Accepted checks, discovery credits, ledger gaps, continuation of rejected
trees, refactor transactions and the stop reason all hang on that one decision.

- `Domain`, `Repository`: the records of one task, with the rows of other tasks that the shared table of hunger
  items puts before its own; a transaction is a snapshot an exception restores.
- `CheckKeys`: `<item id>:<index>` keys and the readers that take them apart.
- `ValidationGate`, `CommitManager`, `HungerUpdate`, `HungerEngine`, `Planner`, `Stagnation`,
  `RefactorTransactions`, `Continuation`: the services, as methods over the repository proved against
  functions on its contents.
- `Orchestrator`: one loop as a function `Step` of the state and of a `World` (clock, workers, handoffs, check
  runs, file outcomes). Two invariants: `Books`, which every loop keeps whatever other tasks write, and `Sound`,
  which adds the agreement of ledger and best and needs the task's item ids for itself (`Clear`).
- `Runs`, `Traces`: any sequence of loops, operator commands and rows of other tasks; the run-level theorems.
- `SharedRows`: what another task's row costs, exactly; `Interrupted`: what a kill between the commit and the
  ledger update costs; `EmptyPlans`: when a loop has nothing to plan, and how it ends.
- `LoopOrchestrator`: `step` and `run` as methods over the repository and the services.
- `GateCoverage`, `LoopRules`, `LoopCommits`, `CreditRuns`: the same services and loops in terms of rows, checks and
  policy alone: which checks run, when a loop begins, when it moves best, and who is credited.
- `CommitSelection`, `DraftSampling`: score-free choice among drafts, and the clean-up after it.
- `MissionMirror`, `MissionPatterns`, `MissionRoundTrip`, `MissionReadBack`, `MissionFile`, `MissionInjection`,
  `MissionOrder`, `MissionRewrite`: `mission.md` written, parsed and written again, at the level of the text,
  regular expressions included.
- `HistoryCap`, `ReadCoverage`: bounded prompt assembly and line-interval merging.
- `SqlSplitter`, `Migrator`: the migration scanner and the forward-only version machine.
- `MemoryPromotion`, `TaskLock`: two small protocols over repository rows.
- `Text`, `Ordering`: Python's string and sorting operations the rest relies on.

Everything from outside (clocks, workers, check runs, file operations, drawn identifiers) is a
parameter the theorems quantify over. `real` stands for Python's float; the rounding theorem
(`HungerUpdate.SatisfiedExactlyAtTheEnd`) says how much rounding the gap arithmetic tolerates.

## What the proofs found

1. *Tasks share item ids, and the gate can take another task's item.* `get_hunger_item` returns the newest row of
   an id over all tasks, every `new` writes `H-001` and `H-002`, and the gate takes its targets from there. Once
   another task has a newer row of one of our ids, the ledger can agree with best no longer
   (`SharedRows.RunAgreesIff`, `SharedRows.GateAgreesIff`) and a DONE can be wrong (`SharedRows.LastLoopDoneIff`).
   `SharedRows.SecondTaskFinishesTheFirst` is the plain case: two `new` commands in one database, and the first
   task's run stops DONE after two loops without one of its checks. Without such a row all of `Runs` holds; best,
   credits, chains and traces hold in any case.
2. *A kill between commit and ledger update is not mended.* The two are separate transactions; what is lost and
   when it is lost for good is in `Interrupted.KillAgreesIff`, `Interrupted.KillStrandsIff` and
   `Interrupted.StrandedForGood`.
3. *A blocker on an unknown id ends the run.* It raises after the handoffs before it were written
   (`Orchestrator.HandoffsRaiseIff`, `Runs.UnknownBlockerStops`).
4. *Refactor tolerance is inert.* The gate's verdict is FAIL whenever anything regressed, and the
   commit rule tests the verdict before it looks at a transaction. So with gate reports an open
   transaction never changes a decision, best never loses a key (`Runs.BestMovesOnlyByTheGate`), and settling a
   transaction, even by rollback, leaves the best row as it is (`RefactorTransactions.SettlementKeepsBest`).
5. *Auto-open never fires.* It is handed the report with its newly passed keys already cleared, so transactions
   open only where a worker proposes them (`Runs.OpensOnlyByHandoff`).
6. *A failed commit can leave files behind.* Promotion is a rename no rollback undoes; the tree and the
   best row part company exactly when something after the promotion fails (`CommitManager.TreeAgreesIff`,
   `CommitManager.ManifestFailureLeavesFiles`). Without a mission that cannot happen
   (`LoopOrchestrator.TreeFollowsBest`).
7. *A validating phase overrides every stop reason*, the operator's pause and the cost ceiling included: a tick
   stops exactly under the condition of `HungerEngine.MissionTickStopsIff`
   (`HungerEngine.PauseIsIgnoredWhileValidating`).
8. *A gap can snap to zero early* exactly for items with 10^9 checks or more (`HungerUpdate.SnapsEarlyIff`,
   `Runs.ZeroGapMeansMetIff`).
9. *Item ids with a colon* break every reader of check keys, and only those (`CheckKeys.ItemIdOfCheckKey`).
10. *Draft sampling drops retry rows*: the loop's handoff rows are a single run's exactly when the winner
    needed no retry (`DraftSampling.HandoffsAsSingleRunIff`, `DraftSampling.RetryRowIsDropped`).
11. *The mission mirror is lossless exactly for clean missions* (`MissionFile.RoundTripIff`,
    `MissionInjection.ColonIdIsLost`); a description can bring its own phases and a title its own features
    (`MissionInjection.HiddenPhasesIff`, `MissionInjection.TitleBreakAddsAFeature`), and then the lines of a list have
    to be read as its ids (`MissionFile.RoundTripByLinesIff`).
12. *Rewriting the mirror can move ids once, and not again*: an id with a colon is read as another, so the next
    file lists it elsewhere (`MissionRewrite.SecondFileIff`, `MissionRewrite.ColonMovesDown`); from then on the
    order stands (`MissionRewrite.ThirdFileIff`, `MissionRewrite.ImportSettles`).
13. *A successful open ends at the latest version* exactly when a migration numbered latest is shipped or
    was already applied (`Migrator.SuccessReachesLatestIff`, `Migrator.SuccessBelowLatest`); and removing a
    comment fuses the tokens around it (`SqlSplitter.CommentRemovalFusesTokens`): the statements of a file stay whole
    exactly when no comment stands between the halves of a comment opener (`SqlSplitter.ResplitsIff`).
14. *Re-entry breaks the lock* when the recorded owner releases first, and only then
    (`TaskLock.GuardedIff`, `TaskLock.ReentryBreaksExclusion`).
15. *The empty-plan fuse ignores `respect_stagnation`*, although requirement LM4-FR-8 of the budgeted refinement
    worker asks that under SPEND_BUDGET an ignored streak shall not stop the task; the model follows the code.
    A loop that goes on without a plan ends BLOCKED exactly when it completes the streak, whatever the policy says
    (`EmptyPlans.EmptyPlanIff`, `EmptyPlans.PausedTaskBlocks`). With a worker allowed that takes a paused item
    (`EmptyPlans.EmptyPlanNeedsPause`), and no loop, command or other task pauses one (`EmptyPlans.RunsAlwaysPlan`).
16. *Two reviewers can undo each other.* The memory verbs read a candidate before their transaction; a write that
    comes late keeps memories and candidates in step, and takes no decision back, exactly under the conditions of
    `MemoryPromotion.LateWriteConsistentIff` and `MemoryPromotion.LateWriteForwardIff`; a late rejection leaves the
    memory of an approval behind (`MemoryPromotion.LateRejectTakesApprovalBack`).

## Model

| member | source | states |
|---|---|---|
| Runs.LedgerAgreesWithBest | src/hungerloop/services/loop_orchestrator.py:942-1017 | After any run of loops, operator commands and rows of other tasks under ids not ours, each open item's gap is what best's accepted keys say; no gap ever rises, and none moves unless best moves |
| Runs.DoneIsSound | src/hungerloop/models/hunger.py:113-156 | A DONE stop of any such run means best meets the acceptance rule of every item that is not closed (items below 10^9 checks) |
| LoopCommits.LoopCommitsIff | src/hungerloop/services/loop_orchestrator.py:846-967 | A loop of an undisturbed task moves best exactly if it gets to validation on a tree whose verdict is not known, not skipped and not stopped there, some open check of the planned item passes, every accepted check passes its first run or all its reruns, evidence is left and the promotion goes through |
| LoopCommits.CommitMeansAllHolds | src/hungerloop/services/validation_gate.py:132-207 | After a commit everything best holds passed on that very candidate, and best gained exactly the checks of the planned item that pass |
| LoopCommits.CommitBreaksNothingOwned | src/hungerloop/services/validation_gate.py:132-312 | Whatever other tasks write, a commit means that each accepted key of a ledger item no other row stands in for passed its first run or all its reruns |
| LoopCommits.LoopTraceExactly | src/hungerloop/services/loop_orchestrator.py:1079-1126 | The trace of a validated loop says whether best moved, what it gained, and exactly which accepted checks fail for good, if they were run again |
| LoopCommits.DecidedLoopLeaves | src/hungerloop/services/loop_orchestrator.py:942-1162 | A decided loop leaves its trace and the candidate's status; the streak restarts or grows, the loop stops BLOCKED exactly when it completes the streak, and no transaction stays open past its deadline where files can be restored |
| LoopCommits.RejectionCountsExactly | src/hungerloop/services/stagnation_detector.py:56-242 | A rejected loop counts a failure against exactly the open items it attempted whose regressions an open transaction does not all declare, and blocks what reaches the limit |
| LoopRules.DecideExactly | src/hungerloop/services/loop_orchestrator.py:560-600 | How a loop starts, in full: paused, over a ceiling, blocked, expired, done, exhausted, refined or under way, by clock, policy and ledger alone |
| LoopRules.SpentCeilingStops | src/hungerloop/services/hunger_engine.py:94-104 | A spent cost or token ceiling stops a task that is not paused with SAFETY_STOP before anything is written |
| LoopRules.OvershootIsOneLoop | src/hungerloop/services/hunger_engine.py:98-104 | Every loop that goes on, of any run, began under both ceilings, so only the last one's spending can overshoot them |
| LoopRules.AppendExactly | src/hungerloop/services/loop_orchestrator.py:1735-1779 | Compiled items go to the end of the ledger: exactly the first one of every id it does not hold |
| LoopRules.PassExactly | src/hungerloop/services/loop_orchestrator.py:742-826 | Where a worker pass ends the loop, and what each ending leaves: only a crash or a raising handoff leaves a trace, only a pass that goes through a pending candidate |
| LoopRules.BlockerExactly | src/hungerloop/services/handoff_processor.py:76-99 | A blocker blocks the task's own item of that id unless it is closed, and changes nothing else |
| SharedRows.RunAgreesIff | src/hungerloop/repository/sqlite_repo.py:260-279 | An undisturbed run keeps the agreement; at any point where the task can still loop, the next row of another task leaves it standing, whatever the row says and the next loop does, exactly when its id is not one of ours |
| SharedRows.LoopAgreesIff | src/hungerloop/repository/sqlite_repo.py:297-330 | The same for one loop, where a blocker writes the row it finds over the ledger's entry |
| SharedRows.GateAgreesIff | src/hungerloop/services/validation_gate.py:70-234 | Validating a pressing item keeps the agreement, whatever else happens, exactly as long as no other task's newer row has that item's id; rows of other ids do no harm |
| SharedRows.LastLoopDoneIff | src/hungerloop/services/validation_gate.py:70-80 | After the loop of the last unfinished item a done ledger means best meets every item, exactly under the same condition |
| SharedRows.SecondTaskFinishesTheFirst | src/hungerloop/services/requirement_compiler.py:152-181 | Two tasks made by `new`, `H-001` with two checks here and one there, `H-002` in both: the first task's run takes a loop for each, on the second task's checks, and stops DONE with `H-001:1` never accepted |
| EmptyPlans.EmptyPlanIff | src/hungerloop/services/loop_orchestrator.py:1990-2023 | A loop that goes on has no plan exactly when no worker may run or whatever has a gap is closed, paused or blocked; it then ends BLOCKED exactly when it completes the streak, whatever `respect_stagnation` says |
| EmptyPlans.EmptyPlanNeedsPause | src/hungerloop/services/loop_orchestrator.py:1990-2023 | With a worker allowed, such a loop has a paused item with a gap |
| EmptyPlans.RunsAlwaysPlan | src/hungerloop/services/loop_orchestrator.py:545-1162 | Over every run, in both completion modes, a ledger without paused items never meets an empty plan while a worker is allowed |
| EmptyPlans.PausedTaskBlocks | src/hungerloop/services/loop_orchestrator.py:1995-2023 | A task whose one item is paused stops BLOCKED at the loop that completes the streak, with `respect_stagnation` off and in either completion mode |
| Runs.DoneIff | src/hungerloop/models/hunger.py:155-156 | The ledger is done exactly when every item is closed, or has checks and best meets its rule |
| Runs.ZeroGapMeansMetIff | src/hungerloop/services/hunger_update.py:67-88 | A zero gap implies the rule is met exactly for items with fewer than 10^9 checks |
| Runs.BestMovesOnlyByTheGate | src/hungerloop/services/commit_manager.py:97-110 | In a loop best moves only when a report passes the gate without any transaction, and then its accepted set strictly grows, whatever rows other tasks have written |
| Runs.StepAdvances | src/hungerloop/services/loop_orchestrator.py:545-1162 | A loop takes back no accepted key, accepted row, event or item id; where no other task's row stands in, it changes no item's checks or rule and leaves closed items alone |
| Runs.RunsKeepSound | src/hungerloop/services/loop_orchestrator.py:1881-1899 | The task invariant and everything earned survive any sequence of loops, freezes, refills, unblocks, run flags and rows of other tasks under other ids |
| Runs.RunsKeepBooks | src/hungerloop/services/loop_orchestrator.py:1881-1899 | Whatever rows other tasks write, accounts, transactions, chains and distinct ids survive every run, and no accepted key, row or event is taken back |
| Runs.OpensOnlyByHandoff | src/hungerloop/services/loop_orchestrator.py:172-205 | No loop opens a refactor transaction by itself, whatever the auto-open policy says and whatever regressed |
| Runs.UnknownBlockerStops | src/hungerloop/services/handoff_processor.py:76-99 | A pass with a blocker on an unknown id ends the run in ERROR, with what the handoffs before it wrote |
| Interrupted.KillAgreesIff | src/hungerloop/services/loop_orchestrator.py:943-1007 | A kill after the commit and before the ledger update keeps the agreement exactly when the loop's item had nothing left to do; the books are kept |
| Interrupted.StrandedForGood | src/hungerloop/services/hunger_update.py:47-93 | A stranded item keeps its gap in every undisturbed run, and no loop of the run stops DONE |
| Interrupted.LaterReportMends | src/hungerloop/services/hunger_update.py:67-88 | Otherwise the gap is right again once a later report meets the item's rule |
| Interrupted.KillLosesTheTrace | src/hungerloop/services/loop_orchestrator.py:1079-1126 | The keys of the killed commit are in best and in no trace |
| Runs.TurnKeepsSound | src/hungerloop/cli/hunger_cmd.py:38-144 | Each operator command between loops keeps the invariant, and so does another task's row of an id not ours |
| LoopRules.FreezeStops | src/hungerloop/cli/hunger_cmd.py:124-144 | A frozen task stops at once with HUMAN_PAUSED, unchanged, and resuming undoes the freeze |
| LoopRules.RefillGivesBack | src/hungerloop/cli/hunger_cmd.py:38-60 | A refill gives back as many loops as asked for, or as were counted |
| LoopRules.UnblockExactly | src/hungerloop/cli/hunger_cmd.py:62-122 | Unblocking opens blocked items with a clean count of failures and leaves the others; all at once also restarts the streak |
| Runs.ChainsOverRuns | src/hungerloop/services/loop_orchestrator.py:1247-1339 | In every run a recorded chain length counts the consecutive seeded loops ending there, stays within the policy maximum, and any max+1 loops in a row include one started from best |
| Runs.AccountsOverRuns | src/hungerloop/services/commit_manager.py:112-223 | In every run the accepted rows cover best's keys, never shrink, and no check key is credited twice |
| CreditRuns.CreditsOverRuns | src/hungerloop/services/commit_manager.py:324-370 | Over every undisturbed run exactly the accepted checks of worker-made items are credited, each to the worker its item names and in one event |
| Traces.TracesAccountForBest | src/hungerloop/services/loop_orchestrator.py:1079-1126 | Conservation over every run, disturbed or not: best holds exactly the keys the traces report as newly passed, and no two traces report the same key |
| Traces.SettleTold | src/hungerloop/services/loop_orchestrator.py:1079-1126 | A decided loop's trace says committed exactly when best moved, and lists exactly the keys best gained |
| Runs.RunTerminates | src/hungerloop/services/hunger_engine.py:335-344 | Under loop-count decay of N loops at most max(0, N - loop_count) loops return a trace before a stop, in both completion modes |
| Runs.CapNeverReached | src/hungerloop/services/loop_orchestrator.py:1888-1899 | With a cap above that bound, a run ends with a stop some step returned, within the bound, never with the cap's own error |
| Runs.ContinueCounts | src/hungerloop/services/loop_orchestrator.py:603-608 | A loop that goes on used exactly one unit of the loop budget, and there was one to use |
| Orchestrator.StepKeepsSound | src/hungerloop/services/loop_orchestrator.py:545-1162 | One loop keeps the books whatever workers, checks, files, clocks and other tasks' rows do, keeps the ids clear, and keeps the whole invariant where they are |
| Orchestrator.DecideKept | src/hungerloop/services/loop_orchestrator.py:1700-1779 | Budgeted refinement adds items without breaking the books or the agreement of ledger and best |
| Orchestrator.TakenAllKept | src/hungerloop/services/handoff_processor.py:76-166 | Handoffs, in order and up to one that raises, keep the invariants and the loop's item open, and write nothing but rows of items and the transaction |
| Orchestrator.HandoffsRaiseIff | src/hungerloop/services/handoff_processor.py:76-166 | Handoffs raise exactly at the first blocker on an id no row has; what came before stays written |
| Orchestrator.ReportIsUsable | src/hungerloop/services/loop_orchestrator.py:846-922 | Where the loop's item is the row found, both the gate's report and the no-change report concern only that item and list it as satisfied exactly when it is |
| Orchestrator.ReportIsGated | src/hungerloop/services/loop_orchestrator.py:846-922 | Whatever row is found, the report is made against best, fails on any regression, and its new keys carry the target's id |
| Orchestrator.DecisionOfLoop | src/hungerloop/services/loop_orchestrator.py:942-967 | Without a mission a loop commits exactly when the gate allows it without any transaction and the files can be promoted, and then nothing regressed; otherwise only the candidate's status changes and no progress is reported |
| Orchestrator.SettleCases | src/hungerloop/services/loop_orchestrator.py:942-1162 | The three outcomes of a validated loop: an error trace on an untouched state, a commit with its ledger update, or a rejection that updates no gap |
| Orchestrator.CommitKeepsCoupled | src/hungerloop/services/hunger_update.py:47-93 | A commit and its ledger update together keep every gap equal to what the new accepted keys say |
| Orchestrator.FinishKept | src/hungerloop/services/loop_orchestrator.py:1009-1034 | Stagnation, auto-open, settlement and the trace keep the invariants and leave best as it is |
| LoopOrchestrator.LoopOrchestrator.DoStep | src/hungerloop/services/loop_orchestrator.py:545-1162 | The step over repository and services computes `Step`, keeps the books, and keeps the live files those of the best row |
| LoopOrchestrator.LoopOrchestrator.DoRun | src/hungerloop/services/loop_orchestrator.py:1881-1899 | The capped run computes `Run` and keeps the books and the files |
| LoopOrchestrator.LoopOrchestrator.Tick | src/hungerloop/services/loop_orchestrator.py:560-600 | The tick and the refinement hook leave the state and outcome of `Decide` |
| LoopOrchestrator.LoopOrchestrator.BeginLoop | src/hungerloop/services/loop_orchestrator.py:602-730 | Accepting, planning and perhaps continuing a loop leave the state of `Begin` |
| LoopOrchestrator.LoopOrchestrator.ProcessHandoffs | src/hungerloop/services/handoff_processor.py:76-166 | The loop over the handoffs leaves the rows and the transaction of the specification, and says whether one raised |
| LoopOrchestrator.LoopOrchestrator.RunWorkers | src/hungerloop/services/loop_orchestrator.py:742-826 | The worker pass, its handoffs and the proposals leave the state of `Work`, an error trace included where a handoff raises |
| LoopOrchestrator.LoopOrchestrator.MakeReport | src/hungerloop/services/loop_orchestrator.py:846-922 | An unchanged tree gets the no-change report, anything else the gate's |
| LoopOrchestrator.LoopOrchestrator.Decided | src/hungerloop/services/loop_orchestrator.py:942-1162 | Decision, ledger update and finish through the services leave the state of `Settle`, and say which tree is live |
| LoopOrchestrator.TreeFollowsBest | src/hungerloop/services/commit_manager.py:112-131 | A loop without a mission never leaves one candidate's files under another's row |
| CommitManager.Manager.Apply | src/hungerloop/services/commit_manager.py:66-223 | The transaction with its rollback paths leaves the state, decision and live tree of the specification, and no open transaction |
| CommitManager.DecisionExactly | src/hungerloop/services/commit_manager.py:97-223 | A commit needs a verdict other than FAIL, a newly passed check, evidence, and for every regressed check an open, allowed transaction of the task that declares it, and no failing step; a rejection names the first of these that is missing |
| CommitManager.CommitWritesExactly | src/hungerloop/services/commit_manager.py:97-190 | A commit writes the best row, one accepted row per newly passed key, the candidate's status, the completed features and events, and nothing else |
| CommitManager.Manager.EmitDiscoveryCredits | src/hungerloop/services/commit_manager.py:324-370 | The events appended are the credits of the specification, which `CommitManager.CreditsExactly` characterises |
| CommitManager.CreditsExactly | src/hungerloop/services/commit_manager.py:324-370 | A commit credits exactly the newly passed keys that never had an accepted row and whose ledger item is generated by `worker:` and a name, to that name and with the candidate's loop |
| CommitManager.CommitKeepsKeys | src/hungerloop/services/commit_manager.py:266-293 | A key leaves the accepted set only under an active transaction that declares it; without one a commit strictly grows the set |
| CommitManager.KeysLeaveOnlyWhenDeclared | src/hungerloop/services/commit_manager.py:241-293 | I-3 over any sequence of commits |
| CommitManager.CommitsGrowTheSet | src/hungerloop/services/commit_manager.py:97-110 | Without active transactions every commit of a sequence adds at least one key and loses none |
| CommitManager.CallsKeepAccounted | src/hungerloop/services/commit_manager.py:112-223 | Rows cover best and credits stay unique through any mix of commits, rejections and rollbacks |
| CommitManager.CreditsFacts | src/hungerloop/services/commit_manager.py:324-370 | Credits of one commit are for distinct, newly passed keys never accepted before |
| CommitManager.RowNamesItsCheck | src/hungerloop/services/commit_manager.py:129-142 | An accepted row holds the item id and index its key was made from and the evidence of that check's only result |
| Repository.SQLiteRepository.Abort | src/hungerloop/repository/sqlite_repo.py:2191-2209 | Leaving the outermost block by an exception restores the state at its start; an inner block restores nothing itself |
| Repository.SQLiteRepository.Begin | src/hungerloop/repository/sqlite_repo.py:2191-2200 | Only the outermost block takes the snapshot |
| HungerUpdate.Service.ApplyValidation | src/hungerloop/services/hunger_update.py:39-93 | Counting by id and updating item by item leaves exactly the ledger of the specification, every other item untouched |
| HungerUpdate.Service.CountProgress | src/hungerloop/services/hunger_update.py:47-56 | The dictionary maps each id with progress to its number of newly passed keys and holds no other id |
| HungerUpdate.GapFollowsKeys | src/hungerloop/services/hunger_update.py:67-88 | A gap that agreed with the keys before a report agrees with the keys after it |
| HungerUpdate.ItemChangesExactly | src/hungerloop/services/hunger_update.py:39-93 | An item changes exactly if a report that does not fail newly passes a key of it; its gap then goes to zero or falls by a check's share at least, and its status, evidence and loop follow |
| HungerUpdate.SatisfiedExactlyAtTheEnd | src/hungerloop/services/hunger_update.py:28-88 | With error at most d per round and m*d <= 1e-9 < 1/n - m*d, the gap is zero exactly once all n checks have passed, after every prefix of the rounds |
| HungerUpdate.SnapsEarlyIff | src/hungerloop/services/hunger_update.py:28 | Some missing check is snapped away exactly from 10^9 checks on |
| HungerUpdate.CountIsCardinality | src/hungerloop/services/hunger_update.py:47-56 | Counting keys by id counts the item's own checks among them |
| HungerEngine.Engine.Tick | src/hungerloop/services/hunger_engine.py:51-142 | The tick moves the phase rows and computes the snapshot of the specification, which `HungerEngine.TickMovesExactly` and `HungerEngine.MissionTickStopsIff` characterise |
| HungerEngine.TickMovesExactly | src/hungerloop/services/hunger_engine.py:153-320 | A tick takes a phase to done exactly if it was validating and the result for its id brings pipeline pass, no regression, scrutiny PASS and user testing PASS; back on pipeline fail; started by a feature in progress; into validation when it has features and all are done |
| HungerEngine.StopsExactly | src/hungerloop/services/hunger_engine.py:90-116 | Each stop reason, by the clock, both ceilings, the items that have a gap and the budget |
| HungerEngine.MissionTickStopsIff | src/hungerloop/services/hunger_engine.py:118-152 | A mission tick stops exactly when the ladder does, the last phase that moved or stays in validation is not validating, and a DONE finds all phases done |
| HungerEngine.FallingRatiosKeepPhase | src/hungerloop/services/hunger_engine.py:371-385 | While the ratio only falls a run stays in the phase it began in, EXPLORE above 0.6 and EXPLOIT below, until it cools down at 0.3: an exploring run never exploits |
| HungerEngine.Engine.AdvanceMissionPhases | src/hungerloop/services/hunger_engine.py:153-227 | Walking a snapshot while writing rows moves each phase by its own transition once, and reports the last phase in motion |
| HungerEngine.Engine.UpdatePhaseStatus | src/hungerloop/repository/in_memory_repo.py:1006-1023 | A done row refuses any other status; otherwise exactly the rows of that id change |
| HungerEngine.PhaseRuns | src/hungerloop/services/hunger_engine.py:153-320 | Over any ticks a phase is done exactly if it was, or some tick finds it validating and brings it pipeline pass, no regression and both boundary verdicts PASS; done is final and takes at least one tick per edge |
| HungerEngine.PauseIsIgnoredWhileValidating | src/hungerloop/services/hunger_engine.py:125-127 | A paused task whose last unfinished phase is validating does not stop |
| HungerEngine.BudgetNeverRises | src/hungerloop/services/hunger_engine.py:322-369 | Under every kind of decay neither time nor counted loops nor clearing give budget back, and it stays between 0 and the initial hunger |
| ValidationGate.Validate | src/hungerloop/services/validation_gate.py:47-234 | The two-phase run with confirmation, its targets looked up across tasks and its regression items in this one, computes the report of the specification, which `GateCoverage` characterises |
| GateCoverage.RegressedExactly | src/hungerloop/services/validation_gate.py:75-312 | A key is listed as regressed exactly if it is accepted, a check of the row found for a target or of another ledger item its id leads back to, accepted checks are run again, its first run fails and so does some rerun, if there are any |
| GateCoverage.ChecksRunExactly | src/hungerloop/services/validation_gate.py:70-182 | Which checks run: the targets' open ones, and the accepted ones again if continuation is enabled, something newly passes or nothing of the targets is left to try |
| GateCoverage.ResultsExactly | src/hungerloop/services/validation_gate.py:84-312 | What each result says of its check, by its first run and its reruns; a withdrawn regression shows the evidence its reruns left last |
| GateCoverage.EvidenceExactly | src/hungerloop/services/validation_gate.py:84-222 | The report names, once each, exactly the evidence of the candidate and of its runs and reruns, and evidence is missing exactly if there is none |
| GateCoverage.TargetsSplitExactly | src/hungerloop/services/validation_gate.py:324-355 | The rows found for the targets fall into satisfied and unsatisfied, each by its own results and rule |
| GateCoverage.VerdictExactly | src/hungerloop/services/validation_gate.py:357-378 | When the verdict is PASS and when PARTIAL |
| ValidationGate.GateReportAgainstBaseline | src/hungerloop/services/validation_gate.py:47-234 | Regressed keys are baseline keys, newly passed ones are distinct keys, outside it, of the rows found for the targets, current is baseline minus the one plus the other, and any regression fails |
| ValidationGate.NewlyExactly | src/hungerloop/services/validation_gate.py:85-131 | The newly passed keys are exactly the checks of the rows found for the targets that failed before and pass now; a regressed key passed before and failed its first run |
| ValidationGate.SatisfiedMeansMet | src/hungerloop/services/validation_gate.py:324-355 | For a target that made progress `satisfied` says exactly whether the rule of the row found holds of the keys now passing, although only part of the checks ran |
| ValidationGate.ResultsAreHonest | src/hungerloop/services/validation_gate.py:47-234 | Every result belongs to the row found for a target or to a ledger item of no target's id, is flagged against the baseline, and no key is run twice |
| ValidationGate.ConfirmOne | src/hungerloop/services/validation_gate.py:236-312 | A regression is withdrawn exactly when all reruns pass, with the evidence of the reruns up to the first failure |
| CheckKeys.ItemIdOfCheckKey | src/hungerloop/services/validation_gate.py:33-35 | A key leads back to its item exactly when the item id has no colon |
| CheckKeys.IntLiteralIff | src/hungerloop/services/commit_manager.py:133-142 | What a check key may end in: after white space and a sign, groups of digits with single underscores between them |
| CheckKeys.CheckKeyInjective | src/hungerloop/services/validation_gate.py:33-35 | Different checks never share a key, whatever the ids hold |
| Planner.PlanPicksTheMostPressing | src/hungerloop/services/rule_based_planner.py:38-101 | The planned item is active, of the lowest active tier, and presses hardest there; there is a plan exactly when something is active and a worker may run |
| Planner.PlanTakesTheFirst | src/hungerloop/services/rule_based_planner.py:38-101 | Among equally pressing items of that tier the first in the ledger is planned |
| Stagnation.BlockedExactlyAtTheLimit | src/hungerloop/services/stagnation_detector.py:56-159 | Over any row of fruitless loops each is counted, and the item is blocked exactly from the loop that reaches the limit, never where stagnation is ignored |
| Stagnation.JudgedExactly | src/hungerloop/services/stagnation_detector.py:56-159 | A loop counts a failure against an open item it attempted unless it gained a check of it by a commit or all its regressions were declared; a gain restarts the count, and the limit blocks |
| Stagnation.GlobalFuse | src/hungerloop/services/stagnation_detector.py:56-159 | Over any loops the streak counts those since the last committed progress, and the fuse blows exactly at the loop that completes the limit without progress |
| RefactorTransactions.SettlementKeepsBest | src/hungerloop/services/refactor_transaction_manager.py:310-428 | Closing a sound transaction, by success or rollback, leaves best as it is |
| RefactorTransactions.OpensExactly | src/hungerloop/services/refactor_transaction_manager.py:73-308 | A transaction opens exactly on one to the maximum of different accepted keys, with none open, a positive deadline and a snapshot; it remembers the best row and its deadline |
| RefactorTransactions.ClosesExactly | src/hungerloop/services/refactor_transaction_manager.py:310-428 | It closes with success exactly if every declared key is back and best holds the baseline and more; otherwise the baseline comes back, unless the files cannot |
| RefactorTransactions.AutoOpensExactly | src/hungerloop/services/loop_orchestrator.py:172-205 | The auto-open trigger by counts and keys, and the keys it declares |
| Continuation.ContinuedKeepsChains | src/hungerloop/services/loop_orchestrator.py:1247-1339 | Seeding or skipping a loop extends the chain of the loop before by one, within the maximum |
| Continuation.ChainIsRunLength | src/hungerloop/services/loop_orchestrator.py:1300-1339 | The recorded chain length is the number of consecutive seeded loops ending there |
| Continuation.SomeLoopStartsFromBest | src/hungerloop/services/loop_orchestrator.py:1300-1320 | Any max+1 consecutive loops include one that was not seeded |
| Continuation.RepeatsAreSanctioned | src/hungerloop/services/loop_orchestrator.py:1256-1300 | Where a loop is seeded, every key its predecessor was seeded with and lists as regressed again is declared by an open transaction under an enabling policy |
| Continuation.SeedsExactly | src/hungerloop/services/loop_orchestrator.py:1247-1339 | A rejected candidate is carried on exactly if policy, declared repeats, room in the chain and the tree allow it, read off events and traces; the event appended says what with, or which of these was missing first |
| CommitSelection.SelectDependsOnEssence | src/hungerloop/services/commit_selection.py:79-111 | The winner depends neither on any score, nor on the order or repetition of keys, nor on the order of the candidates |
| CommitSelection.SelectIsBest | src/hungerloop/services/commit_selection.py:79-111 | The winner could be committed; no candidate that could be newly passes more different checks, with as many none fails fewer, and with as many of both none has a smaller id |
| CommitSelection.FallbackIsBest | src/hungerloop/services/commit_selection.py:137-157 | The same order for the fallback, over all candidates |
| CommitSelection.NoneIffNothingCommits | src/hungerloop/services/commit_selection.py:59-76 | Nothing is selected exactly when no report could be committed without a transaction |
| DraftSampling.Sampler.Sample | src/hungerloop/services/loop_orchestrator.py:357-457 | The loop's handoff rows become the winner's, losers' tool evidence goes, other loops' rows and all earlier evidence stay even on failure; it fails exactly on a key conflict |
| DraftSampling.Sampler.RunDrafts | src/hungerloop/services/loop_orchestrator.py:373-421 | Every draft runs on the rows of other loops alone, and its tool evidence is told apart from the others' |
| DraftSampling.Sampler.Settle | src/hungerloop/services/loop_orchestrator.py:450-457 | The settle is atomic: both tables change together or not at all |
| DraftSampling.InsertAll | src/hungerloop/repository/sqlite_repo.py:950-969 | Row inserts succeed exactly without a key conflict, and never alter a row already there |
| DraftSampling.WinnerIsBest | src/hungerloop/services/loop_orchestrator.py:423-428 | The winner could be committed whenever any draft could, and no draft of its kind precedes it in the selection order |
| DraftSampling.WinnerHasTheMost | src/hungerloop/services/loop_orchestrator.py:423-428 | The winning draft newly passes at least as many checks as any draft of its kind, with as many it fails no more, and with as many of both its evaluation id is not greater |
| DraftSampling.EvidenceAsSingleRun | src/hungerloop/services/loop_orchestrator.py:524-543 | The tool evidence a later prompt can see is what a single run of the winner leaves; all other evidence of every draft stays |
| DraftSampling.HandoffsAsSingleRunIff | src/hungerloop/services/loop_orchestrator.py:450-454 | The handoff rows are a single run's exactly when the winner needed no retry |
| MissionFile.RoundTripIff | src/hungerloop/services/mission_state_updater.py:185-268 | Parsing the rendered file gives back title, description and every phase with its ids exactly when the mission is clean, whether or not titles take several lines |
| MissionFile.RoundTripByLinesIff | src/hungerloop/services/mission_loader.py:178-224 | Where titles spell bullets of their own, the mission comes back exactly when its texts are clean and the lines of each list are read as its ids |
| MissionInjection.HiddenPhasesIff | src/hungerloop/services/mission_loader.py:145-176 | With a `## Phases` line in the description the mission comes back exactly when title and description are clean and the phases the description spells out are the mission's, whatever its own phases look like |
| MissionInjection.TitleBreakAddsAFeature | src/hungerloop/services/mission_state_updater.py:243-250 | A title with a line break in it writes the same file as a mission with one more feature, and is read as that |
| MissionInjection.ColonIdIsLost | src/hungerloop/services/mission_loader.py:30-35 | A mission whose feature id is `a:b` does not come back |
| MissionRewrite.SecondFileIff | src/hungerloop/services/mission_state_updater.py:270-303 | Write, parse, put the read ids back, write: for clean texts and arbitrary ids the second file is the first exactly when every list is settled, that is each id is read in its turn and the ids nobody reads ascend |
| MissionRewrite.ThirdFileIff | src/hungerloop/services/mission_state_updater.py:270-303 | The third file is the second exactly when no list reads an empty id of its own before another id; so one round settles the order of all non-empty ids |
| MissionRewrite.ImportSettles | src/hungerloop/services/mission_loader.py:281-340 | Merging the read ids with those of the features and assertions, as an import does, settles mission and file at once for non-empty ids |
| MissionRewrite.SettledPlainlyIff | src/hungerloop/services/mission_loader.py:205-224 | Where no bullet is read as another id of the list, settled means clean ids first and the others ascending |
| MissionRewrite.ColonMovesDown | src/hungerloop/services/mission_loader.py:30-35 | Features `a:b`, `c` are read as `a`, `c` and written next as `c`, `a:b` |
| MissionFile.FileReadsBack | src/hungerloop/services/mission_loader.py:122-224 | For clean texts and arbitrary ids, what the parser makes of the rendered file, on however many lines the bullets go on |
| MissionRoundTrip.ParseIsInRange | src/hungerloop/services/mission_loader.py:122-224 | Whatever the file, a parsed title, description and phase text has the clean form |
| MissionReadBack.BulletReadsBackIff | src/hungerloop/services/mission_loader.py:30-35 | A bullet gives its id back exactly when the id is non-empty, stripped and without a colon |
| MissionPatterns.StatusReaderIsThePattern | src/hungerloop/services/mission_loader.py:29 | However the status pattern matches a stripped line, the reader returns what it captures, stripped |
| MissionPatterns.StatusReaderMatches | src/hungerloop/services/mission_loader.py:29 | What the status reader accepts, the pattern matches |
| MissionPatterns.BulletReaderIsThePattern | src/hungerloop/services/mission_loader.py:30-35 | However a bullet pattern matches, the reader returns the captured id, stripped |
| MissionPatterns.BulletReaderMatches | src/hungerloop/services/mission_loader.py:30-35 | What the bullet reader accepts, the pattern matches |
| MissionPatterns.HeaderReaderIsThePattern | src/hungerloop/services/mission_loader.py:28 | However the phase-header pattern matches, the reader returns the captured id and the title, or the id where the title is blank |
| MissionPatterns.HeaderReaderMatches | src/hungerloop/services/mission_loader.py:28 | What the header reader accepts, the pattern matches |
| MissionReadBack.PhaseReadsBack | src/hungerloop/services/mission_loader.py:178-224 | A rendered phase block is read as its header, status, description and the ids its bullets give |
| MissionFile.FeatureIdsRead | src/hungerloop/services/mission_loader.py:205-224 | A feature list comes back exactly when its ids are clean and distinct, on however many lines the titles go on |
| MissionOrder.MergeSettles | src/hungerloop/services/mission_loader.py:336-340 | The merge holds exactly the desired ids, keeps the existing order, and repeating it changes nothing |
| MissionMirror.ParseMarkdown | src/hungerloop/services/mission_loader.py:122-127 | The loops of the loader compute `Parse` |
| MissionMirror.ParsePhases | src/hungerloop/services/mission_loader.py:145-158 | Collecting blocks line by line parses each block once, in order, and reports the first failure |
| MissionMirror.ParsePhaseBlock | src/hungerloop/services/mission_loader.py:178-224 | The line loop over a block computes the reading of the block |
| MissionMirror.SectionLines | src/hungerloop/services/mission_loader.py:161-176 | The two index loops return the lines between the header and the next section |
| MissionMirror.TrimBlankLines | src/hungerloop/services/mission_loader.py:326-333 | The two index loops drop exactly the blank lines at both ends |
| MissionMirror.ParseTitle | src/hungerloop/services/mission_loader.py:130-136 | The first non-blank top-level heading, or an error when there is none |
| HistoryCap.ApplyCap | src/hungerloop/services/context_builder.py:804-917 | The result is the least loss: the longest evidence prefix that fits, then as little clipping, then as few drops as possible; counts and sizes are reported exactly |
| HistoryCap.LeastLossIsUnique | src/hungerloop/services/context_builder.py:846-898 | At most one outcome is a least loss, so the specification determines the result |
| HistoryCap.EvictionOrder | src/hungerloop/services/context_builder.py:846-898 | Failures change only once evidence is gone; each kept line is the original, or from the clipping point on its first 119 characters and an ellipsis if it is longer than 120; protected ones are never clipped, none goes before every unprotected one is clipped, and the block fits or both lists are empty |
| HistoryCap.SectionsSay | src/hungerloop/services/prior_loop_context.py:29-81 | The block holds header, footer and exactly the kept failure and evidence lines, each list under its title |
| HistoryCap.RecentSummariesShare | src/hungerloop/services/context_builder.py:707-717 | The two recent summaries share 2000 characters, the earlier one first, and only what is over is cut, from the end |
| HistoryCap.EvictionShrinksBlock | src/hungerloop/services/prior_loop_context.py:29-81 | Each dropped line makes the rendered block strictly shorter |
| HistoryCap.DegradeFailures | src/hungerloop/services/context_builder.py:863-884 | Unprotected failure lines are clipped from the end, no more than needed, and counted |
| ReadCoverage.MergeKeepsCoverage | src/hungerloop/services/context_builder.py:657-673 | Merged ranges cover exactly the input's lines, for all inputs, in order and never touching |
| ReadCoverage.MergeDependsOnCoverage | src/hungerloop/services/context_builder.py:657-673 | For non-empty ranges two inputs merge alike exactly when they cover the same lines |
| ReadCoverage.Merge | src/hungerloop/services/context_builder.py:667-673 | The merging loop computes the specification |
| SqlSplitter.Split | src/hungerloop/repository/sqlite_migrator.py:349-401 | The index loop computes what the four-state automaton computes |
| SqlSplitter.SplitComposes | src/hungerloop/repository/sqlite_migrator.py:349-401 | Splitting distributes over `;` for every continuation exactly when the first part ends at top level |
| SqlSplitter.SplitUndoesJoin | src/hungerloop/repository/sqlite_migrator.py:349-401 | Clean statements joined by `;` and a newline split back into themselves |
| SqlSplitter.SplitOfOneStatement | src/hungerloop/repository/sqlite_migrator.py:349-401 | Exactly the stripped texts without unquoted semicolons or comments come back as one untouched statement |
| SqlSplitter.ResplitsIff | src/hungerloop/repository/sqlite_migrator.py:349-401 | Every statement of a file is one statement again when split, exactly when no comment removed from the file has the halves of a comment opener on its two sides |
| SqlSplitter.CommentRemovalFusesTokens | src/hungerloop/repository/sqlite_migrator.py:368-385 | A removed comment leaves nothing in its place, so splitting the output again can cut it |
| Migrator.SQLiteMigrator.EnsureCurrent | src/hungerloop/repository/sqlite_migrator.py:77-206 | An open applies the pending files in order up to the first failure and leaves the last good version |
| Migrator.SQLiteMigrator.ApplyOne | src/hungerloop/repository/sqlite_migrator.py:208-256 | A failing migration changes neither the schema nor the version |
| Migrator.SQLiteMigrator.ListPending | src/hungerloop/repository/sqlite_migrator.py:144-162 | Exactly the files above the current version, in ascending order |
| Migrator.PendingExactly | src/hungerloop/repository/sqlite_migrator.py:144-162 | The pending files are exactly those above the current version and up to the latest, by version and by name where versions are equal |
| Migrator.VersionNeverDecreases | src/hungerloop/repository/sqlite_migrator.py:77-206 | Over any sequence of opens the version never decreases |
| Migrator.SuccessReachesLatestIff | src/hungerloop/repository/sqlite_migrator.py:77-162 | A successful write-capable open ends at the latest version exactly when a file of that number is shipped or it was there already |
| Migrator.OpensReplayTheCatalog | src/hungerloop/repository/sqlite_migrator.py:144-206 | With a contiguous file set the applied migrations are 1..version, each once and in order, after any opens and failures |
| Migrator.OpenEndsExactly | src/hungerloop/repository/sqlite_migrator.py:77-256 | How an open by a release ends, and that a failing one stops just before the first file the fault strikes, in a statement or at its end |
| MemoryPromotion.Memory.DoAutoPromote | src/hungerloop/services/memory_manager.py:347-456 | The sweep approves and promotes exactly the candidates chosen at its start, in order |
| MemoryPromotion.SweepExactly | src/hungerloop/services/memory_manager.py:347-456 | The sweep approves and promotes exactly the unexpired proposals with reusable content whose evidence is there and all best's, from the state that is both best and the DONE run's last, and that have no memory yet |
| MemoryPromotion.Memory.DoApprove | src/hungerloop/cli/memory_cmd.py:181-265 | Approval through its gates leaves the rows of the specification |
| MemoryPromotion.VerbsExactly | src/hungerloop/cli/memory_cmd.py:181-434 | When each verb goes through, is refused or changes nothing, and the row it leaves |
| MemoryPromotion.LifeOfAMemory | src/hungerloop/cli/memory_cmd.py:181-434 | A new candidate proposed, deferred, approved by force and expired leaves one expired row and one memory, whatever else is there |
| MemoryPromotion.RunsKeepConsistent | src/hungerloop/repository/in_memory_repo.py:882-889 | Under any order of whole verbs each candidate has at most one memory, an approved one has one, and a memory's candidate is approved or expired |
| MemoryPromotion.LateWriteConsistentIff | src/hungerloop/cli/memory_cmd.py:170-434 | A verb that writes on an earlier read keeps this exactly if it approves or expires, or no memory of the candidate was made in between |
| MemoryPromotion.LateWriteForwardIff | src/hungerloop/cli/memory_cmd.py:170-434 | It takes no decision back exactly if the row as it is now could still move to the new state |
| MemoryPromotion.LateRejectTakesApprovalBack | src/hungerloop/cli/memory_cmd.py:290-333 | One reviewer reads a candidate to reject it, another approves it, the first writes: its memory stays behind a rejected candidate |
| MemoryPromotion.SecondSweepIsEmpty | src/hungerloop/services/memory_manager.py:392-410 | A repeated sweep with nothing changed in between makes nothing and changes nothing |
| MemoryPromotion.RunsMoveForward | src/hungerloop/cli/memory_cmd.py:181-434 | No memory disappears and no decision is taken back: decided candidates can only expire, expired ones stay |
| TaskLock.LockTable.AcquireTaskLock | src/hungerloop/repository/in_memory_repo.py:1205-1254 | Free, re-entrant, live, stale and stolen acquisition, and the row each leaves |
| TaskLock.AcquireExactly | src/hungerloop/repository/in_memory_repo.py:1205-1254 | Each answer by owner, age and force: stale from the threshold on, and only a free or stolen lock changes the row |
| TaskLock.LockTable.ReleaseTaskLock | src/hungerloop/repository/in_memory_repo.py:1256-1263 | Only the recorded owner's release frees the row |
| TaskLock.RunsAreExclusive | src/hungerloop/repository/in_memory_repo.py:1197-1263 | Over any run that abandons no re-entrant claim, two processes never both hold the lock |
| TaskLock.ReentryBreaksExclusion | src/hungerloop/repository/in_memory_repo.py:1217-1263 | For any owners: enter twice, leave once, and another process gets the lock as well |
| TaskLock.OwnerStays | src/hungerloop/repository/in_memory_repo.py:1205-1263 | A recorded owner goes only by its own release or a steal by another process |
| TaskLock.ThiefKeepsLock | src/hungerloop/repository/in_memory_repo.py:1231-1263 | A steal takes every earlier claim, and no displaced owner's release frees the thief's lock |
| TaskLock.HeadOfOwner | src/hungerloop/repository/in_memory_repo.py:1197-1203 | The comparison sees only host and process of an owner string |

## Left out

- Mission loops inside `Step`: loops of tasks with a mission are not run as a whole. Their commit (features,
  regeneration, rollback) is in `CommitManager` and their phases and stops are in `HungerEngine`; the
  validation-only path updates the ledger without best (src/hungerloop/services/loop_orchestrator.py:2109-2146),
  so the agreement of ledger and best does not hold there.
- Check synthesis (pending baselines, conflicts, quarantine, post-commit synthesis) and memory proposal inside a
  loop; `MemoryPromotion` takes proposals as given.
- Item ids with a colon in loops: `Sound` asks for ids without one, as compilers make them; what goes wrong
  otherwise is `CheckKeys.ItemIdOfCheckKey`. Compiled and proposed items enter open, at gap 1, with new ids; a
  compiler that produced anything else is not modelled.
- More than one assignment per loop: the rule-based planner makes one; mission plans are out with missions.
- Planner cycles, kills between any other two writes than those of `Interrupted`, and exceptions inside draft
  sampling other than key conflicts.
- Other tasks that write while a loop is under way: their rows come in between loops.
- What a check says: a check is its item and index, so that a row of another task with as many checks and the
  same rule keeps the agreement of keys and gaps, although its checks are not this task's.
- Events no property uses, trace fields no property uses, and the sorted order of report key lists.
- SQLite itself, JSON, YAML, Pydantic, subprocess sandboxes and real file trees; a workspace is the id of the
  candidate whose files are live. Of the database backup only its failure to matter is modelled: it is not.
- The equality of the in-memory and the SQLite repository; the model follows SQLite where they differ, and asks
  that drawn identifiers be new.
- `int()` on non-ASCII digits in check keys.
- Float rounding in the loop itself: loops use `real`; `HungerUpdate.SatisfiedExactlyAtTheEnd` bounds the effect.
- Read-coverage text: grouping by path and the rendered fragments; only the merging of ranges is modelled.
- Other prompt shaping (recalled memories, workspace file lists, oldest-line clipping) and secret scrubbing.
- The other artifacts of `regenerate` (feature, contract and service YAML) and the atomic file writes.
- MissionFile.RoundTripIff: assumes plain one-line statuses, and that what a bullet says after its first line is read as
  nothing; `MissionFile.RoundTripByLinesIff` covers lines read as bullets, `MissionInjection.RoundTripExactly` descriptions
  with a line reading `## Phases`. Titles that spell a status, a list marker, a phase header or a section are not covered.
- MissionRewrite.SecondFileIff: for clean texts, titles as in `MissionFile.RoundTripIff`, and one-line ids, each feature and
  assertion id used once in its phase.
- MissionRewrite.ImportSettles: assumes no empty id; with one, `MissionRewrite.ThirdFileIff` shows how it can move.
- Runs.RunsKeepSound: for runs in which no other task writes a newer row of an id of ours; `SharedRows.RunAgreesIff`
  shows that nothing less will do.
- CreditRuns.CreditsOverRuns: for such runs too: a blocker can write another task's row, with another proposer, over the
  ledger's entry.
- LoopCommits.LoopCommitsIff: for tasks whose ids no other task has a newer row of; `LoopCommits.CommitBreaksNothingOwned`
  holds in any case.
- Orchestrator.StepKeepsSound: for tasks without a mission whose ledger lists no id twice and none with a colon.
- ValidationGate.Validate: assumes a ledger that lists no id twice and no target named twice, as compilers and the
  planner make them.
- DraftSampling.Sampler.Sample: assumes the handoff rows of a worker pass carry the id of the loop that ran it.
- DraftSampling.EvidenceAsSingleRun: a single run of the winner means the pass the winner made; drafts share the
  assignment's retry count, so a pass after one that retried had fewer retries left than it would have had alone.
- DraftSampling.HandoffsAsSingleRunIff: a single run of the winner means the pass the winner made, as above.
- MemoryPromotion.RunsKeepConsistent: assumes that drawn candidate and memory ids are new; a clash would overwrite a row.
- HungerEngine.BudgetNeverRises: assumes a positive duration for timed decay and a non-negative initial hunger; with a
  zero duration linear decay divides by zero (`RawBudget` is `None` there).
- HistoryCap.ApplyCap: assumes as many evidence ids as evidence lines, as the one caller passes them.
- Cockpit, CLI output, reports, cost and budget guards, agent registry, integrator and worker scheduling.
