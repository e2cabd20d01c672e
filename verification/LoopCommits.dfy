// When a loop of loop_orchestrator.LoopOrchestrator moves best, and what it leaves behind, in terms of the checks,
// the rows and the policy alone.
module LoopCommits {
  import opened Domain
  import opened CheckKeys
  import opened Ordering
  import opened Repository
  import opened RefactorTransactions
  import opened ValidationGate
  import opened GateCoverage
  import opened Orchestrator
  import opened Runs
  import opened Traces
  import CommitManager
  import HungerUpdate
  import Planner
  import Stagnation

  /** The check passes its first run, or all the reruns that follow a failed one. */
  predicate Holds(k: string, reruns: int, runner: Runner) {
    runner(k, 0).passed || (reruns > 0 && forall r :: 1 <= r <= reruns ==> runner(k, r).passed)
  }

  lemma HoldsIff(k: string, reruns: int, runner: Runner)
    ensures Holds(k, reruns, runner) <==> !FailsForGood(k, reruns, runner)
  {
  }

  // ---- what the gate finds in a loop -----------------------------------------------------------

  /** The loop's tree is one whose verdict is known: best's own, or that of a rejected candidate carried on
      without a transaction. */
  predicate KnownTree(db: Db, continued: bool, w: World) {
    w.sameTree && (w.startedFromBest || (continued && !(db.txn.Some? && db.txn.value.status == TxnOpen)))
  }

  /** Evidence the candidate brings or some run of the loop's checks leaves. */
  ghost predicate HasEvidence(db: Db, item: HungerItem, w: World) {
    || w.candidateEvidence != []
    || exists k, e :: (k in KeysOf(item) || k in BestKeys(db))
                      && Leaves(k, e, BestKeys(db), db.policy.regressionConfirmReruns, w.runner)
  }

  lemma OwnKeys(db: Db, item: HungerItem, k: string)
    requires Keyed(RowsOf(db)) && Find(RowsOf(db), item.id) == Some(item)
    ensures OfTarget(k, RowsOf(db), [item.id]) <==> k in KeysOf(item)
  {
  }

  lemma OwnedKeys(db: Db, item: HungerItem, k: string)
    requires Keyed(RowsOf(db)) && Find(RowsOf(db), item.id) == Some(item) && DistinctIds(db.items) && ReadableIds(db.items)
    requires KeysOwned(db) && k in BestKeys(db) && item in db.items
    ensures OfTarget(k, RowsOf(db), [item.id]) || OfOther(k, RowsOf(db), [item.id])
  {
    var n :| 0 <= n < |db.items| && k in KeysOf(db.items[n]);
    var t :| 0 <= t < |db.items| && db.items[t] == item;
    if db.items[n].id == item.id {
      OwnKeys(db, item, k);
    } else {
      var i :| 0 <= i < db.items[n].checks && k == MakeCheckKey(db.items[n].id, i);
      assert db.items[n] in RowsOf(db).ledger;
    }
  }

  /** The gate's report on the planned item: what newly passes, what regressed, and whether evidence is missing. */
  lemma ReportInLoop(db: Db, loopId: nat, item: HungerItem, w: World)
    requires Keyed(RowsOf(db)) && Find(RowsOf(db), item.id) == Some(item) && DistinctIds(db.items) && ReadableIds(db.items)
    requires KeysOwned(db) && item in db.items
    ensures
      var rep := GateReport(RowsOf(db), CandidateOf(loopId, w), [item.id], BestKeys(db), db.policy, w.runner);
      && (forall k :: k in rep.newly <==> k in KeysOf(item) && k !in BestKeys(db) && w.runner(k, 0).passed)
      && (rep.newly != [] ==>
            && (forall k :: k in rep.regressed <==> k in BestKeys(db) && !Holds(k, db.policy.regressionConfirmReruns, w.runner))
            && (rep.missingEvidence <==> !HasEvidence(db, item, w)))
  {
    var (rows, best, reruns) := (RowsOf(db), BestKeys(db), db.policy.regressionConfirmReruns);
    var rep := GateReport(rows, CandidateOf(loopId, w), [item.id], best, db.policy, w.runner);
    NewlyExactly(rows, CandidateOf(loopId, w), [item.id], best, db.policy, w.runner);
    RegressedExactly(rows, CandidateOf(loopId, w), [item.id], best, db.policy, w.runner);
    EvidenceExactly(rows, CandidateOf(loopId, w), [item.id], best, db.policy, w.runner);
    hide GateReport;
    forall k
      ensures OfTarget(k, rows, [item.id]) <==> k in KeysOf(item)
      ensures NewlyPasses(k, rows, [item.id], best, w.runner) <==> k in KeysOf(item) && k !in best && w.runner(k, 0).passed
      ensures k in best ==> OfTarget(k, rows, [item.id]) || OfOther(k, rows, [item.id])
      ensures Holds(k, reruns, w.runner) <==> !FailsForGood(k, reruns, w.runner)
    {
      OwnKeys(db, item, k);
      HoldsIff(k, reruns, w.runner);
      if k in best { OwnedKeys(db, item, k); }
    }
    if rep.newly != [] {
      var n := rep.newly[0];
      assert n in rep.newly;
      assert OfTarget(n, rows, [item.id]) && n !in best && w.runner(n, 0).passed;
      assert Rechecks(rows, [item.id], best, db.policy, w.runner);
      hide OfTarget, OfOther, Rechecks, NewlyPasses, Holds, FailsForGood, KeysOf;
      forall k ensures IsRun(k, rows, [item.id], best, db.policy, w.runner) <==> k in KeysOf(item) + best {
      }
      hide IsRun, Leaves;
      EvidenceInLoop(db, item, w, rep, [item.id]);
    }
  }

  lemma EvidenceInLoop(db: Db, item: HungerItem, w: World, rep: Report, ids: seq<string>)
    requires forall k :: IsRun(k, RowsOf(db), ids, BestKeys(db), db.policy, w.runner) <==> k in KeysOf(item) + BestKeys(db)
    requires forall e :: e in rep.evidenceIds <==>
               || e in w.candidateEvidence
               || exists k :: IsRun(k, RowsOf(db), ids, BestKeys(db), db.policy, w.runner)
                              && Leaves(k, e, BestKeys(db), db.policy.regressionConfirmReruns, w.runner)
    requires rep.missingEvidence <==> rep.evidenceIds == []
    ensures rep.missingEvidence <==> !HasEvidence(db, item, w)
  {
    hide IsRun, Leaves, KeysOf;
    if rep.evidenceIds != [] { assert rep.evidenceIds[0] in rep.evidenceIds; }
    if w.candidateEvidence != [] { assert w.candidateEvidence[0] in rep.evidenceIds; }
    if k, e :| (k in KeysOf(item) || k in BestKeys(db))
               && Leaves(k, e, BestKeys(db), db.policy.regressionConfirmReruns, w.runner) {
      assert k in KeysOf(item) + BestKeys(db);
      assert IsRun(k, RowsOf(db), ids, BestKeys(db), db.policy, w.runner);
      assert e in rep.evidenceIds;
    }
  }

  // ---- when a loop commits -----------------------------------------------------------------------

  /** The loop's candidate may become best: its verdict is not known beforehand, its assignment was not skipped and its
      validation not stopped; it passes a check of the item that was open, breaks nothing best holds, brings evidence
      and can be promoted. */
  ghost predicate Deserves(db: Db, item: HungerItem, continued: bool, w: World) {
    && !KnownTree(db, continued, w) && !w.validationSafetyStop && !w.skipped
    && (exists k :: k in KeysOf(item) && k !in BestKeys(db) && w.runner(k, 0).passed)
    && (forall k :: k in BestKeys(db) ==> Holds(k, db.policy.regressionConfirmReruns, w.runner))
    && HasEvidence(db, item, w)
    && w.files != CommitManager.PromoteRaises
  }

  lemma SoundParts(db: Db, item: HungerItem)
    requires Sound(db) && item in db.items
    ensures !db.hasMission && DistinctIds(db.items) && ReadableIds(db.items) && Keyed(RowsOf(db)) && KeysOwned(db)
    ensures ':' !in item.id && Find(RowsOf(db), item.id) == Some(item) && (item.status != CLOSED ==> TargetOpen(db, item.id))
  {
    FoundIsOwn(db, item.id);
    var i :| 0 <= i < |db.items| && db.items[i] == item;
  }

  lemma UnknownTreeReport(db: Db, loopId: nat, target: string, continued: bool, w: World)
    ensures KnownTree(db, continued, w) ==> ReportOf(db, loopId, target, continued, w).newly == []
    ensures !KnownTree(db, continued, w) ==>
              ReportOf(db, loopId, target, continued, w)
              == GateReport(RowsOf(db), CandidateOf(loopId, w), if w.skipped then [] else [target], BestKeys(db), db.policy, w.runner)
    ensures KnownTree(db, continued, w) == Redundant(db, continued, w)
  {
    hide GateReport;
  }

  /** The commit rule on the loop's report, given what the gate finds. */
  lemma ReportCommitsIff(db: Db, loopId: nat, item: HungerItem, continued: bool, w: World)
    requires Sound(db) && item in db.items && item.status != CLOSED && (KnownTree(db, continued, w) || !w.validationSafetyStop)
    ensures var rep := ReportOf(db, loopId, item.id, continued, w);
            Gated(rep, db, item.id)
            && (CommitManager.CanCommit(rep, db.policy, None) && w.files != CommitManager.PromoteRaises
                <==> Deserves(db, item, continued, w))
  {
    SoundParts(db, item);
    ReportIsGated(db, loopId, item.id, continued, w);
    UnknownTreeReport(db, loopId, item.id, continued, w);
    hide Sound, Gated, ReportOf, KnownTree, GateReport, HasEvidence, Holds;
    if !KnownTree(db, continued, w) {
      if w.skipped { SkippedCommitsNothing(db, loopId, w); } else { AttemptCommitsIff(db, loopId, item, w); }
    }
  }

  lemma SkippedCommitsNothing(db: Db, loopId: nat, w: World)
    requires Keyed(RowsOf(db))
    ensures !CommitManager.CanCommit(GateReport(RowsOf(db), CandidateOf(loopId, w), [], BestKeys(db), db.policy, w.runner), db.policy, None)
  {
    NewlyExactly(RowsOf(db), CandidateOf(loopId, w), [], BestKeys(db), db.policy, w.runner);
    NothingTried(db, w);
    var rep := GateReport(RowsOf(db), CandidateOf(loopId, w), [], BestKeys(db), db.policy, w.runner);
    hide GateReport, NewlyPasses;
    SomeMember(rep.newly);
  }

  lemma SomeMember(keys: seq<string>)
    ensures keys == [] || exists k :: k in keys
  {
    if keys != [] { assert keys[0] in keys; }
  }

  lemma AttemptCommitsIff(db: Db, loopId: nat, item: HungerItem, w: World)
    requires Keyed(RowsOf(db)) && Find(RowsOf(db), item.id) == Some(item) && DistinctIds(db.items) && ReadableIds(db.items)
    requires KeysOwned(db) && item in db.items
    ensures CommitManager.CanCommit(GateReport(RowsOf(db), CandidateOf(loopId, w), [item.id], BestKeys(db), db.policy, w.runner),
                                    db.policy, None)
            <==> (exists k :: k in KeysOf(item) && k !in BestKeys(db) && w.runner(k, 0).passed)
                 && (forall k :: k in BestKeys(db) ==> Holds(k, db.policy.regressionConfirmReruns, w.runner))
                 && HasEvidence(db, item, w)
  {
    GateReportAgainstBaseline(RowsOf(db), CandidateOf(loopId, w), [item.id], BestKeys(db), db.policy, w.runner);
    ReportInLoop(db, loopId, item, w);
    var rep := GateReport(RowsOf(db), CandidateOf(loopId, w), [item.id], BestKeys(db), db.policy, w.runner);
    hide GateReport, HasEvidence, Holds, KeysOf;
    if rep.newly != [] { assert rep.newly[0] in rep.newly; }
    if rep.regressed != [] { assert rep.regressed[0] in rep.regressed; }
  }

  lemma NothingTried(db: Db, w: World)
    ensures forall k :: !NewlyPasses(k, RowsOf(db), [], BestKeys(db), w.runner)
  {
  }

  /** A validated loop moves best exactly if its candidate deserves it. */
  lemma ValidateCommitsIff(db: Db, loopId: nat, item: HungerItem, continued: bool, w: World, limits: Stagnation.Limits)
    requires Sound(db) && item in db.items && item.status != CLOSED
    ensures var after := Orchestrator.Validate(db, loopId, item.id, continued, w, limits).0;
            after.best != db.best <==> Deserves(db, item, continued, w)
  {
    var rep := ReportOf(db, loopId, item.id, continued, w);
    SoundParts(db, item);
    UnknownTreeReport(db, loopId, item.id, continued, w);
    if KnownTree(db, continued, w) || !w.validationSafetyStop {
      ReportCommitsIff(db, loopId, item, continued, w);
      DecisionOfLoop(db, loopId, rep, item.id, w);
      BestAfterLoop(db, loopId, item.id, rep, w, limits);
      if CommitManager.CanCommit(rep, db.policy, None) { CommitIsStrict(db, loopId, rep, item.id, w); }
    }
    hide Sound, Gated, ReportOf, Deserves, Settle, CommitManager.Applied, CommitManager.CanCommit, TargetOpen;
  }

  // ---- the same for a whole loop -----------------------------------------------------------------

  /** Loops that never get to validation leave best alone. */
  lemma UnreadyKeepsBest(db: Db, w: World, limits: Stagnation.Limits)
    requires Books(db)
    requires var b := Begin(db, w, limits); b.Halted? || Work(b.db, b.loopId, w).WorkerHalted?
    ensures Step(db, w, limits).0.best == db.best
  {
    BeginAdvances(db, w, limits);
    BeginKept(db, w, limits);
    var b := Begin(db, w, limits);
    if b.Begun? { WorkGrows(b.db, b.loopId, w, b.target); }
    hide Begin, Work, Grown, Advanced, Books, Kept;
  }

  /** The state a loop validates in: its ledger after planning and handoffs, and the item it was planned for. */
  lemma ReadyState(db: Db, w: World, limits: Stagnation.Limits) returns (item: HungerItem)
    requires Sound(db)
    requires var b := Begin(db, w, limits); b.Begun? && Work(b.db, b.loopId, w).Ready?
    ensures var b := Begin(db, w, limits);
            var ready := Work(b.db, b.loopId, w).db;
            && Sound(ready) && item in ready.items && item.id == b.target && item.status != CLOSED
            && ready.best == db.best && ready.policy == db.policy
            && Step(db, w, limits) == Orchestrator.Validate(ready, b.loopId, b.target, b.continued, w, limits)
  {
    BeginKept(db, w, limits);
    BeginAdvances(db, w, limits);
    var b := Begin(db, w, limits);
    WorkKept(b.db, b.loopId, w, b.target);
    WorkGrows(b.db, b.loopId, w, b.target);
    var ready := Work(b.db, b.loopId, w).db;
    hide Begin, Work, Grown, Advanced, Books, Clear, Agreed;
    var n :| 0 <= n < |ready.items| && ready.items[n].id == b.target && ready.items[n].status != CLOSED;
    item := ready.items[n];
  }

  /** A loop moves best exactly if it gets to validation and its candidate deserves it. */
  lemma LoopCommitsIff(db: Db, w: World, limits: Stagnation.Limits)
    requires Sound(db)
    ensures Step(db, w, limits).0.best != db.best <==>
            var b := Begin(db, w, limits);
            b.Begun? && Work(b.db, b.loopId, w).Ready?
            && exists item :: item in Work(b.db, b.loopId, w).db.items && item.id == b.target
                              && Deserves(Work(b.db, b.loopId, w).db, item, b.continued, w)
  {
    var b := Begin(db, w, limits);
    if b.Begun? && Work(b.db, b.loopId, w).Ready? {
      var item := ReadyState(db, w, limits);
      var ready := Work(b.db, b.loopId, w).db;
      ValidateCommitsIff(ready, b.loopId, item, b.continued, w, limits);
      OneItemPerId(ready, item);
      hide Begin, Work, Step, Sound, Deserves, Orchestrator.Validate;
    } else {
      UnreadyKeepsBest(db, w, limits);
      hide Begin, Work, Step, Sound, Deserves;
    }
  }

  lemma OneItemPerId(db: Db, item: HungerItem)
    requires Sound(db) && item in db.items
    ensures forall other :: other in db.items && other.id == item.id ==> other == item
  {
    forall other | other in db.items && other.id == item.id ensures other == item {
      var i :| 0 <= i < |db.items| && db.items[i] == item;
      var j :| 0 <= j < |db.items| && db.items[j] == other;
    }
  }

  lemma ValidateGains(db: Db, loopId: nat, item: HungerItem, continued: bool, w: World, limits: Stagnation.Limits)
    requires Sound(db) && item in db.items && item.status != CLOSED
    requires Orchestrator.Validate(db, loopId, item.id, continued, w, limits).0.best != db.best
    ensures var after := Orchestrator.Validate(db, loopId, item.id, continued, w, limits).0;
            forall k :: k in BestKeys(after) <==> k in BestKeys(db) || (k in KeysOf(item) && w.runner(k, 0).passed)
  {
    var rep := ReportOf(db, loopId, item.id, continued, w);
    SoundParts(db, item);
    UnknownTreeReport(db, loopId, item.id, continued, w);
    ValidateCommitsIff(db, loopId, item, continued, w, limits);
    ReportCommitsIff(db, loopId, item, continued, w);
    BestAfterLoop(db, loopId, item.id, rep, w, limits);
    DecisionOfLoop(db, loopId, rep, item.id, w);
    ReportInLoop(db, loopId, item, w);
    CommitIsStrict(db, loopId, rep, item.id, w);
    GatedAgainst(rep, db, item.id);
    assert Elements(rep.regressed) == {};
    hide Sound, Gated, ReportOf, Settle, GateReport, CommitManager.Applied, CommitManager.CanCommit, TargetOpen, KnownTree;
    forall k ensures k in rep.current <==> k in BestKeys(db) || (k in KeysOf(item) && w.runner(k, 0).passed) {
      assert k in Elements(rep.newly) <==> k in rep.newly;
    }
  }

  /** A commit means that all best now holds passed on this very candidate: what was accepted before its first run
      or all its reruns, what is new its first run; and best gains exactly the planned item's checks that pass. */
  lemma CommitMeansAllHolds(db: Db, w: World, limits: Stagnation.Limits)
    requires Sound(db) && Step(db, w, limits).0.best != db.best
    ensures var (after, b) := (Step(db, w, limits).0, Begin(db, w, limits));
            && b.Begun?
            && (forall k :: k in BestKeys(after) ==> Holds(k, db.policy.regressionConfirmReruns, w.runner))
            && exists item :: item in Work(b.db, b.loopId, w).db.items && item.id == b.target
                 && forall k :: k in BestKeys(after) <==> k in BestKeys(db) || (k in KeysOf(item) && w.runner(k, 0).passed)
  {
    LoopCommitsIff(db, w, limits);
    var b := Begin(db, w, limits);
    var item := ReadyState(db, w, limits);
    var ready := Work(b.db, b.loopId, w).db;
    ValidateCommitsIff(ready, b.loopId, item, b.continued, w, limits);
    ValidateGains(ready, b.loopId, item, b.continued, w, limits);
    hide Begin, Work, Step, Sound, Orchestrator.Validate, HasEvidence;
    assert BestKeys(ready) == BestKeys(db);
  }

  /** What is checked again does not need an undisturbed task: the item's own row, and an accepted key of it. */
  lemma OwnKeyIsChecked(db: Db, target: string, item: HungerItem, k: string)
    requires Books(db) && item in db.items && item.id !in db.others && k in KeysOf(item)
    ensures OfTarget(k, RowsOf(db), [target]) || OfOther(k, RowsOf(db), [target])
  {
    var n :| 0 <= n < |db.items| && db.items[n] == item;
    var i :| 0 <= i < item.checks && k == MakeCheckKey(item.id, i);
    FindFacts(RowsOf(db), item.id);
    assert item in RowsOf(db).ledger;
  }

  lemma OwnKeyHolds(db: Db, loopId: nat, target: string, continued: bool, w: World, limits: Stagnation.Limits,
                    item: HungerItem, k: string)
    requires Books(db) && TargetOpen(db, target)
    requires Orchestrator.Validate(db, loopId, target, continued, w, limits).0.best != db.best
    requires item in db.items && item.id !in db.others && k in KeysOf(item) && k in BestKeys(db)
    ensures Holds(k, db.policy.regressionConfirmReruns, w.runner)
  {
    var rep := ReportOf(db, loopId, target, continued, w);
    ReportIsGated(db, loopId, target, continued, w);
    TargetIsReadable(db, target);
    BestAfterLoop(db, loopId, target, rep, w, limits);
    DecisionOfLoop(db, loopId, rep, target, w);
    CommitIsStrict(db, loopId, rep, target, w);
    UnknownTreeReport(db, loopId, target, continued, w);
    OwnKeyIsChecked(db, target, item, k);
    HoldsIff(k, db.policy.regressionConfirmReruns, w.runner);
    var ids := if w.skipped then [] else [target];
    BooksParts(db);
    assert Keyed(RowsOf(db));
    NewlyExactly(RowsOf(db), CandidateOf(loopId, w), ids, BestKeys(db), db.policy, w.runner);
    RegressedExactly(RowsOf(db), CandidateOf(loopId, w), ids, BestKeys(db), db.policy, w.runner);
    hide Books, Gated, ReportOf, Settle, GateReport, CommitManager.Applied, CommitManager.CanCommit, TargetOpen, KnownTree, Holds,
         FailsForGood, OfOther;
    var n := rep.newly[0];
    assert n in rep.newly;
    assert NewlyPasses(n, RowsOf(db), ids, BestKeys(db), w.runner);
    assert OfTarget(n, RowsOf(db), ids);
    assert Rechecks(RowsOf(db), ids, BestKeys(db), db.policy, w.runner);
  }

  /** Whatever other tasks write: a commit means that every accepted key of a ledger item no other task's row
      stands in for passed its first run or all its reruns. */
  lemma CommitBreaksNothingOwned(db: Db, w: World, limits: Stagnation.Limits)
    requires Books(db) && Step(db, w, limits).0.best != db.best
    ensures var b := Begin(db, w, limits);
            && b.Begun?
            && var ready := Work(b.db, b.loopId, w).db;
               forall item, k :: item in ready.items && item.id !in ready.others && k in KeysOf(item) && k in BestKeys(db) ==>
                 Holds(k, db.policy.regressionConfirmReruns, w.runner)
  {
    var b := Begin(db, w, limits);
    if b.Halted? || Work(b.db, b.loopId, w).WorkerHalted? { UnreadyKeepsBest(db, w, limits); }
    BeginKept(db, w, limits);
    BeginAdvances(db, w, limits);
    WorkKept(b.db, b.loopId, w, b.target);
    WorkGrows(b.db, b.loopId, w, b.target);
    var ready := Work(b.db, b.loopId, w).db;
    assert Step(db, w, limits) == Orchestrator.Validate(ready, b.loopId, b.target, b.continued, w, limits);
    hide Begin, Work, Step, Books, Orchestrator.Validate, Grown, Advanced, Clear, Sound, TargetOpen;
    assert BestKeys(ready) == BestKeys(db);
    forall item, k | item in ready.items && item.id !in ready.others && k in KeysOf(item) && k in BestKeys(db)
      ensures Holds(k, db.policy.regressionConfirmReruns, w.runner)
    {
      OwnKeyHolds(ready, b.loopId, b.target, b.continued, w, limits, item, k);
    }
  }

  // ---- what a decided loop leaves behind ---------------------------------------------------------

  /** The streak, the outcome and the transaction after a decision. */
  lemma FinishLeaves(db: Db, loopId: nat, eff: Report, committed: bool, active: Option<Transaction>, w: World, limits: Stagnation.Limits)
    requires committed == eff.hasRealProgress && (!committed ==> eff.newly == [])
    ensures
      var (after, outcome) := Finish(db, loopId, eff, committed, active, w, limits);
      && after.streak == (if committed then 0 else db.streak + 1) && after.candidates == db.candidates
      && outcome == (if !committed && db.policy.respectStagnation && db.streak + 1 >= limits.maxNoProgress
                     then Stop(STOP_BLOCKED) else Continue)
      && (db.policy.refactorEnabled && w.txnFilesOk && IsOpen(after) ==> loopId < after.txn.value.deadlineLoop)
  {
    var judged := Stagnation.Updated(db, eff, committed, active, loopId, limits).0;
    if !committed { AutoOpenNeverFires(judged.policy, eff, PreviousCandidateTrace(judged, loopId)); }
    hide Stagnation.Judged, AutoOpenKeys, PreviousCandidateTrace, CloseTxn;
    assert AutoOpened(judged, loopId, eff, committed, w) == judged;
    hide AutoOpened, OpenTxn, SettleIfDue;
    NoneOverdue(judged, loopId, w.txnFilesOk);
  }

  lemma NoneOverdue(db: Db, loopId: int, restoreOk: bool)
    ensures var after := SettleIfDue(db, loopId, restoreOk);
            && after == db.(txn := after.txn, best := after.best)
            && (db.policy.refactorEnabled && restoreOk && IsOpen(after) ==> loopId < after.txn.value.deadlineLoop)
  {
    CloseFrame(db, restoreOk);
    if IsOpen(db) && db.policy.refactorEnabled { ClosesExactly(db, restoreOk); }
    SettlesExactly(db, loopId, restoreOk);
    hide CloseTxn;
  }

  ghost predicate Decides(db: Db, loopId: nat, rep: Report, w: World) {
    DecisionOn(db, loopId, rep, w).Decided?
  }

  /** A decided loop leaves a trace that says whether it committed, what best gained and what regressed; the candidate's
      status says the same. The streak starts anew or grows, the loop stops BLOCKED exactly when it completes the streak, and no
      transaction stays open past its deadline. */
  lemma {:induction false} DecidedLoopLeaves(db: Db, loopId: nat, target: string, rep: Report, w: World, limits: Stagnation.Limits)
    requires Books(db) && TargetOpen(db, target) && Gated(rep, db, target) && Decides(db, loopId, rep, w)
    requires rep.hasRealProgress <==> rep.newly != []
    ensures
      var (after, outcome) := Settle(db, loopId, rep, w, limits);
      var committed := after.best != db.best;
      && after.traces == db.traces[loopId := Trace(loopId, Some("CAND-" + Decimal(loopId)), committed,
                                                   if committed then rep.newly else [], rep.regressed, None)]
      && ("CAND-" + Decimal(loopId) in db.candidates ==>
            && "CAND-" + Decimal(loopId) in after.candidates
            && after.candidates["CAND-" + Decimal(loopId)] == if committed then Committed else Rejected)
      && after.streak == (if committed then 0 else db.streak + 1)
      && outcome == (if !committed && db.policy.respectStagnation && db.streak + 1 >= limits.maxNoProgress
                     then Stop(STOP_BLOCKED) else Continue)
      && (db.policy.refactorEnabled && w.txnFilesOk && IsOpen(after) ==> loopId < after.txn.value.deadlineLoop)
  {
    BooksParts(db);
    TargetIsReadable(db, target);
    SettleCases(db, loopId, target, rep, w, limits);
    BestAfterLoop(db, loopId, target, rep, w, limits);
    var d := DecisionOn(db, loopId, rep, w);
    if d.committed {
      DecisionOfLoop(db, loopId, rep, target, w);
      CommitIsStrict(db, loopId, rep, target, w);
      var updated := CommittedAndUpdated(db, loopId, rep, w);
      FinishLeaves(updated, loopId, rep, true, ActiveOf(db), w, limits);
      FinishTrace(updated, loopId, rep, true, ActiveOf(db), w, limits);
      CommittedFields(db, loopId, rep, w);
    } else {
      var rejected := CommitManager.RejectedDb(db, CandidateOf(loopId, w));
      FinishLeaves(rejected, loopId, Effective(rep, d), false, ActiveOf(db), w, limits);
      FinishTrace(rejected, loopId, Effective(rep, d), false, ActiveOf(db), w, limits);
      EffectiveFields(rep, d);
    }
    hide Finish, Settle, Books, Gated, TargetOpen, CommitManager.Applied, CommittedAndUpdated, Effective, CommitManager.CanCommit;
  }

  lemma CommittedFields(db: Db, loopId: nat, rep: Report, w: World)
    ensures var after := CommittedAndUpdated(db, loopId, rep, w);
            && after.streak == db.streak && after.policy == db.policy && after.traces == db.traces
            && after.candidates == SetStatus(db.candidates, CandidateId(loopId), Committed)
  {
    hide CommitManager.Credits, HungerUpdate.UpdatedItems;
  }

  lemma EffectiveFields(rep: Report, d: CommitManager.Decision)
    requires d.Decided? && !d.committed
    ensures Effective(rep, d).attempted == rep.attempted
    ensures Effective(rep, d).verdict == d.verdict && Effective(rep, d).satisfied == []
    ensures Effective(rep, d).regressed == rep.regressed && Effective(rep, d).newly == [] && !Effective(rep, d).hasRealProgress
  {
  }

  /** Checks of the item regressed, and an open transaction the policy allows declares every one of them. */
  ghost predicate Excused(db: Db, rep: Report, id: string) {
    && (exists k :: k in rep.regressed && ItemIdOf(k) == id)
    && db.policy.refactorEnabled && db.txn.Some? && db.txn.value.status == TxnOpen
    && forall k :: k in rep.regressed && ItemIdOf(k) == id ==> k in db.txn.value.declared
  }

  /** A rejected loop counts a failure against exactly the open items it attempted and that are not excused, and blocks
      what reaches the limit; nothing else about any item changes. */
  lemma RejectionCountsExactly(db: Db, loopId: nat, target: string, rep: Report, w: World, limits: Stagnation.Limits, i: nat)
    requires Books(db) && TargetOpen(db, target) && Gated(rep, db, target) && Decides(db, loopId, rep, w)
    requires Settle(db, loopId, rep, w, limits).0.best == db.best && i < |db.items|
    ensures
      var (item, items) := (db.items[i], Settle(db, loopId, rep, w, limits).0.items);
      var tried := item.id in rep.attempted && item.status !in {CLOSED, VALIDATED_SATISFIED};
      var failures := if tried && !Excused(db, rep, item.id) then item.failures + 1 else item.failures;
      && |items| == |db.items|
      && items[i] == item.(failures := failures,
                           status := if tried && db.policy.respectStagnation && failures >= limits.maxItemFailures
                                     then BLOCKED else item.status)
  {
    BooksParts(db);
    TargetIsReadable(db, target);
    SettleCases(db, loopId, target, rep, w, limits);
    BestAfterLoop(db, loopId, target, rep, w, limits);
    var d := DecisionOn(db, loopId, rep, w);
    if d.committed { CommittedMovesBest(db, loopId, target, rep, w); }
    hide Settle, Books, Gated, TargetOpen, CommitManager.Applied, Effective, Excused, Finish, DecisionOn;
    EffectiveFields(rep, d);
    RejectedJudges(db, loopId, Effective(rep, d), rep, w, limits, i);
  }

  lemma RejectedJudges(db: Db, loopId: nat, eff: Report, rep: Report, w: World, limits: Stagnation.Limits, i: nat)
    requires i < |db.items| && eff.attempted == rep.attempted && eff.regressed == rep.regressed
    ensures
      var (item, items) := (db.items[i], Finish(CommitManager.RejectedDb(db, CandidateOf(loopId, w)), loopId, eff, false,
                                                ActiveOf(db), w, limits).0.items);
      var tried := item.id in rep.attempted && item.status !in {CLOSED, VALIDATED_SATISFIED};
      var failures := if tried && !Excused(db, rep, item.id) then item.failures + 1 else item.failures;
      && |items| == |db.items|
      && items[i] == item.(failures := failures,
                           status := if tried && db.policy.respectStagnation && failures >= limits.maxItemFailures
                                     then BLOCKED else item.status)
  {
    var rejected := CommitManager.RejectedDb(db, CandidateOf(loopId, w));
    FinishItems(rejected, loopId, eff, false, ActiveOf(db), w, limits);
    Stagnation.JudgedExactly(db.items[i], eff, false, ActiveOf(db), loopId, db.policy, limits);
    assert Stagnation.Declared(eff, ActiveOf(db), db.items[i].id) <==> Excused(db, rep, db.items[i].id);
    hide Finish, Stagnation.Judge, Stagnation.Declared, Excused;
  }

  lemma CommittedMovesBest(db: Db, loopId: nat, target: string, rep: Report, w: World)
    requires Books(db) && TargetOpen(db, target) && Gated(rep, db, target)
    requires DecisionOn(db, loopId, rep, w).Decided? && DecisionOn(db, loopId, rep, w).committed
    ensures Some(CommitManager.BestFor(CandidateOf(loopId, w), rep)) != db.best
  {
    BooksParts(db);
    TargetIsReadable(db, target);
    DecisionOfLoop(db, loopId, rep, target, w);
    hide Books, Gated, TargetOpen, CommitManager.Applied, CommitManager.CanCommit;
    CommitIsStrict(db, loopId, rep, target, w);
  }

  /** The loop runs accepted checks again: a rejected tree may be carried on, some check of the item newly passes, or
      there is nothing of the item left to try. */
  ghost predicate ChecksAgain(db: Db, item: HungerItem, w: World) {
    || db.policy.continuationEnabled || w.skipped
    || (exists k :: k in KeysOf(item) && k !in BestKeys(db) && w.runner(k, 0).passed)
    || (forall k :: k in KeysOf(item) ==> k in BestKeys(db))
  }

  lemma ChecksInLoop(db: Db, item: HungerItem, w: World)
    requires Sound(db) && item in db.items
    ensures var (rows, ids, best) := (RowsOf(db), if w.skipped then [] else [item.id], BestKeys(db));
            && (forall k :: k in best ==> OfTarget(k, rows, ids) || OfOther(k, rows, ids))
            && (Rechecks(rows, ids, best, db.policy, w.runner) <==> ChecksAgain(db, item, w))
  {
    var (rows, ids, best) := (RowsOf(db), if w.skipped then [] else [item.id], BestKeys(db));
    SoundParts(db, item);
    hide Sound, KeysOf;
    forall k
      ensures OfTarget(k, rows, ids) <==> !w.skipped && k in KeysOf(item)
      ensures k in best ==> OfTarget(k, rows, ids) || OfOther(k, rows, ids)
    {
      if !w.skipped { OwnKeys(db, item, k); }
      if k in best { if w.skipped { OwnedAnyway(db, k); } else { OwnedKeys(db, item, k); } }
    }
    hide OfTarget, OfOther, KeysOwned;
  }

  lemma RegressedInLoop(db: Db, loopId: nat, item: HungerItem, continued: bool, w: World)
    requires Sound(db) && item in db.items
    ensures var rep := ReportOf(db, loopId, item.id, continued, w);
            && (rep.hasRealProgress <==> rep.newly != [])
            && (forall k :: k in rep.regressed <==>
                  && !KnownTree(db, continued, w) && ChecksAgain(db, item, w)
                  && k in BestKeys(db) && !Holds(k, db.policy.regressionConfirmReruns, w.runner))
  {
    SoundParts(db, item);
    UnknownTreeReport(db, loopId, item.id, continued, w);
    hide Sound, ReportOf;
    if !KnownTree(db, continued, w) {
      var (rows, ids, best) := (RowsOf(db), if w.skipped then [] else [item.id], BestKeys(db));
      GateReportAgainstBaseline(rows, CandidateOf(loopId, w), ids, best, db.policy, w.runner);
      RegressedExactly(rows, CandidateOf(loopId, w), ids, best, db.policy, w.runner);
      ChecksInLoop(db, item, w);
      hide GateReport, KnownTree, OfTarget, OfOther, Rechecks, ChecksAgain;
      forall k ensures Holds(k, db.policy.regressionConfirmReruns, w.runner)
                       <==> !FailsForGood(k, db.policy.regressionConfirmReruns, w.runner)
      {
        HoldsIff(k, db.policy.regressionConfirmReruns, w.runner);
      }
    } else {
      KnownTreeReport(db, loopId, item.id, continued, w);
    }
  }

  lemma KnownTreeReport(db: Db, loopId: nat, target: string, continued: bool, w: World)
    requires KnownTree(db, continued, w)
    ensures var rep := ReportOf(db, loopId, target, continued, w); rep.regressed == [] && !rep.hasRealProgress && rep.newly == []
  {
  }

  lemma OwnedAnyway(db: Db, k: string)
    requires ReadableIds(db.items) && KeysOwned(db) && k in BestKeys(db)
    ensures OfOther(k, RowsOf(db), [])
  {
    var n :| 0 <= n < |db.items| && k in KeysOf(db.items[n]);
    var i :| 0 <= i < db.items[n].checks && k == MakeCheckKey(db.items[n].id, i);
    assert db.items[n] in RowsOf(db).ledger;
  }

  /** The trace says, in terms of the checks, what a validated loop found: whether it committed, what best gained, and
      every accepted check that fails for good, if accepted checks were run again. */
  ghost predicate Tells(t: Trace, loopId: nat, ready: Db, after: Db, item: HungerItem, continued: bool, w: World) {
    && t.candidateId == Some("CAND-" + Decimal(loopId)) && t.stopReason == None
    && t.committed == (after.best != ready.best)
    && (t.committed ==> forall k :: k in t.newly <==> k in BestKeys(after) && k !in BestKeys(ready))
    && (!t.committed ==> t.newly == [])
    && forall k :: k in t.regressed <==>
         && !KnownTree(ready, continued, w) && ChecksAgain(ready, item, w)
         && k in BestKeys(ready) && !Holds(k, ready.policy.regressionConfirmReruns, w.runner)
  }

  lemma {:induction false} ValidateTrace(db: Db, loopId: nat, item: HungerItem, continued: bool, w: World, limits: Stagnation.Limits)
    requires Sound(db) && item in db.items && item.status != CLOSED
    requires w.files != CommitManager.PromoteRaises && (KnownTree(db, continued, w) || !w.validationSafetyStop)
    ensures var (after, rep) := (Orchestrator.Validate(db, loopId, item.id, continued, w, limits).0, ReportOf(db, loopId, item.id, continued, w));
            && after.traces == db.traces[loopId := Trace(loopId, Some("CAND-" + Decimal(loopId)), after.best != db.best,
                                                         if after.best != db.best then rep.newly else [], rep.regressed, None)]
            && (after.best != db.best ==> forall k :: k in rep.newly <==> k in BestKeys(after) && k !in BestKeys(db))
  {
    var rep := ReportOf(db, loopId, item.id, continued, w);
    SoundParts(db, item);
    RegressedInLoop(db, loopId, item, continued, w);
    ReportIsGated(db, loopId, item.id, continued, w);
    DecidedUnlessPromotionRaises(db, loopId, rep, item.id, w);
    DecidedLoopLeaves(db, loopId, item.id, rep, w, limits);
    ValidateIsSettle(db, loopId, item.id, continued, w, limits);
    BestAfterLoop(db, loopId, item.id, rep, w, limits);
    DecisionOfLoop(db, loopId, rep, item.id, w);
    hide Sound, Settle, ReportOf, Gated, TargetOpen, KnownTree, ChecksAgain, Holds, CommitManager.Applied,
         CommitManager.CanCommit, Orchestrator.Validate, Decides;
    if Orchestrator.Validate(db, loopId, item.id, continued, w, limits).0.best != db.best {
      CommitIsStrict(db, loopId, rep, item.id, w);
      GatedAgainst(rep, db, item.id);
      NewlyIsGained(rep, BestKeys(db));
      assert forall k :: k in rep.newly <==> k in Elements(rep.newly);
    }
  }

  lemma ValidateTells(db: Db, loopId: nat, item: HungerItem, continued: bool, w: World, limits: Stagnation.Limits)
    requires Sound(db) && item in db.items && item.status != CLOSED
    requires w.files != CommitManager.PromoteRaises && (KnownTree(db, continued, w) || !w.validationSafetyStop)
    ensures var after := Orchestrator.Validate(db, loopId, item.id, continued, w, limits).0;
            loopId in after.traces && Tells(after.traces[loopId], loopId, db, after, item, continued, w)
  {
    hide Sound, Orchestrator.Validate, ReportOf, KnownTree, ChecksAgain, Holds, Tells;
    RegressedInLoop(db, loopId, item, continued, w);
    ValidateTrace(db, loopId, item, continued, w, limits);
    TellsOfReport(db, Orchestrator.Validate(db, loopId, item.id, continued, w, limits).0, loopId,
                  ReportOf(db, loopId, item.id, continued, w), item, continued, w);
  }

  lemma {:induction false} TellsOfReport(db: Db, after: Db, loopId: nat, rep: Report, item: HungerItem, continued: bool, w: World)
    requires after.traces == db.traces[loopId := Trace(loopId, Some("CAND-" + Decimal(loopId)), after.best != db.best,
                                                       if after.best != db.best then rep.newly else [], rep.regressed, None)]
    requires after.best != db.best ==> forall k :: k in rep.newly <==> k in BestKeys(after) && k !in BestKeys(db)
    requires forall k :: k in rep.regressed <==>
               && !KnownTree(db, continued, w) && ChecksAgain(db, item, w)
               && k in BestKeys(db) && !Holds(k, db.policy.regressionConfirmReruns, w.runner)
    ensures loopId in after.traces && Tells(after.traces[loopId], loopId, db, after, item, continued, w)
  {
    hide KnownTree, ChecksAgain, Holds;
  }

  /** A loop that gets to validation, is not stopped there and whose promotion does not raise leaves such a trace. */
  lemma LoopTraceExactly(db: Db, w: World, limits: Stagnation.Limits)
    requires Sound(db) && w.files != CommitManager.PromoteRaises
    requires var b := Begin(db, w, limits);
             b.Begun? && Work(b.db, b.loopId, w).Ready?
             && (KnownTree(Work(b.db, b.loopId, w).db, b.continued, w) || !w.validationSafetyStop)
    ensures var (after, b) := (Step(db, w, limits).0, Begin(db, w, limits));
            var ready := Work(b.db, b.loopId, w).db;
            && ready.best == db.best && b.loopId == db.lastLoopId + 1 && b.loopId in after.traces
            && exists item :: item in ready.items && item.id == b.target
                              && Tells(after.traces[b.loopId], b.loopId, ready, after, item, b.continued, w)
  {
    BeginNumbers(db, w, limits);
    var b := Begin(db, w, limits);
    var item := ReadyState(db, w, limits);
    ValidateTells(Work(b.db, b.loopId, w).db, b.loopId, item, b.continued, w, limits);
    hide Begin, Work, Step, Sound, Tells, KnownTree, Orchestrator.Validate;
  }

  lemma DecidedUnlessPromotionRaises(db: Db, loopId: nat, rep: Report, target: string, w: World)
    requires Sound(db) && ':' !in target && Gated(rep, db, target) && w.files != CommitManager.PromoteRaises
    ensures Decides(db, loopId, rep, w)
  {
    KeysParse(db, rep, target);
    hide Gated, Books, Clear, Agreed, CheckKeys.Parses, CommitManager.CanCommit;
  }

  lemma ValidateIsSettle(db: Db, loopId: nat, target: string, continued: bool, w: World, limits: Stagnation.Limits)
    requires KnownTree(db, continued, w) || !w.validationSafetyStop
    ensures Orchestrator.Validate(db, loopId, target, continued, w, limits)
            == Settle(db, loopId, ReportOf(db, loopId, target, continued, w), w, limits)
  {
    hide Settle, ReportOf;
  }
}
