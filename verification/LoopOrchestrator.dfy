// loop_orchestrator.LoopOrchestrator: `step` and `run` over the repository and its services.
module LoopOrchestrator {
  import opened Domain
  import CheckKeys
  import opened Repository
  import opened RefactorTransactions
  import opened Continuation
  import opened HungerEngine
  import opened Orchestrator
  import opened Runs
  import CommitManager
  import HungerUpdate
  import Planner
  import Stagnation
  import ValidationGate

  /** The live files are those of the candidate the best row names. */
  predicate TreeAgrees(tree: Option<string>, db: Db) {
    tree == if db.best.Some? then Some(db.best.value.stateId) else None
  }

  class LoopOrchestrator {
    const repo: SQLiteRepository
    const workspace: CommitManager.Workspace
    const commits: CommitManager.Manager
    const hunger: HungerUpdate.Service
    const limits: Stagnation.Limits

    ghost predicate Valid()
      reads this, repo, workspace
    {
      && commits.repo == repo && commits.workspace == workspace && hunger.repo == repo
      && repo.txDepth == 0 && Books(repo.db) && TreeAgrees(workspace.bestTree, repo.db)
    }

    constructor (repo: SQLiteRepository, workspace: CommitManager.Workspace, limits: Stagnation.Limits)
      requires repo.txDepth == 0 && Books(repo.db) && TreeAgrees(workspace.bestTree, repo.db)
      ensures Valid() && this.repo == repo && this.workspace == workspace && this.limits == limits
    {
      this.repo, this.workspace, this.limits := repo, workspace, limits;
      this.commits := new CommitManager.Manager(repo, workspace);
      this.hunger := new HungerUpdate.Service(repo);
    }

    /** The first ticks and the budgeted refinement. */
    method Tick(w: World) returns (outcome: Outcome)
      modifies repo`db
      ensures (repo.db, outcome) == Decide(old(repo.db), w)
    {
      var db := repo.db;
      var snap := BaseSnapshot(db.policy, db.clock, db.items, w.previousPhase, w.now);
      if snap.None? {
        repo.db := WithTrace(db, ErrorTrace(db.lastLoopId + 1));
        return Stop(ERROR);
      }
      if db.policy.completionMode == SPEND_BUDGET && snap.value.stopReason == Some(DONE) {
        if snap.value.driveBudget <= 0.0 { return Stop(BUDGET_EXHAUSTED); }
        var refined := Append(db, w.refinement);
        snap := BaseSnapshot(db.policy, db.clock, refined.items, w.previousPhase, w.now);
        if refined.items == db.items || snap.None? { return Stop(DONE); }
        repo.db := refined;
      }
      if snap.value.stopReason.Some? { return Stop(snap.value.stopReason.value); }
      return Continue;
    }

    /** From an accepted loop to its saved plan. */
    method BeginLoop(w: World) returns (b: Begun)
      modifies repo`db
      ensures b == Begin(old(repo.db), w, limits) && repo.db == b.db
    {
      hide Decide, Planner.Plan, Continued;
      var outcome := Tick(w);
      if outcome.Stop? { return Halted(repo.db, outcome); }
      var loopId := repo.db.lastLoopId + 1;
      var plan := Planner.Plan(repo.db.items, w.maxWorkers);
      repo.db := repo.db.(clock := repo.db.clock.(loopCount := repo.db.clock.loopCount + 1));
      var (carried, continued) := Continued(repo.db, loopId, plan.Some?, w.sourceAvailable);
      repo.db := carried.(lastLoopId := loopId);
      if plan.None? {
        repo.db := repo.db.(streak := repo.db.streak + 1);
        repo.db := WithTrace(repo.db, Trace(loopId, None, false, [], [], None));
        return Halted(repo.db, if repo.db.streak >= limits.maxNoProgress then Stop(STOP_BLOCKED) else Continue);
      }
      return Begun(repo.db, loopId, plan.value.id, continued);
    }

    /** The loop of `process_handoffs`; a blocker on an unknown id raises (`!ok`). */
    method ProcessHandoffs(loopId: int, handoffs: seq<Handoff>) returns (ok: bool)
      modifies repo`db
      ensures (repo.db, ok) == TakenAll(old(repo.db), loopId, handoffs)
    {
      hide Taken;
      for i := 0 to |handoffs|
        invariant TakenAll(old(repo.db), loopId, handoffs) == TakenAll(repo.db, loopId, handoffs[i..])
      {
        assert handoffs[i..][0] == handoffs[i] && handoffs[i..][1..] == handoffs[i + 1..];
        var next := Taken(repo.db, loopId, handoffs[i]);
        if next.None? { return false; }
        repo.db := next.value;
      }
      return true;
    }

    /** The worker pass, its handoffs and the candidate row. */
    method RunWorkers(loopId: nat, w: World) returns (r: Worked)
      modifies repo`db
      ensures r == Work(old(repo.db), loopId, w) && repo.db == r.db
    {
      repo.db := Spent(repo.db, w);
      if w.worker == SafetyStopped { return WorkerHalted(repo.db, Stop(SAFETY_STOP)); }
      if w.worker == Crashed {
        repo.db := WithTrace(repo.db, ErrorTrace(loopId));
        return WorkerHalted(repo.db, Stop(ERROR));
      }
      var ok := ProcessHandoffs(loopId, w.handoffs);
      if !ok {
        repo.db := WithTrace(repo.db, ErrorTrace(loopId));
        return WorkerHalted(repo.db, Stop(ERROR));
      }
      repo.db := Append(repo.db, w.proposals);
      if w.acceptedProposals > 0 { repo.db := repo.db.(streak := 0); }
      if w.requiresHuman { return WorkerHalted(repo.db, Stop(HUMAN_REQUIRED)); }
      repo.db := repo.db.(candidates := repo.db.candidates[CandidateId(loopId) := Pending]);
      return Ready(repo.db);
    }

    /** The report on the candidate, made by the gate unless nothing changed. */
    method MakeReport(loopId: nat, target: string, continued: bool, w: World) returns (rep: Report)
      requires DistinctIds(repo.db.items) && Keyed(RowsOf(repo.db))
      ensures rep == ReportOf(repo.db, loopId, target, continued, w)
    {
      var cand := CandidateOf(loopId, w);
      if w.sameTree && (w.startedFromBest || (continued && !IsOpen(repo.db))) {
        return Report("VAL-" + cand.id, loopId, cand.id, FAIL, Attempted(target, w), [], BestKeys(repo.db), [], [], [], [],
                      w.candidateEvidence, false, false);
      }
      rep := ValidationGate.Validate(RowsOf(repo.db), cand, Attempted(target, w), BestKeys(repo.db), repo.db.policy, w.runner);
    }

    /** Stagnation, transactions and the trace of a decided loop. */
    method FinishLoop(loopId: nat, eff: Report, committed: bool, active: Option<Transaction>, w: World)
      returns (outcome: Outcome)
      modifies repo`db
      ensures (repo.db, outcome) == Finish(old(repo.db), loopId, eff, committed, active, w, limits)
    {
      var (judged, blocked) := Stagnation.Updated(repo.db, eff, committed, active, loopId, limits);
      repo.db := judged;
      repo.db := AutoOpened(repo.db, loopId, eff, committed, w);
      repo.db := SettleIfDue(repo.db, loopId, w.txnFilesOk);
      repo.db := WithTrace(repo.db, Trace(loopId, Some(CandidateId(loopId)), committed, eff.newly, eff.regressed, None));
      return if blocked then Stop(STOP_BLOCKED) else Continue;
    }

    /** Commit or reject, then everything that follows from the decision. */
    method Decided(loopId: nat, rep: Report, w: World) returns (outcome: Outcome)
      requires commits.repo == repo && commits.workspace == workspace && hunger.repo == repo
      requires repo.txDepth == 0 && DistinctIds(repo.db.items)
      modifies repo, workspace
      ensures repo.txDepth == 0
      ensures (repo.db, outcome) == Settle(old(repo.db), loopId, rep, w, limits)
      ensures workspace.bestTree == CommitManager.TreeAfter(old(workspace.bestTree), old(repo.db),
                                                            CandidateOf(loopId, w), rep, ActiveOf(old(repo.db)), w.files)
    {
      hide Finish, DistinctIds;
      var active := ActiveOf(repo.db);
      var decision := commits.Apply(CandidateOf(loopId, w), rep, [], active, w.files);
      if decision.Raised? {
        repo.db := WithTrace(repo.db, ErrorTrace(loopId));
        return Stop(ERROR);
      }
      var eff := rep;
      if !decision.committed || decision.verdict != rep.verdict {
        eff := rep.(verdict := decision.verdict, newly := [], satisfied := [], hasRealProgress := false);
      }
      hunger.ApplyValidation(eff);
      outcome := FinishLoop(loopId, eff, decision.committed, active, w);
    }

    /** `step` */
    method DoStep(w: World) returns (outcome: Outcome)
      requires Valid()
      modifies repo, workspace
      ensures Valid()
      ensures (repo.db, outcome) == Step(old(repo.db), w, limits)
    {
      ghost var start := repo.db;
      StepKeepsSound(start, w, limits);
      BeginKept(start, w, limits);
      BeginAdvances(start, w, limits);
      var b := BeginLoop(w);
      match b {
        case Halted(_, o) => return o;
        case Begun(planned, loopId, target, continued) =>
          WorkKept(planned, loopId, w, target);
          WorkGrows(planned, loopId, w, target);
          var r := RunWorkers(loopId, w);
          match r {
            case WorkerHalted(_, o) => return o;
            case Ready(worked) =>
              if !Redundant(repo.db, continued, w) && w.validationSafetyStop { return Stop(SAFETY_STOP); }
              var rep := MakeReport(loopId, target, continued, w);
              ReportIsGated(worked, loopId, target, continued, w);
              TreeFollowsBest(worked, loopId, target, rep, w, limits);
              outcome := Decided(loopId, rep, w);
          }
      }
    }

    /** `run`: at most one step per entry of `worlds`, whose length is the safety cap. */
    method DoRun(worlds: seq<World>) returns (reason: StopReason)
      requires Valid()
      modifies repo, workspace
      ensures Valid()
      ensures (repo.db, reason) == Run(old(repo.db), worlds, limits)
    {
      ghost var start := repo.db;
      for i := 0 to |worlds|
        invariant Valid()
        invariant Run(start, worlds, limits) == Run(repo.db, worlds[i..], limits)
      {
        assert worlds[i..][0] == worlds[i] && worlds[i..][1..] == worlds[i + 1..];
        var outcome := DoStep(worlds[i]);
        if outcome.Stop? { return outcome.reason; }
      }
      return ERROR;
    }
  }

  // ---- the files and the best row -----------------------------------------------------------------

  /** Without a mission the promotion is the only part of a commit that can fail late, and a
      failed promotion moves no file. */
  lemma TreeMovesWithCommit(tree: Option<string>, db: Db, loopId: nat, rep: Report, w: World)
    requires !db.hasMission && forall k :: k in rep.newly ==> CheckKeys.Parses(k)
    ensures var d := DecisionOn(db, loopId, rep, w);
            CommitManager.TreeAfter(tree, db, CandidateOf(loopId, w), rep, ActiveOf(db), w.files)
            == if d.Decided? && d.committed then Some(CandidateOf(loopId, w).id) else tree
  {
  }

  /** A loop never leaves the files of one candidate under the row of another. */
  lemma TreeFollowsBest(db: Db, loopId: nat, target: string, rep: Report, w: World, limits: Stagnation.Limits)
    requires Books(db) && TargetOpen(db, target) && Gated(rep, db, target)
    ensures forall tree :: TreeAgrees(tree, db) ==>
              TreeAgrees(CommitManager.TreeAfter(tree, db, CandidateOf(loopId, w), rep, ActiveOf(db), w.files),
                         Settle(db, loopId, rep, w, limits).0)
  {
    BestAfterLoop(db, loopId, target, rep, w, limits);
    KeysParse(db, rep, target);
    hide Settle, Gated, DecisionOn;
    forall tree | TreeAgrees(tree, db)
      ensures TreeAgrees(CommitManager.TreeAfter(tree, db, CandidateOf(loopId, w), rep, ActiveOf(db), w.files),
                         Settle(db, loopId, rep, w, limits).0)
    {
      TreeMovesWithCommit(tree, db, loopId, rep, w);
    }
  }
}
