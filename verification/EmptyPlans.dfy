// loop_orchestrator._handle_empty_plan: loops without an assignment, when they happen and how they end.
module EmptyPlans {
  import opened Domain
  import opened Ordering
  import opened Repository
  import opened RefactorTransactions
  import opened Continuation
  import opened HungerEngine
  import opened Orchestrator
  import opened Runs
  import CommitManager
  import HungerUpdate
  import Planner
  import Stagnation

  // ---- when a loop that goes on has nothing to plan ----------------------------------------------

  /** Nothing a planner may take: whatever has a gap is closed, held for the operator, or blocked. */
  predicate NothingToPlan(items: seq<HungerItem>) {
    forall i :: 0 <= i < |items| ==> items[i].gapScore > 0.0 ==> items[i].status in {CLOSED, PAUSED, BLOCKED}
  }

  ghost predicate SomePaused(items: seq<HungerItem>) {
    exists i :: 0 <= i < |items| && items[i].status == PAUSED && items[i].gapScore > 0.0
  }

  /** The tick lets a loop go on only while some unfinished item is not blocked. */
  lemma GoesOnWithWork(db: Db, w: World)
    requires Decide(db, w).1 == Continue
    ensures var items := Decide(db, w).0.items;
            exists i :: 0 <= i < |items| && Unfinished(items[i]) && items[i].status != BLOCKED
  {
    hide RawBudget, WorkPressure, PhaseWithHysteresis, Append;
    var items := Decide(db, w).0.items;
    assert !IsDone(items) && !AllRemainingBlocked(items);
  }

  lemma PlanIff(items: seq<HungerItem>, maxWorkers: int)
    ensures Planner.Plan(items, maxWorkers).None? <==> maxWorkers < 1 || NothingToPlan(items)
  {
    Planner.PlanPicksTheMostPressing(items, maxWorkers);
    hide Planner.Plan;
    assert NothingToPlan(items) <==> !exists i :: 0 <= i < |items| && Active(items[i]);
  }

  /** The loop's outcome with and without a plan. */
  lemma {:induction false} BeginCases(db: Db, w: World, limits: Stagnation.Limits)
    requires Decide(db, w).1 == Continue
    ensures var d := Decide(db, w).0;
            if Planner.Plan(d.items, w.maxWorkers).None?
            then Begin(db, w, limits).Halted?
                 && Begin(db, w, limits).outcome == (if d.streak + 1 >= limits.maxNoProgress then Stop(STOP_BLOCKED) else Continue)
                 && Begin(db, w, limits).db.streak == d.streak + 1
            else Begin(db, w, limits).Begun?
  {
    hide Decide, Planner.Plan, Continued;
    var d := Decide(db, w).0;
    ContinuedFrame(Counted(d), d.lastLoopId + 1, Planner.Plan(d.items, w.maxWorkers).Some?, w.sourceAvailable);
  }

  lemma DecideKeepsStreak(db: Db, w: World)
    ensures Decide(db, w).0.streak == db.streak && Decide(db, w).0.policy == db.policy
  {
    hide BaseSnapshot, Append;
    AppendFrame(db, w.refinement);
  }

  /** A loop that goes on has no plan exactly when no worker may run or all that is left is paused or blocked;
      some item is paused then if a worker may run. It ends BLOCKED exactly when it completes the streak,
      and goes on otherwise: the policy's `respect_stagnation` is not asked. */
  lemma EmptyPlanIff(db: Db, w: World, limits: Stagnation.Limits)
    requires Decide(db, w).1 == Continue
    ensures var items := Decide(db, w).0.items;
            && (Begin(db, w, limits).Halted? <==> w.maxWorkers < 1 || NothingToPlan(items))
            && (Begin(db, w, limits).Halted? ==>
                  && Step(db, w, limits).0.streak == db.streak + 1
                  && Step(db, w, limits).1 == (if db.streak + 1 >= limits.maxNoProgress then Stop(STOP_BLOCKED) else Continue))
  {
    PlanIff(Decide(db, w).0.items, w.maxWorkers);
    BeginCases(db, w, limits);
    DecideKeepsStreak(db, w);
    hide Decide, Begin, NothingToPlan, Planner.Plan, Work, Orchestrator.Validate;
  }

  /** With a worker allowed, only a paused item can leave a loop that goes on without a plan. */
  lemma EmptyPlanNeedsPause(db: Db, w: World, limits: Stagnation.Limits)
    requires Decide(db, w).1 == Continue && Begin(db, w, limits).Halted? && w.maxWorkers >= 1
    ensures SomePaused(Decide(db, w).0.items)
  {
    EmptyPlanIff(db, w, limits);
    GoesOnWithWork(db, w);
    hide Decide, Begin, Step;
  }

  // ---- no item is ever paused by a loop or a command ------------------------------------------------

  predicate Unpaused(items: seq<HungerItem>) {
    forall i :: 0 <= i < |items| ==> items[i].status != PAUSED
  }

  lemma {:induction false} AppendUnpaused(db: Db, more: seq<HungerItem>)
    requires Unpaused(db.items)
    ensures Unpaused(Append(db, more).items)
    decreases |more|
  {
    if more != [] { AppendUnpaused(if IsFresh(db.items, more[0]) then WithNewItem(db, more[0]) else db, more[1..]); }
  }

  lemma TakenUnpaused(db: Db, loopId: int, h: Handoff)
    requires Unpaused(db.items) && Taken(db, loopId, h).Some?
    ensures Unpaused(Taken(db, loopId, h).value.items)
  {
    match h {
      case Blocker(_) =>
      case Discovery(item) => AppendUnpaused(db, [item]);
      case OpenRefactor(_, _) =>
      case CloseRefactor(restoreOk) => CloseFrame(db, restoreOk);
    }
    hide Append, CloseTxn, CanOpen;
  }

  lemma {:induction false} TakenAllUnpaused(db: Db, loopId: int, handoffs: seq<Handoff>)
    requires Unpaused(db.items)
    ensures Unpaused(TakenAll(db, loopId, handoffs).0.items)
    decreases |handoffs|
  {
    if handoffs != [] && Taken(db, loopId, handoffs[0]).Some? {
      TakenUnpaused(db, loopId, handoffs[0]);
      hide Taken, Unpaused;
      TakenAllUnpaused(Taken(db, loopId, handoffs[0]).value, loopId, handoffs[1..]);
    }
  }

  lemma BeginUnpaused(db: Db, w: World, limits: Stagnation.Limits)
    requires Unpaused(db.items)
    ensures Unpaused(Begin(db, w, limits).db.items)
  {
    hide BaseSnapshot, Append, Unpaused, Kept;
    AppendUnpaused(db, w.refinement);
    var d := Decide(db, w).0;
    PlanLoopKept(d, w);
    hide Decide, PlanLoop;
  }

  lemma WorkUnpaused(db: Db, loopId: nat, w: World)
    requires Unpaused(db.items)
    ensures Unpaused(Work(db, loopId, w).db.items)
  {
    hide TakenAll, Append, Unpaused;
    TakenAllUnpaused(Spent(db, w), loopId, w.handoffs);
    AppendUnpaused(TakenAll(Spent(db, w), loopId, w.handoffs).0, w.proposals);
  }

  lemma UpdatedUnpaused(items: seq<HungerItem>, rep: Report)
    requires Unpaused(items)
    ensures Unpaused(HungerUpdate.UpdatedItems(items, rep))
  {
    hide CountFor, HungerUpdate.NextGap;
  }

  lemma JudgedUnpaused(db: Db, rep: Report, committed: bool, active: Option<Transaction>, loopId: int, limits: Stagnation.Limits)
    requires Unpaused(db.items)
    ensures Unpaused(Stagnation.Judged(db, rep, committed, active, loopId, limits))
  {
    hide Stagnation.Progressed, Stagnation.Exempted;
  }

  lemma SettleUnpaused(db: Db, loopId: nat, rep: Report, w: World, limits: Stagnation.Limits)
    requires Unpaused(db.items)
    ensures Unpaused(Settle(db, loopId, rep, w, limits).0.items)
  {
    AppliedKeepsItems(db, loopId, rep, w);
    hide Finish, CommitManager.Applied, HungerUpdate.UpdatedItems, Stagnation.Judged, Unpaused, Effective;
    var (after, d) := CommitManager.Applied(db, CandidateOf(loopId, w), rep, [], ActiveOf(db), w.files);
    if d.Decided? {
      var eff := Effective(rep, d);
      var updated := after.(items := HungerUpdate.UpdatedItems(after.items, eff));
      UpdatedUnpaused(after.items, eff);
      JudgedUnpaused(updated, eff, d.committed, ActiveOf(db), loopId, limits);
      FinishItems(updated, loopId, eff, d.committed, ActiveOf(db), w, limits);
    }
  }

  lemma AppliedKeepsItems(db: Db, loopId: nat, rep: Report, w: World)
    ensures CommitManager.Applied(db, CandidateOf(loopId, w), rep, [], ActiveOf(db), w.files).0.items == db.items
  {
    hide CommitManager.CanCommit, CommitManager.CommitRaises, CommitManager.Credits, CommitManager.RowsFor;
  }

  lemma StepUnpaused(db: Db, w: World, limits: Stagnation.Limits)
    requires Unpaused(db.items)
    ensures Unpaused(Step(db, w, limits).0.items)
  {
    BeginUnpaused(db, w, limits);
    hide Begin, Work, Settle, ReportOf, Redundant, Unpaused;
    var b := Begin(db, w, limits);
    if b.Begun? {
      WorkUnpaused(b.db, b.loopId, w);
      var r := Work(b.db, b.loopId, w);
      if r.Ready? { SettleUnpaused(r.db, b.loopId, ReportOf(r.db, b.loopId, b.target, b.continued, w), w, limits); }
    }
  }

  lemma TurnUnpaused(db: Db, t: Turn, limits: Stagnation.Limits)
    requires Unpaused(db.items)
    ensures Unpaused(AfterTurn(db, t, limits).items)
  {
    if t.Loop? { StepUnpaused(db, t.world, limits); }
    hide Step;
  }

  lemma {:induction false} RunsUnpaused(db: Db, turns: seq<Turn>, limits: Stagnation.Limits)
    requires Unpaused(db.items)
    ensures Unpaused(AfterTurns(db, turns, limits).items)
    decreases |turns|
  {
    if turns != [] {
      TurnUnpaused(db, turns[0], limits);
      hide Unpaused, AfterTurn;
      RunsUnpaused(AfterTurn(db, turns[0], limits), turns[1..], limits);
    }
  }

  /** Over every run, in both completion modes and whatever workers, operators and other tasks do: a ledger
      without paused items never meets an empty plan while a worker is allowed. */
  lemma {:induction false} RunsAlwaysPlan(db: Db, turns: seq<Turn>, w: World, limits: Stagnation.Limits)
    requires Unpaused(db.items) && w.maxWorkers >= 1
    ensures var last := AfterTurns(db, turns, limits);
            Decide(last, w).1 == Continue ==> Begin(last, w, limits).Begun?
  {
    RunsUnpaused(db, turns, limits);
    var last := AfterTurns(db, turns, limits);
    if Decide(last, w).1 == Continue && Begin(last, w, limits).Halted? {
      EmptyPlanNeedsPause(last, w, limits);
      AppendUnpaused(last, w.refinement);
      DecidedItems(last, w);
      assert false;
    }
  }

  lemma {:induction false} DecidedItems(db: Db, w: World)
    ensures Decide(db, w).0.items == db.items || Decide(db, w).0.items == Append(db, w.refinement).items
  {
    hide BaseSnapshot, Append;
  }

  // ---- a task whose only item is paused -------------------------------------------------------------

  ghost predicate OnePaused(db: Db) {
    |db.items| == 1 && db.items[0].status == PAUSED && db.items[0].gapScore > 0.0
  }

  lemma PausedStep(db: Db, w: World, limits: Stagnation.Limits)
    requires OnePaused(db) && Funded(db.policy, db.clock, 1)
    ensures var (after, outcome) := Step(db, w, limits);
            && after.items == db.items && after.policy == db.policy && after.clock == Counted(db).clock
            && after.streak == db.streak + 1
            && outcome == if db.streak + 1 >= limits.maxNoProgress then Stop(STOP_BLOCKED) else Continue
  {
    FundedGoesOn(db, w, 0);
    EmptyPlanIff(db, w, limits);
    BeginFrame(db, w, limits);
    hide Decide, Begin, Funded, Work, Orchestrator.Validate;
  }

  lemma BeginFrame(db: Db, w: World, limits: Stagnation.Limits)
    requires Decide(db, w) == (db, Continue)
    ensures var after := Begin(db, w, limits).db;
            after.items == db.items && after.policy == db.policy && after.clock == Counted(db).clock
  {
    hide Decide, PlanLoop, EmptyPlan, Kept, Advanced;
    PlanLoopKept(db, w);
    PlanLoopAdvances(db, w);
    var planned := PlanLoop(db, w).0;
    assert EmptyPlan(planned, planned.lastLoopId, limits).0.items == planned.items by { EmptyPlanKeepsItems(planned, limits); }
    EmptyPlanAdvances(planned, planned.lastLoopId, limits);
  }

  lemma EmptyPlanKeepsItems(db: Db, limits: Stagnation.Limits)
    ensures EmptyPlan(db, db.lastLoopId, limits).0.items == db.items
  {
  }

  /** One paused item and a policy that ignores stagnation: the run stops BLOCKED all the same, at the loop
      that completes the streak, in either completion mode. */
  lemma {:induction false} PausedTaskBlocks(db: Db, worlds: seq<World>, limits: Stagnation.Limits)
    requires OnePaused(db) && !db.policy.respectStagnation && Funded(db.policy, db.clock, |worlds|)
    requires db.streak < limits.maxNoProgress && |worlds| == limits.maxNoProgress - db.streak
    ensures Run(db, worlds, limits).1 == STOP_BLOCKED
    decreases |worlds|
  {
    PausedStep(db, worlds[0], limits);
    hide Step;
    var (after, outcome) := Step(db, worlds[0], limits);
    if outcome == Continue { PausedTaskBlocks(after, worlds[1..], limits); }
  }
}
