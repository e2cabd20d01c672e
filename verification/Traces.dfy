// Loop traces as an account of best: what the traces say newly passed is what best holds.
module Traces {
  import opened Domain
  import opened Ordering
  import opened Repository
  import opened RefactorTransactions
  import opened Continuation
  import opened HungerEngine
  import opened Orchestrator
  import opened Runs
  import CommitManager
  import HungerUpdate
  import Planner
  import Stagnation

  /** Every key some trace reports as newly passed. */
  function NewlyOf(traces: map<int, Trace>): set<string> {
    set l, k | l in traces && k in traces[l].newly :: k
  }

  ghost predicate ReportedOnce(traces: map<int, Trace>) {
    forall l, m, k :: l in traces && m in traces && k in traces[l].newly && k in traces[m].newly ==> l == m
  }

  /** The traces so far account for best, key by key and without repetition. */
  ghost predicate Told(db: Db) {
    && (forall l :: l in db.traces ==> l <= db.lastLoopId)
    && NewlyOf(db.traces) == BestKeys(db) && ReportedOnce(db.traces)
  }

  lemma NewTaskIsTold(db: Db)
    requires db.best == None && db.traces == map[]
    ensures Told(db)
  {
  }

  lemma QuietTrace(db: Db, t: Trace)
    requires Told(db) && t.loopId !in db.traces && t.newly == []
    ensures Told(WithTrace(db, t))
  {
    var after := WithTrace(db, t);
    forall k ensures k in NewlyOf(after.traces) <==> k in NewlyOf(db.traces) {
      if k in NewlyOf(db.traces) {
        var l :| l in db.traces && k in db.traces[l].newly;
        assert l in after.traces && k in after.traces[l].newly;
      }
    }
  }

  /** A trace that reports exactly what best gained. */
  lemma LoudTrace(before: Db, after: Db, loopId: nat, newly: seq<string>)
    requires Told(before) && loopId !in before.traces
    requires loopId in after.traces && after.traces[loopId].newly == newly
    requires after.traces == before.traces[loopId := after.traces[loopId]]
    requires loopId <= after.lastLoopId && before.lastLoopId <= after.lastLoopId
    requires BestKeys(after) == BestKeys(before) + Elements(newly) && Elements(newly) !! BestKeys(before)
    ensures Told(after)
  {
    forall k ensures k in NewlyOf(after.traces) <==> k in NewlyOf(before.traces) || k in newly {
      if k in NewlyOf(before.traces) {
        var l :| l in before.traces && k in before.traces[l].newly;
        assert l in after.traces && k in after.traces[l].newly;
      }
      if k in newly { assert k in after.traces[loopId].newly; }
    }
    forall l, k | l in before.traces && k in before.traces[l].newly ensures k !in Elements(newly) {
      assert k in NewlyOf(before.traces);
    }
    assert forall k :: k in newly ==> k in Elements(newly);
  }

  lemma SameBooks(a: Db, b: Db)
    requires Told(a) && b.traces == a.traces && b.best == a.best && b.lastLoopId >= a.lastLoopId
    ensures Told(b)
  {
  }

  lemma BeginTold(db: Db, w: World, limits: Stagnation.Limits)
    requires Told(db)
    ensures var b := Begin(db, w, limits);
            Told(b.db) && (b.Begun? ==> b.loopId !in b.db.traces && b.loopId == b.db.lastLoopId)
  {
    DecideTold(db, w);
    hide Told, Decide;
    var (d, outcome) := Decide(db, w);
    if outcome == Continue {
      PlanLoopTold(d, w);
      hide PlanLoop;
      var (planned, plan, _) := PlanLoop(d, w);
      if plan.None? { EmptyPlanTold(planned, limits); }
    }
  }

  lemma DecideTold(db: Db, w: World)
    requires Told(db)
    ensures Told(Decide(db, w).0)
  {
    QuietTrace(db, ErrorTrace(db.lastLoopId + 1));
    hide Told, BaseSnapshot, Append;
    AppendFrame(db, w.refinement);
    SameBooks(db, Append(db, w.refinement));
    SameBooks(db, db);
  }

  lemma PlanLoopTold(db: Db, w: World)
    requires Told(db)
    ensures var planned := PlanLoop(db, w).0;
            Told(planned) && planned.lastLoopId !in planned.traces
  {
    assert db.lastLoopId + 1 !in db.traces;
    ContinuedFrame(Counted(db), db.lastLoopId + 1, Planner.Plan(db.items, w.maxWorkers).Some?, w.sourceAvailable);
    hide Told, Planner.Plan, Continued;
    SameBooks(db, PlanLoop(db, w).0);
  }

  lemma EmptyPlanTold(db: Db, limits: Stagnation.Limits)
    requires Told(db) && db.lastLoopId !in db.traces
    ensures Told(EmptyPlan(db, db.lastLoopId, limits).0)
  {
    SameBooks(db, db.(streak := db.streak + 1));
    QuietTrace(db.(streak := db.streak + 1), Trace(db.lastLoopId, None, false, [], [], None));
  }

  lemma WorkTold(db: Db, loopId: nat, w: World, target: string)
    requires Told(db) && Books(db) && TargetOpen(db, target) && loopId !in db.traces
    ensures Told(Work(db, loopId, w).db) && (Work(db, loopId, w).Ready? ==> loopId !in Work(db, loopId, w).db.traces)
  {
    var spent := Spent(db, w);
    SameBooks(db, spent);
    Frame(db, spent);
    TargetFrame(db, spent, target);
    if w.worker.Crashed? {
      QuietTrace(spent, ErrorTrace(loopId));
    } else if w.worker.Finished? {
      TakenAllKept(spent, loopId, w.handoffs, target);
      HandoffsTold(spent, loopId, w);
    }
  }

  lemma {:induction false} HandoffsTold(spent: Db, loopId: nat, w: World)
    requires Told(spent) && loopId !in spent.traces && OnlyRowsAndTxn(spent, TakenAll(spent, loopId, w.handoffs).0)
    ensures var (taken, ok) := TakenAll(spent, loopId, w.handoffs);
            && Told(WithTrace(taken, ErrorTrace(loopId))) && Told(Proposed(taken, w))
            && Proposed(taken, w).traces == spent.traces
            && forall candidates :: Told(Proposed(taken, w).(candidates := candidates))
  {
    hide Told, TakenAll, Append;
    var (taken, ok) := TakenAll(spent, loopId, w.handoffs);
    SameBooks(spent, taken);
    QuietTrace(taken, ErrorTrace(loopId));
    AppendFrame(taken, w.proposals);
    SameBooks(taken, Proposed(taken, w));
    forall candidates ensures Told(Proposed(taken, w).(candidates := candidates)) {
      SameBooks(taken, Proposed(taken, w).(candidates := candidates));
    }
  }

  lemma FinishTrace(db: Db, loopId: nat, eff: Report, committed: bool, active: Option<Transaction>,
                    w: World, limits: Stagnation.Limits)
    ensures var after := Finish(db, loopId, eff, committed, active, w, limits).0;
            && after.traces == db.traces[loopId := Trace(loopId, Some(CandidateId(loopId)), committed, eff.newly,
                                                         eff.regressed, None)]
            && after.lastLoopId == if loopId > db.lastLoopId then loopId else db.lastLoopId
  {
    hide Stagnation.Judged, AutoOpenKeys, OpenTxn, SettleIfDue, PreviousCandidateTrace;
    var judged := Stagnation.Updated(db, eff, committed, active, loopId, limits).0;
    var keys := AutoOpenKeys(judged.policy, eff, PreviousCandidateTrace(judged, loopId));
    if keys.Some? { OpenKeepsTraces(judged, loopId, keys.value, w.txnFilesOk); }
    SettlementKeepsTraces(AutoOpened(judged, loopId, eff, committed, w), loopId, w.txnFilesOk);
  }

  lemma OpenKeepsTraces(db: Db, loopId: int, declared: seq<string>, filesOk: bool)
    ensures var after := OpenTxn(db, loopId, declared, filesOk);
            after.traces == db.traces && after.lastLoopId == db.lastLoopId
  {
    hide CanOpen;
  }

  lemma SettlementKeepsTraces(db: Db, loopId: int, restoreOk: bool)
    ensures var after := SettleIfDue(db, loopId, restoreOk);
            after.traces == db.traces && after.lastLoopId == db.lastLoopId
  {
    CloseFrame(db, restoreOk);
    hide CloseTxn;
  }

  lemma NewlyIsGained(rep: Report, before: set<string>)
    requires ReportsAgainst(rep, before) && rep.regressed == [] && rep.newly != []
    ensures rep.current == before + Elements(rep.newly) && Elements(rep.newly) !! before && rep.current != before
  {
    assert Elements(rep.regressed) == {};
    assert rep.newly[0] in Elements(rep.newly);
  }

  lemma CommittedBooks(db: Db, loopId: nat, rep: Report, w: World)
    ensures var after := CommittedAndUpdated(db, loopId, rep, w);
            after.traces == db.traces && after.lastLoopId == db.lastLoopId
  {
  }

  lemma CommittedTold(db: Db, loopId: nat, target: string, rep: Report, w: World, limits: Stagnation.Limits)
    requires Books(db) && TargetOpen(db, target) && Gated(rep, db, target) && rep.regressed == [] && rep.newly != []
    requires rep.verdict != FAIL && Told(db) && loopId !in db.traces
    ensures var after := Finish(CommittedAndUpdated(db, loopId, rep, w), loopId, rep, true, ActiveOf(db), w, limits).0;
            Told(after) && after.best != db.best && loopId in after.traces && after.traces[loopId].committed
  {
    hide Told, Finish, Books, Gated, TargetOpen, ReportsAgainst, CommittedAndUpdated;
    CommittedLoop(db, loopId, target, rep, w, limits);
    GatedAgainst(rep, db, target);
    NewlyIsGained(rep, BestKeys(db));
    CommittedBooks(db, loopId, rep, w);
    FinishTrace(CommittedAndUpdated(db, loopId, rep, w), loopId, rep, true, ActiveOf(db), w, limits);
    var after := Finish(CommittedAndUpdated(db, loopId, rep, w), loopId, rep, true, ActiveOf(db), w, limits).0;
    LoudTrace(db, after, loopId, rep.newly);
  }

  lemma RejectedTold(db: Db, loopId: nat, eff: Report, w: World, limits: Stagnation.Limits)
    requires Books(db) && eff.newly == [] && Told(db) && loopId !in db.traces
    ensures var after := Finish(CommitManager.RejectedDb(db, CandidateOf(loopId, w)), loopId, eff, false, ActiveOf(db), w, limits).0;
            Told(after) && after.best == db.best && loopId in after.traces && !after.traces[loopId].committed
  {
    RejectedLoop(db, loopId, eff, ActiveOf(db), w, limits);
    FinishTrace(CommitManager.RejectedDb(db, CandidateOf(loopId, w)), loopId, eff, false, ActiveOf(db), w, limits);
    hide Told, Finish, Books;
    var after := Finish(CommitManager.RejectedDb(db, CandidateOf(loopId, w)), loopId, eff, false, ActiveOf(db), w, limits).0;
    assert BestKeys(db) + Elements([]) == BestKeys(db);
    LoudTrace(db, after, loopId, []);
  }

  /** A decided loop's trace says committed exactly when best moved. */
  lemma SettleTold(db: Db, loopId: nat, target: string, rep: Report, w: World, limits: Stagnation.Limits)
    requires Books(db) && TargetOpen(db, target) && Gated(rep, db, target)
    requires Told(db) && loopId !in db.traces
    ensures Told(Settle(db, loopId, rep, w, limits).0)
    ensures DecisionOn(db, loopId, rep, w).Decided? ==>
              var after := Settle(db, loopId, rep, w, limits).0;
              loopId in after.traces && (after.traces[loopId].committed <==> after.best != db.best)
  {
    SettleCases(db, loopId, target, rep, w, limits);
    hide Told, Settle, Finish, Books, Gated, TargetOpen, DecisionOn;
    var d := DecisionOn(db, loopId, rep, w);
    if d.Raised? {
      QuietTrace(db, ErrorTrace(loopId));
    } else if d.committed {
      CommittedTold(db, loopId, target, rep, w, limits);
    } else {
      RejectedTold(db, loopId, Effective(rep, d), w, limits);
    }
  }

  /** One loop keeps the account. */
  lemma StepTold(db: Db, w: World, limits: Stagnation.Limits)
    requires Books(db) && Told(db)
    ensures Told(Step(db, w, limits).0)
  {
    BeginKept(db, w, limits);
    BeginTold(db, w, limits);
    var b := Begin(db, w, limits);
    if b.Begun? {
      WorkKept(b.db, b.loopId, w, b.target);
      WorkTold(b.db, b.loopId, w, b.target);
      var r := Work(b.db, b.loopId, w);
      if r.Ready? {
        ReportIsGated(r.db, b.loopId, b.target, b.continued, w);
        hide Books, Told, Begin, Work, Settle, ReportOf, Gated, TargetOpen;
        SettleTold(r.db, b.loopId, b.target, ReportOf(r.db, b.loopId, b.target, b.continued, w), w, limits);
      }
    }
  }

  lemma TurnTold(db: Db, t: Turn, limits: Stagnation.Limits)
    requires Books(db) && Told(db)
    ensures Told(AfterTurn(db, t, limits))
  {
    if t.Loop? { StepTold(db, t.world, limits); }
    hide Told, Step, Books;
    if !t.Loop? { SameBooks(db, AfterTurn(db, t, limits)); }
  }

  /** Conservation over every run, whatever other tasks write: best holds exactly the keys the traces report as newly passed,
      and no key is reported by two traces. */
  lemma {:induction false} TracesAccountForBest(db: Db, turns: seq<Turn>, limits: Stagnation.Limits)
    requires Books(db) && Told(db)
    ensures var after := AfterTurns(db, turns, limits);
            NewlyOf(after.traces) == BestKeys(after) && ReportedOnce(after.traces)
    decreases |turns|
  {
    if turns != [] {
      var next := AfterTurn(db, turns[0], limits);
      TurnKeepsBooks(db, turns[0], limits);
      TurnTold(db, turns[0], limits);
      hide Books, AfterTurn, Told;
      TracesAccountForBest(next, turns[1..], limits);
    }
  }
}
