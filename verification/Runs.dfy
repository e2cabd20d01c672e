// loop_orchestrator.run and the operator's commands: what holds over whole runs.
module Runs {
  import opened Domain
  import opened Ordering
  import opened Repository
  import opened RefactorTransactions
  import opened Continuation
  import opened HungerEngine
  import opened Orchestrator
  import CheckKeys
  import CommitManager
  import HungerUpdate
  import Planner
  import Stagnation
  import ValidationGate

  // ---- progress over one loop -----------------------------------------------------------------

  /** An item keeps its identity, and a closed one everything that matters here. */
  ghost predicate SameItem(a: HungerItem, b: HungerItem) {
    && b.id == a.id && b.checks == a.checks && b.mode == a.mode
    && (b.status == CLOSED <==> a.status == CLOSED) && (a.status == CLOSED ==> b.gapScore == a.gapScore)
  }

  ghost predicate ItemsKept(a: seq<HungerItem>, b: seq<HungerItem>) {
    |a| <= |b| && forall i :: 0 <= i < |a| ==> SameItem(a[i], b[i])
  }

  ghost predicate IdsKept(a: seq<HungerItem>, b: seq<HungerItem>) {
    |a| <= |b| && forall i :: 0 <= i < |a| ==> b[i].id == a[i].id
  }

  /** What no loop, no command and no other task ever takes back. */
  ghost predicate Grown(a: Db, b: Db) {
    && IdsKept(a.items, b.items) && BestKeys(a) <= BestKeys(b) && a.accepted.Keys <= b.accepted.Keys
    && a.events <= b.events && a.lastLoopId <= b.lastLoopId
    && b.policy.continuationMaxChain == a.policy.continuationMaxChain
  }

  /** ... and, where no other task's row stands in for a ledger item, neither are the items. */
  ghost predicate Advanced(a: Db, b: Db) {
    Grown(a, b) && ItemsKept(a.items, b.items)
  }

  lemma GrownTransitive(a: Db, b: Db, c: Db)
    requires Grown(a, b) && Grown(b, c)
    ensures Grown(a, c)
  {
    assert forall i :: 0 <= i < |a.items| ==> c.items[i].id == b.items[i].id;
  }

  lemma ItemsKeptTransitive(a: seq<HungerItem>, b: seq<HungerItem>, c: seq<HungerItem>)
    requires ItemsKept(a, b) && ItemsKept(b, c)
    ensures ItemsKept(a, c)
  {
    forall i | 0 <= i < |a| ensures SameItem(a[i], c[i]) {
      assert SameItem(a[i], b[i]) && SameItem(b[i], c[i]);
    }
  }

  lemma AdvancedTransitive(a: Db, b: Db, c: Db)
    requires Advanced(a, b) && Advanced(b, c)
    ensures Advanced(a, c)
  {
    hide Grown, ItemsKept;
    GrownTransitive(a, b, c);
    ItemsKeptTransitive(a.items, b.items, c.items);
  }

  lemma SameStoreGrows(a: Db, b: Db)
    requires IdsKept(a.items, b.items) && b.best == a.best && b.accepted == a.accepted && a.events <= b.events
    requires a.lastLoopId <= b.lastLoopId && b.policy == a.policy
    ensures Grown(a, b)
  {
  }

  lemma SameStoreAdvances(a: Db, b: Db)
    requires ItemsKept(a.items, b.items) && b.best == a.best && b.accepted == a.accepted && a.events <= b.events
    requires a.lastLoopId <= b.lastLoopId && b.policy == a.policy
    ensures Advanced(a, b)
  {
    assert forall i :: 0 <= i < |a.items| ==> SameItem(a.items[i], b.items[i]);
  }

  lemma PrefixIsKept(a: seq<HungerItem>, b: seq<HungerItem>)
    requires a <= b
    ensures ItemsKept(a, b)
  {
    assert forall i :: 0 <= i < |a| ==> b[i] == a[i];
  }

  lemma DecideAdvances(db: Db, w: World)
    ensures var after := Decide(db, w).0;
            Advanced(db, after) && after.policy == db.policy && after.best == db.best
  {
    hide BaseSnapshot, Append, Advanced, ItemsKept;
    AppendFrame(db, w.refinement);
    PrefixIsKept(db.items, db.items);
    PrefixIsKept(db.items, Append(db, w.refinement).items);
    SameStoreAdvances(db, Decide(db, w).0);
  }

  lemma PlanLoopAdvances(db: Db, w: World)
    ensures var after := PlanLoop(db, w).0;
            && Advanced(db, after) && after.policy == db.policy && after.best == db.best && after.clock == Counted(db).clock
  {
    hide Planner.Plan, Continued, Advanced, ItemsKept;
    ContinuedFrame(Counted(db), db.lastLoopId + 1, Planner.Plan(db.items, w.maxWorkers).Some?, w.sourceAvailable);
    PrefixIsKept(db.items, db.items);
    SameStoreAdvances(db, PlanLoop(db, w).0);
  }

  lemma EmptyPlanAdvances(db: Db, loopId: nat, limits: Stagnation.Limits)
    ensures var after := EmptyPlan(db, loopId, limits).0;
            Advanced(db, after) && after.policy == db.policy && after.best == db.best && after.clock == db.clock
  {
    PrefixIsKept(db.items, db.items);
    SameStoreAdvances(db, EmptyPlan(db, loopId, limits).0);
  }

  lemma BeginAdvances(db: Db, w: World, limits: Stagnation.Limits)
    ensures var after := Begin(db, w, limits).db;
            Advanced(db, after) && after.policy == db.policy && after.best == db.best
  {
    hide Decide, PlanLoop, EmptyPlan, Advanced;
    DecideAdvances(db, w);
    var (d, outcome) := Decide(db, w);
    if outcome == Continue {
      PlanLoopAdvances(d, w);
      var (planned, plan, _) := PlanLoop(d, w);
      AdvancedTransitive(db, d, planned);
      if plan.None? {
        EmptyPlanAdvances(planned, planned.lastLoopId, limits);
        AdvancedTransitive(db, planned, EmptyPlan(planned, planned.lastLoopId, limits).0);
      }
    }
  }

  lemma TakenItems(db: Db, loopId: int, h: Handoff)
    requires Books(db) && Taken(db, loopId, h).Some?
    ensures var after := Taken(db, loopId, h).value;
            IdsKept(db.items, after.items) && (Clear(db) ==> ItemsKept(db.items, after.items))
  {
    PrefixIsKept(db.items, db.items);
    match h {
      case Blocker(id) =>
        if Find(RowsOf(db), id).value.status != CLOSED {
          MarkKeepsIds(db, id);
          if Clear(db) { MarkIsOwnWork(db, id); }
        }
      case Discovery(item) =>
        AppendFrame(db, [item]);
        PrefixIsKept(db.items, Append(db, [item]).items);
      case OpenRefactor(declared, snapshotOk) => OpenIsSound(db, loopId, declared, snapshotOk);
      case CloseRefactor(restoreOk) => SettlementKeepsBest(db, restoreOk);
    }
  }

  lemma {:induction false} TakenAllItems(db: Db, loopId: int, handoffs: seq<Handoff>, target: string)
    requires Books(db) && TargetOpen(db, target)
    ensures var after := TakenAll(db, loopId, handoffs).0;
            IdsKept(db.items, after.items) && (Clear(db) ==> ItemsKept(db.items, after.items))
    decreases |handoffs|
  {
    PrefixIsKept(db.items, db.items);
    if handoffs != [] && Taken(db, loopId, handoffs[0]).Some? {
      var next := Taken(db, loopId, handoffs[0]).value;
      TakenItems(db, loopId, handoffs[0]);
      TakenKept(db, loopId, handoffs[0], target);
      TakenAllItems(next, loopId, handoffs[1..], target);
      var after := TakenAll(db, loopId, handoffs).0;
      assert forall i :: 0 <= i < |db.items| ==> after.items[i].id == next.items[i].id;
      if Clear(db) { ItemsKeptTransitive(db.items, next.items, after.items); }
    }
  }

  lemma WorkGrows(db: Db, loopId: nat, w: World, target: string)
    requires Books(db) && TargetOpen(db, target)
    ensures var after := Work(db, loopId, w).db;
            && Grown(db, after) && (Clear(db) ==> Advanced(db, after))
            && after.policy == db.policy && after.best == db.best
  {
    var spent := Spent(db, w);
    PrefixIsKept(db.items, db.items);
    SameStoreAdvances(db, spent);
    if !w.worker.Finished? {
      SameStoreAdvances(db, Work(db, loopId, w).db);
    } else {
      Frame(db, spent);
      TargetFrame(db, spent, target);
      TakenAllItems(spent, loopId, w.handoffs, target);
      TakenAllKept(spent, loopId, w.handoffs, target);
      HandoffsGrow(db, loopId, w);
    }
  }

  lemma {:induction false} HandoffsGrow(db: Db, loopId: nat, w: World)
    requires w.worker.Finished? && (Clear(db) ==> Clear(Spent(db, w)))
    requires var taken := TakenAll(Spent(db, w), loopId, w.handoffs).0;
             && OnlyRowsAndTxn(Spent(db, w), taken) && IdsKept(db.items, taken.items)
             && (Clear(Spent(db, w)) ==> ItemsKept(db.items, taken.items))
    ensures var after := Work(db, loopId, w).db;
            && Grown(db, after) && (Clear(db) ==> Advanced(db, after))
            && after.policy == db.policy && after.best == db.best
  {
    hide TakenAll, Clear, Proposed, ItemsKept, Grown, Advanced, IdsKept;
    var (taken, ok) := TakenAll(Spent(db, w), loopId, w.handoffs);
    var after := Work(db, loopId, w).db;
    ProposedFrame(taken, w);
    PrefixIsKept(taken.items, after.items);
    IdsThenMore(db.items, taken.items, after.items);
    SameStoreGrows(db, after);
    if Clear(db) {
      ItemsKeptTransitive(db.items, taken.items, after.items);
      SameStoreAdvances(db, after);
    }
  }

  lemma ProposedFrame(db: Db, w: World)
    ensures var after := Proposed(db, w);
            && after == db.(items := after.items, others := after.others, copies := after.copies, streak := after.streak)
            && db.items <= after.items
  {
    hide Append;
    AppendFrame(db, w.proposals);
  }

  lemma IdsThenMore(a: seq<HungerItem>, b: seq<HungerItem>, c: seq<HungerItem>)
    requires IdsKept(a, b) && b <= c
    ensures IdsKept(a, c)
  {
    assert forall i :: 0 <= i < |a| ==> c[i] == b[i];
  }

  lemma JudgedItemsKept(db: Db, eff: Report, committed: bool, active: Option<Transaction>, loopId: int,
                        limits: Stagnation.Limits)
    ensures ItemsKept(db.items, Stagnation.Judged(db, eff, committed, active, loopId, limits))
  {
    var judged := Stagnation.Judged(db, eff, committed, active, loopId, limits);
    forall i | 0 <= i < |db.items| ensures SameItem(db.items[i], judged[i]) {
      Stagnation.JudgeKeepsGaps(db.items[i], eff, committed, active, loopId, db.policy, limits);
    }
  }

  lemma FinishAdvances(db: Db, loopId: nat, eff: Report, committed: bool, active: Option<Transaction>,
                       w: World, limits: Stagnation.Limits)
    requires TxnSound(db) && (!committed ==> eff.newly == [])
    ensures var after := Finish(db, loopId, eff, committed, active, w, limits).0;
            Advanced(db, after) && after.best == db.best && after.policy == db.policy
  {
    hide Stagnation.Judged, AutoOpenKeys, OpenTxn, CloseTxn, Advanced, ItemsKept, TxnSound, PreviousCandidateTrace;
    var judged := Stagnation.Updated(db, eff, committed, active, loopId, limits).0;
    JudgedItemsKept(db, eff, committed, active, loopId, limits);
    if !committed { AutoOpenNeverFires(judged.policy, eff, PreviousCandidateTrace(judged, loopId)); }
    SameTxnSound(db, judged);
    SettlementKeepsBest(judged, w.txnFilesOk);
    SameStoreAdvances(db, Finish(db, loopId, eff, committed, active, w, limits).0);
  }

  lemma SameTxnSound(a: Db, b: Db)
    requires TxnSound(a) && b.txn == a.txn && b.best == a.best
    ensures TxnSound(b)
  {
  }

  lemma FinishItems(db: Db, loopId: nat, eff: Report, committed: bool, active: Option<Transaction>,
                    w: World, limits: Stagnation.Limits)
    ensures Finish(db, loopId, eff, committed, active, w, limits).0.items
            == Stagnation.Judged(db, eff, committed, active, loopId, limits)
  {
    hide Stagnation.Judged, AutoOpenKeys, OpenTxn, SettleIfDue, PreviousCandidateTrace;
    var judged := Stagnation.Updated(db, eff, committed, active, loopId, limits).0;
    var keys := AutoOpenKeys(judged.policy, eff, PreviousCandidateTrace(judged, loopId));
    if keys.Some? { OpenKeepsItems(judged, loopId, keys.value, w.txnFilesOk); }
    SettlementKeepsItems(AutoOpened(judged, loopId, eff, committed, w), loopId, w.txnFilesOk);
  }

  lemma OpenKeepsItems(db: Db, loopId: int, declared: seq<string>, filesOk: bool)
    ensures OpenTxn(db, loopId, declared, filesOk).items == db.items
  {
    hide CanOpen;
  }

  lemma SettlementKeepsItems(db: Db, loopId: int, restoreOk: bool)
    ensures SettleIfDue(db, loopId, restoreOk).items == db.items
  {
    CloseFrame(db, restoreOk);
    hide CloseTxn;
  }

  lemma CommitAdvances(db: Db, loopId: nat, rep: Report, target: string, w: World)
    requires DistinctIds(db.items) && ReadableIds(db.items) && TargetOpen(db, target)
    requires Gated(rep, db, target) && rep.regressed == []
    ensures Advanced(db, CommittedAndUpdated(db, loopId, rep, w))
  {
    assert Elements(rep.regressed) == {};
    var after := HungerUpdate.UpdatedItems(db.items, rep);
    forall i | 0 <= i < |db.items| ensures SameItem(db.items[i], after[i]) {
      TouchedKeepsIdentity(db.items[i], rep);
      if db.items[i].status == CLOSED { ClosedIsUntouched(db, rep, target, i); }
    }
    assert ItemsKept(db.items, after) && IdsKept(db.items, after);
    CommitGrows(db, loopId, rep, target, w);
  }

  lemma CommitGrows(db: Db, loopId: nat, rep: Report, target: string, w: World)
    requires Gated(rep, db, target) && rep.regressed == []
    ensures var after := CommittedAndUpdated(db, loopId, rep, w);
            && BestKeys(db) <= BestKeys(after) && db.accepted.Keys <= after.accepted.Keys && db.events <= after.events
            && after.lastLoopId == db.lastLoopId && after.policy == db.policy
            && after.items == HungerUpdate.UpdatedItems(db.items, rep)
  {
    assert Elements(rep.regressed) == {};
    hide HungerUpdate.UpdatedItems, CommitManager.Credits, CommitManager.RowsFor, CommitManager.FinishFeatures;
  }

  /** A closed item gets no progress: new keys belong to the loop's item, which is not closed. */
  lemma ClosedIsUntouched(db: Db, rep: Report, target: string, i: nat)
    requires DistinctIds(db.items) && ReadableIds(db.items) && TargetOpen(db, target) && Gated(rep, db, target)
    requires i < |db.items| && db.items[i].status == CLOSED
    ensures HungerUpdate.Touched(db.items[i], rep) == db.items[i]
  {
    var id := db.items[i].id;
    if CountFor(rep.newly, id) > 0 {
      var k := SomeCounted(rep.newly, id);
      TargetIsReadable(db, target);
      KeysParse(db, rep, target);
      assert false;
    }
  }

  lemma CommittedAdvances(db: Db, loopId: nat, target: string, rep: Report, w: World, limits: Stagnation.Limits)
    requires Books(db) && TargetOpen(db, target) && Gated(rep, db, target)
    requires rep.regressed == [] && rep.newly != []
    ensures var after := Finish(CommittedAndUpdated(db, loopId, rep, w), loopId, rep, true, ActiveOf(db), w, limits).0;
            Advanced(db, after) && after.policy == db.policy
  {
    hide Finish, Advanced, Gated, TargetOpen, CommittedAndUpdated;
    var committed := CommittedAndUpdated(db, loopId, rep, w);
    CommitAdvances(db, loopId, rep, target, w);
    GatedAgainst(rep, db, target);
    CommitKeepsTxn(db, loopId, rep, w);
    CommitGrows(db, loopId, rep, target, w);
    FinishAdvances(committed, loopId, rep, true, ActiveOf(db), w, limits);
    AdvancedTransitive(db, committed, Finish(committed, loopId, rep, true, ActiveOf(db), w, limits).0);
  }

  lemma RejectedAdvances(db: Db, loopId: nat, eff: Report, w: World, limits: Stagnation.Limits)
    requires TxnSound(db) && eff.newly == []
    ensures var after := Finish(CommitManager.RejectedDb(db, CandidateOf(loopId, w)), loopId, eff, false, ActiveOf(db), w, limits).0;
            Advanced(db, after) && after.policy == db.policy
  {
    hide Finish, Advanced;
    var rejected := CommitManager.RejectedDb(db, CandidateOf(loopId, w));
    PrefixIsKept(db.items, db.items);
    SameStoreAdvances(db, rejected);
    FinishAdvances(rejected, loopId, eff, false, ActiveOf(db), w, limits);
    AdvancedTransitive(db, rejected, Finish(rejected, loopId, eff, false, ActiveOf(db), w, limits).0);
  }

  lemma SettleAdvances(db: Db, loopId: nat, target: string, rep: Report, w: World, limits: Stagnation.Limits)
    requires Books(db) && TargetOpen(db, target) && Gated(rep, db, target) && loopId <= db.lastLoopId
    ensures Advanced(db, Settle(db, loopId, rep, w, limits).0)
    ensures Settle(db, loopId, rep, w, limits).0.policy == db.policy
  {
    hide Settle, Finish, Advanced, Gated, TargetOpen, CommittedAndUpdated, DecisionOn;
    TargetIsReadable(db, target);
    SettleCases(db, loopId, target, rep, w, limits);
    var d := DecisionOn(db, loopId, rep, w);
    if d.Raised? {
      PrefixIsKept(db.items, db.items);
      SameStoreAdvances(db, WithTrace(db, ErrorTrace(loopId)));
    } else if d.committed {
      CommittedAdvances(db, loopId, target, rep, w, limits);
    } else {
      RejectedAdvances(db, loopId, Effective(rep, d), w, limits);
    }
  }

  /** One loop takes back no accepted key, no row, no event and no id, and no item that is its own. */
  lemma StepAdvances(db: Db, w: World, limits: Stagnation.Limits)
    requires Books(db)
    ensures var after := Step(db, w, limits).0;
            Grown(db, after) && (Clear(db) ==> Advanced(db, after)) && after.policy == db.policy
  {
    BeginAdvances(db, w, limits);
    BeginKept(db, w, limits);
    var b := Begin(db, w, limits);
    if b.Begun? {
      WorkKept(b.db, b.loopId, w, b.target);
      WorkGrows(b.db, b.loopId, w, b.target);
      var r := Work(b.db, b.loopId, w);
      hide Begin, Work, Settle, ReportOf, Grown, ItemsKept, Books, Clear, TargetOpen, Redundant;
      GrownTransitive(db, b.db, r.db);
      if Clear(db) { AdvancedTransitive(db, b.db, r.db); }
      if r.Ready? { ValidateAdvances(db, r.db, b.loopId, b.target, b.continued, w, limits); }
    }
  }

  lemma ValidateAdvances(db: Db, ready: Db, loopId: nat, target: string, continued: bool, w: World, limits: Stagnation.Limits)
    requires Books(ready) && TargetOpen(ready, target) && loopId <= ready.lastLoopId
    requires Grown(db, ready) && (Clear(db) ==> Advanced(db, ready)) && ready.policy == db.policy
    ensures var after := Validate(ready, loopId, target, continued, w, limits).0;
            Grown(db, after) && (Clear(db) ==> Advanced(db, after)) && after.policy == db.policy
  {
    ReportIsGated(ready, loopId, target, continued, w);
    hide Settle, ReportOf, Grown, ItemsKept, Books, Clear, TargetOpen, Redundant, Gated;
    if Redundant(ready, continued, w) || !w.validationSafetyStop {
      SettleAdvances(ready, loopId, target, ReportOf(ready, loopId, target, continued, w), w, limits);
      var after := Validate(ready, loopId, target, continued, w, limits).0;
      GrownTransitive(db, ready, after);
      if Clear(db) { AdvancedTransitive(db, ready, after); }
    }
  }

  lemma BestAfterLoop(db: Db, loopId: nat, target: string, rep: Report, w: World, limits: Stagnation.Limits)
    requires Books(db) && TargetOpen(db, target) && Gated(rep, db, target)
    ensures var d := DecisionOn(db, loopId, rep, w);
            Settle(db, loopId, rep, w, limits).0.best ==
            if d.Decided? && d.committed then Some(CommitManager.BestFor(CandidateOf(loopId, w), rep)) else db.best
  {
    TargetIsReadable(db, target);
    SettleCases(db, loopId, target, rep, w, limits);
    hide Settle, Finish, Books, Gated, TargetOpen;
    var d := DecisionOn(db, loopId, rep, w);
    if d.Decided? && d.committed {
      CommittedLoop(db, loopId, target, rep, w, limits);
    } else if d.Decided? {
      RejectedLoop(db, loopId, Effective(rep, d), ActiveOf(db), w, limits);
    }
  }

  /** Some report on the loop's candidate passed the gate as it is without any transaction. */
  ghost predicate CommittedOn(db: Db, after: Db, loopId: nat, w: World) {
    exists rep: Report ::
      && ReportsAgainst(rep, BestKeys(db)) && CommitManager.CanCommit(rep, db.policy, None)
      && after.best == Some(CommitManager.BestFor(CandidateOf(loopId, w), rep))
  }

  lemma SettleMovesBest(db: Db, loopId: nat, target: string, rep: Report, w: World, limits: Stagnation.Limits)
    requires Books(db) && TargetOpen(db, target) && Gated(rep, db, target)
    ensures var after := Settle(db, loopId, rep, w, limits).0;
            after.best != db.best ==> CommittedOn(db, after, loopId, w) && BestKeys(db) < BestKeys(after)
  {
    BestAfterLoop(db, loopId, target, rep, w, limits);
    var d := DecisionOn(db, loopId, rep, w);
    if d.Decided? && d.committed {
      CommitManager.ToleranceNeverUsed(rep, db.policy, ActiveOf(db));
      CommitIsStrict(db, loopId, rep, target, w);
    }
  }

  lemma CommittedAgain(a: Db, b: Db, after: Db, loopId: nat, w: World)
    requires a.best == b.best && a.policy == b.policy
    ensures CommittedOn(a, after, loopId, w) == CommittedOn(b, after, loopId, w)
  {
    assert BestKeys(a) == BestKeys(b);
  }

  /** Best moves only when a gate report is committed on its own strength, and then it strictly
      grows: neither an open transaction's tolerance nor its settlement nor another task's row ever
      moves it otherwise. */
  lemma BestMovesOnlyByTheGate(db: Db, w: World, limits: Stagnation.Limits)
    requires Books(db)
    ensures var after := Step(db, w, limits).0;
            after.best != db.best ==> CommittedOn(db, after, db.lastLoopId + 1, w) && BestKeys(db) < BestKeys(after)
  {
    BeginKept(db, w, limits);
    BeginAdvances(db, w, limits);
    var b := Begin(db, w, limits);
    if b.Begun? {
      BeginNumbers(db, w, limits);
      WorkKept(b.db, b.loopId, w, b.target);
      WorkGrows(b.db, b.loopId, w, b.target);
      var r := Work(b.db, b.loopId, w);
      if r.Ready? {
        ReportIsGated(r.db, b.loopId, b.target, b.continued, w);
        hide Begin, Work, Settle, ReportOf, Gated, TargetOpen, Books, CommittedOn, Grown, Advanced, Redundant;
        CommittedAgain(r.db, db, Settle(r.db, b.loopId, ReportOf(r.db, b.loopId, b.target, b.continued, w), w, limits).0,
                       b.loopId, w);
        SettleMovesBest(r.db, b.loopId, b.target, ReportOf(r.db, b.loopId, b.target, b.continued, w), w, limits);
      }
    }
  }

  lemma BeginNumbers(db: Db, w: World, limits: Stagnation.Limits)
    requires Begin(db, w, limits).Begun?
    ensures Begin(db, w, limits).loopId == db.lastLoopId + 1
  {
    DecideKept(db, w);
    hide Decide, Kept, Planner.Plan, Continued;
  }

  /** A pass with a blocker on an unknown id ends the run in ERROR and leaves what the handoffs before it wrote. */
  lemma UnknownBlockerStops(db: Db, w: World, limits: Stagnation.Limits, n: nat)
    requires var b := Begin(db, w, limits);
             b.Begun? && w.worker.Finished? && RaisesAt(Spent(b.db, w), b.loopId, w.handoffs, n)
    ensures var b := Begin(db, w, limits);
            Step(db, w, limits)
            == (WithTrace(TakenAll(Spent(b.db, w), b.loopId, w.handoffs[..n]).0, ErrorTrace(b.loopId)), Stop(ERROR))
  {
    var b := Begin(db, w, limits);
    HandoffsRaiseIff(Spent(b.db, w), b.loopId, w.handoffs);
    hide Begin, TakenAll, RaisesAt;
  }

  // ---- who opens a refactor transaction ---------------------------------------------------------

  lemma {:induction false} TakenAllOpensNothing(db: Db, loopId: int, handoffs: seq<Handoff>)
    requires !IsOpen(db) && forall i :: 0 <= i < |handoffs| ==> !handoffs[i].OpenRefactor?
    ensures !IsOpen(TakenAll(db, loopId, handoffs).0)
    decreases |handoffs|
  {
    if handoffs != [] && Taken(db, loopId, handoffs[0]).Some? {
      TakenOpensNothing(db, loopId, handoffs[0]);
      hide Taken, IsOpen;
      TakenAllOpensNothing(Taken(db, loopId, handoffs[0]).value, loopId, handoffs[1..]);
    }
  }

  lemma TakenOpensNothing(db: Db, loopId: int, h: Handoff)
    requires !IsOpen(db) && !h.OpenRefactor? && Taken(db, loopId, h).Some?
    ensures !IsOpen(Taken(db, loopId, h).value)
  {
    if h.Discovery? { AppendFrame(db, [h.item]); }
    hide Append;
  }

  lemma FinishOpensNothing(db: Db, loopId: nat, eff: Report, committed: bool, active: Option<Transaction>,
                           w: World, limits: Stagnation.Limits)
    requires !IsOpen(db) && (!committed ==> eff.newly == [])
    ensures !IsOpen(Finish(db, loopId, eff, committed, active, w, limits).0)
  {
    var judged := Stagnation.Updated(db, eff, committed, active, loopId, limits).0;
    if !committed { AutoOpenNeverFires(judged.policy, eff, PreviousCandidateTrace(judged, loopId)); }
    hide Stagnation.Judged, AutoOpenKeys, CloseTxn;
    assert AutoOpened(judged, loopId, eff, committed, w) == judged;
    assert !IsOpen(judged);
  }

  lemma BeginKeepsTxn(db: Db, w: World, limits: Stagnation.Limits)
    ensures Begin(db, w, limits).db.txn == db.txn
  {
    hide BaseSnapshot, Append, Planner.Plan, Continued;
    AppendFrame(db, w.refinement);
    var d := Decide(db, w).0;
    assert d.txn == db.txn;
    ContinuedFrame(Counted(d), d.lastLoopId + 1, Planner.Plan(d.items, w.maxWorkers).Some?, w.sourceAvailable);
    hide Decide;
  }

  /** A transaction opens only where a worker proposes it: no loop opens one by itself, whatever the auto-open
      policy says and whatever regressed. */
  lemma OpensOnlyByHandoff(db: Db, w: World, limits: Stagnation.Limits)
    requires Books(db) && !IsOpen(db) && forall i :: 0 <= i < |w.handoffs| ==> !w.handoffs[i].OpenRefactor?
    ensures !IsOpen(Step(db, w, limits).0)
  {
    BeginKeepsTxn(db, w, limits);
    BeginKept(db, w, limits);
    var b := Begin(db, w, limits);
    if b.Begun? {
      WorkKept(b.db, b.loopId, w, b.target);
      WorkOpensNothing(b.db, b.loopId, w);
      var r := Work(b.db, b.loopId, w);
      if r.Ready? {
        ReportIsGated(r.db, b.loopId, b.target, b.continued, w);
        hide Begin, Work, Settle, ReportOf, Gated, Redundant, Books, IsOpen;
        SettleOpensNothing(r.db, b.loopId, b.target, ReportOf(r.db, b.loopId, b.target, b.continued, w), w, limits);
      }
    }
  }

  lemma WorkOpensNothing(db: Db, loopId: nat, w: World)
    requires !IsOpen(db) && forall i :: 0 <= i < |w.handoffs| ==> !w.handoffs[i].OpenRefactor?
    ensures !IsOpen(Work(db, loopId, w).db)
  {
    var spent := Spent(db, w);
    TakenAllOpensNothing(spent, loopId, w.handoffs);
    hide TakenAll, Append;
    AppendFrame(TakenAll(spent, loopId, w.handoffs).0, w.proposals);
  }

  lemma SettleOpensNothing(db: Db, loopId: nat, target: string, rep: Report, w: World, limits: Stagnation.Limits)
    requires Books(db) && TargetOpen(db, target) && Gated(rep, db, target) && !IsOpen(db)
    ensures !IsOpen(Settle(db, loopId, rep, w, limits).0)
  {
    hide Settle, Finish, Gated, TargetOpen, Books, DecisionOn, CommittedAndUpdated, IsOpen;
    BooksParts(db);
    TargetIsReadable(db, target);
    SettleCases(db, loopId, target, rep, w, limits);
    SameTxn(db, WithTrace(db, ErrorTrace(loopId)));
    var d := DecisionOn(db, loopId, rep, w);
    if d.Decided? && d.committed {
      CommitKeepsTxnRow(db, loopId, rep, w);
      SameTxn(db, CommittedAndUpdated(db, loopId, rep, w));
      FinishOpensNothing(CommittedAndUpdated(db, loopId, rep, w), loopId, rep, true, ActiveOf(db), w, limits);
    } else if d.Decided? {
      SameTxn(db, CommitManager.RejectedDb(db, CandidateOf(loopId, w)));
      FinishOpensNothing(CommitManager.RejectedDb(db, CandidateOf(loopId, w)), loopId, Effective(rep, d), false, ActiveOf(db), w, limits);
    }
  }

  lemma CommitKeepsTxnRow(db: Db, loopId: nat, rep: Report, w: World)
    ensures CommittedAndUpdated(db, loopId, rep, w).txn == db.txn
  {
  }

  lemma SameTxn(a: Db, b: Db)
    requires b.txn == a.txn
    ensures IsOpen(b) == IsOpen(a)
  {
  }

  // ---- turns: loops and the operator's commands -------------------------------------------------

  /** Loops, `cli/hunger_cmd.py` and the flags of `cli/run_cmd.py` that change a task between them, and
      another task's row of some id becoming the newest. */
  datatype Turn =
    | Loop(world: World)
    | Elsewhere(row: HungerItem)
    | Freeze
    | Resume
    | Refill(loops: nat)
    | Unblock(itemId: string)
    | UnblockAll
    | Flags(budgetLoops: Option<int>, spendBudget: bool, ignoreStagnation: bool, costCeiling: Option<real>)

  function Unblocked(item: HungerItem): HungerItem {
    if item.status == BLOCKED then item.(status := OPEN, failures := 0, lastProgressLoop := None) else item
  }

  function WithFlags(p: Policy, t: Turn): Policy
    requires t.Flags?
  {
    var p := if t.budgetLoops.Some? then p.(decayType := LOOP_COUNT, decayDuration := t.budgetLoops.value as real) else p;
    var p := if t.spendBudget then p.(completionMode := SPEND_BUDGET) else p;
    var p := if t.ignoreStagnation then p.(respectStagnation := false) else p;
    if t.costCeiling.Some? then p.(maxCost := t.costCeiling.value) else p
  }

  function AfterTurn(db: Db, t: Turn, limits: Stagnation.Limits): Db {
    match t
    case Loop(w) => Step(db, w, limits).0
    case Elsewhere(row) => db.(others := db.others[row.id := row])
    case Freeze => db.(clock := db.clock.(frozen := true))
    case Resume => db.(clock := db.clock.(frozen := false))
    case Refill(loops) =>
      db.(clock := db.clock.(loopCount := if db.clock.loopCount > loops then db.clock.loopCount - loops else 0))
    case Unblock(id) =>
      db.(items := seq(|db.items|, i requires 0 <= i < |db.items| =>
                        if db.items[i].id == id then Unblocked(db.items[i]) else db.items[i]))
    case UnblockAll =>
      db.(items := seq(|db.items|, i requires 0 <= i < |db.items| => Unblocked(db.items[i])), streak := 0)
    case Flags(_, _, _, _) => db.(policy := WithFlags(db.policy, t))
  }

  function AfterTurns(db: Db, turns: seq<Turn>, limits: Stagnation.Limits): Db
    decreases |turns|
  {
    if turns == [] then db else AfterTurns(AfterTurn(db, turns[0], limits), turns[1..], limits)
  }

  /** No row of another task comes in under an id of ours. */
  ghost predicate Undisturbed(db: Db, turns: seq<Turn>, limits: Stagnation.Limits)
    decreases |turns|
  {
    turns != [] ==>
      && (turns[0].Elsewhere? ==> !Ours(db, turns[0].row.id))
      && Undisturbed(AfterTurn(db, turns[0], limits), turns[1..], limits)
  }

  lemma UnblockKept(db: Db, items: seq<HungerItem>)
    requires |items| == |db.items|
    requires forall i :: 0 <= i < |items| ==> items[i] == db.items[i] || items[i] == Unblocked(db.items[i])
    ensures Kept(db, db.(items := items)) && Advanced(db, db.(items := items))
  {
    SameWorkKept(db, items);
    SameStoreAdvances(db, db.(items := items));
  }

  lemma FlagsKept(db: Db, p: Policy)
    requires p.continuationMaxChain == db.policy.continuationMaxChain
    ensures Kept(db, db.(policy := p))
  {
    var after := db.(policy := p);
    assert ChainsSound(db) ==> ChainsSound(after) by {
      forall l: int | ChainsSound(db) && Seeded(after.events, l)
        ensures ChainAt(after.events, l) == ChainAt(after.events, l - 1) + 1 <= after.policy.continuationMaxChain
      {
        SeedFacts(db, l);
      }
    }
    assert TxnSound(db) ==> TxnSound(after);
    EventsFrame(db, after);
  }

  lemma ElsewhereKept(db: Db, row: HungerItem)
    ensures var after := db.(others := db.others[row.id := row]);
            && (Books(db) ==> Books(after)) && Grown(db, after)
            && (Sound(db) ==> (Sound(after) <==> !Ours(db, row.id)) && Advanced(db, after))
  {
    var after := db.(others := db.others[row.id := row]);
    RowsFrame(db, after);
    PrefixIsKept(db.items, db.items);
    SameStoreAdvances(db, after);
    assert BestKeys(after) == BestKeys(db);
    assert Coupled(after) == Coupled(db) && KeysOwned(after) == KeysOwned(db);
    assert forall id :: Ours(after, id) == Ours(db, id);
    assert Clear(db) ==> (Clear(after) <==> !Ours(db, row.id)) by { assert row.id in after.others; }
    hide Books, Clear, Coupled, KeysOwned, Ours;
  }

  /** A turn other than another task's write. */
  lemma TurnKept(db: Db, t: Turn, limits: Stagnation.Limits)
    requires Books(db) && !t.Elsewhere?
    ensures var after := AfterTurn(db, t, limits);
            && Books(after) && (Clear(db) ==> Clear(after)) && (Sound(db) ==> Sound(after))
            && Grown(db, after) && (Clear(db) ==> Advanced(db, after))
  {
    var after := AfterTurn(db, t, limits);
    PrefixIsKept(db.items, db.items);
    match t {
      case Loop(w) =>
        StepKeepsSound(db, w, limits);
        StepAdvances(db, w, limits);
      case Unblock(_) => UnblockKept(db, after.items);
      case UnblockAll =>
        UnblockKept(db, after.items);
        Frame(db.(items := after.items), after);
        UnblockAdvances(db, after);
      case Flags(_, _, _, _) =>
        FlagsKept(db, after.policy);
        FlagsGrow(db, after.policy);
      case _ =>
        Frame(db, after);
        SameStoreAdvances(db, after);
    }
    hide Sound, Books, Clear, Grown, ItemsKept, AfterTurn;
  }

  lemma UnblockAdvances(db: Db, after: Db)
    requires Advanced(db, db.(items := after.items)) && after == db.(items := after.items, streak := after.streak)
    ensures Advanced(db, after)
  {
  }

  lemma FlagsGrow(db: Db, p: Policy)
    requires p.continuationMaxChain == db.policy.continuationMaxChain && ItemsKept(db.items, db.items)
    ensures Advanced(db, db.(policy := p))
  {
  }

  lemma TurnKeepsBooks(db: Db, t: Turn, limits: Stagnation.Limits)
    requires Books(db)
    ensures Books(AfterTurn(db, t, limits)) && Grown(db, AfterTurn(db, t, limits))
  {
    hide Sound, Books, Clear, Grown;
    if t.Elsewhere? { ElsewhereKept(db, t.row); } else { TurnKept(db, t, limits); }
  }

  lemma TurnKeepsSound(db: Db, t: Turn, limits: Stagnation.Limits)
    requires Sound(db) && (t.Elsewhere? ==> !Ours(db, t.row.id))
    ensures Sound(AfterTurn(db, t, limits)) && Advanced(db, AfterTurn(db, t, limits))
  {
    if t.Elsewhere? { ElsewhereKept(db, t.row); } else { TurnKept(db, t, limits); }
    hide Advanced, Books, Clear, Ours;
  }

  /** Over any run, whatever other tasks write: the books are kept and nothing earned is taken back. */
  lemma {:induction false} RunsKeepBooks(db: Db, turns: seq<Turn>, limits: Stagnation.Limits)
    requires Books(db)
    ensures Books(AfterTurns(db, turns, limits)) && Grown(db, AfterTurns(db, turns, limits))
    decreases |turns|
  {
    hide Books;
    if turns != [] {
      var next := AfterTurn(db, turns[0], limits);
      TurnKeepsBooks(db, turns[0], limits);
      RunsKeepBooks(next, turns[1..], limits);
      GrownTransitive(db, next, AfterTurns(db, turns, limits));
    }
  }

  /** Over any undisturbed run: the invariant holds, and no item is taken back either. */
  lemma {:induction false} RunsKeepSound(db: Db, turns: seq<Turn>, limits: Stagnation.Limits)
    requires Sound(db) && Undisturbed(db, turns, limits)
    ensures Sound(AfterTurns(db, turns, limits)) && Advanced(db, AfterTurns(db, turns, limits))
    decreases |turns|
  {
    hide Sound;
    if turns != [] {
      var next := AfterTurn(db, turns[0], limits);
      TurnKeepsSound(db, turns[0], limits);
      RunsKeepSound(next, turns[1..], limits);
      AdvancedTransitive(db, next, AfterTurns(db, turns, limits));
    } else {
      PrefixIsKept(db.items, db.items);
    }
  }

  // ---- the ledger agrees with best ------------------------------------------------------------------

  lemma {:induction false} ShareGrows(j: nat, k: nat, n: nat)
    requires j <= k && n > 0
    ensures HungerUpdate.Share(j, n) <= HungerUpdate.Share(k, n)
  {
    HungerUpdate.ShareAdds(j, k - j, n);
  }

  lemma MoreKeysLessGap(item: HungerItem, before: set<string>, after: set<string>)
    requires before <= after
    ensures HungerUpdate.GapOf(item, after) <= HungerUpdate.GapOf(item, before)
  {
    assert KeysOf(item) * before <= KeysOf(item) * after;
    HungerUpdate.SubsetSize(KeysOf(item) * before, KeysOf(item) * after);
    ShareGrows(|KeysOf(item) * before|, |KeysOf(item) * after|, HungerUpdate.TotalChecks(item));
  }

  lemma CoupledAt(db: Db, i: nat)
    requires Coupled(db) && i < |db.items|
    ensures db.items[i].status != CLOSED ==> db.items[i].gapScore == HungerUpdate.GapOf(db.items[i], BestKeys(db))
    ensures db.items[i].status == VALIDATED_SATISFIED ==> db.items[i].gapScore == 0.0
  {
  }

  lemma GapsFollowBest(before: Db, after: Db, i: nat)
    requires Coupled(before) && Coupled(after) && i < |before.items| && i < |after.items|
    requires SameItem(before.items[i], after.items[i]) && BestKeys(before) <= BestKeys(after)
    ensures var a, b := before.items[i], after.items[i];
            && (b.status != CLOSED ==> b.gapScore == HungerUpdate.GapOf(b, BestKeys(after)))
            && b.gapScore <= a.gapScore && (BestKeys(after) == BestKeys(before) ==> b.gapScore == a.gapScore)
  {
    var a, b := before.items[i], after.items[i];
    CoupledAt(before, i);
    CoupledAt(after, i);
    MoreKeysLessGap(a, BestKeys(before), BestKeys(after));
    assert forall keys :: HungerUpdate.GapOf(b, keys) == HungerUpdate.GapOf(a, keys);
    hide Coupled;
  }

  /** The ledger agrees with best after every turn of every undisturbed run: each gap is what the accepted
      keys say, no gap ever rises, and none moves unless best does. */
  lemma {:induction false} LedgerAgreesWithBest(db: Db, turns: seq<Turn>, limits: Stagnation.Limits, i: nat)
    requires Sound(db) && Undisturbed(db, turns, limits) && i < |db.items|
    ensures var after := AfterTurns(db, turns, limits);
            && i < |after.items| && after.items[i].id == db.items[i].id
            && (after.items[i].status != CLOSED ==>
                  after.items[i].gapScore == HungerUpdate.GapOf(after.items[i], BestKeys(after)))
            && after.items[i].gapScore <= db.items[i].gapScore
            && (BestKeys(after) == BestKeys(db) ==> after.items[i].gapScore == db.items[i].gapScore)
  {
    RunsKeepSound(db, turns, limits);
    var after := AfterTurns(db, turns, limits);
    assert Coupled(db) && Coupled(after) && SameItem(db.items[i], after.items[i]);
    hide Books, Clear, Coupled, KeysOwned, HungerUpdate.GapOf, AfterTurns, Undisturbed;
    GapsFollowBest(db, after, i);
  }

  // ---- DONE is sound ---------------------------------------------------------------------------------

  const SNAP_LIMIT := 1_000_000_000

  predicate Finished(item: HungerItem, accepted: set<string>) {
    item.status == CLOSED || (item.checks > 0 && Met(item, accepted))
  }

  /** A zero gap says the acceptance rule is met, as long as the snap cannot round away a check. */
  lemma ZeroGapIffMet(item: HungerItem, accepted: set<string>)
    requires item.checks < SNAP_LIMIT
    ensures HungerUpdate.GapOf(item, accepted) <= 0.0 <==> item.checks > 0 && Met(item, accepted)
  {
    var keys, n := KeysOf(item), HungerUpdate.TotalChecks(item);
    var k := |keys * accepted|;
    if item.mode == ModeAll {
      HungerUpdate.KeyCount(item.id, item.checks);
      assert |keys| == item.checks;
      HungerUpdate.SubsetSize(keys * accepted, keys);
      HungerUpdate.AllKeys(keys, accepted);
      HungerUpdate.WholeShare(n);
      HungerUpdate.SnapsEarlyIff(n);
      assert k <= n;
      ShareGrows(k, n, n);
      assert k < n ==> HungerUpdate.Snap(1.0 - HungerUpdate.Share(k, n)) != 0.0;
    } else if keys * accepted != {} {
      var key :| key in keys * accepted;
      var i :| 0 <= i < item.checks && key == CheckKeys.MakeCheckKey(item.id, i);
    }
  }

  /** The ledger is done exactly when every item that is not closed has checks and best meets them. */
  lemma DoneIff(db: Db)
    requires Coupled(db) && forall i :: 0 <= i < |db.items| ==> db.items[i].checks < SNAP_LIMIT
    ensures IsDone(db.items) <==> forall i :: 0 <= i < |db.items| ==> Finished(db.items[i], BestKeys(db))
  {
    forall i | 0 <= i < |db.items| ensures !Unfinished(db.items[i]) <==> Finished(db.items[i], BestKeys(db)) {
      CoupledAt(db, i);
      ZeroGapIffMet(db.items[i], BestKeys(db));
    }
  }

  /** The bound is the right one: with a thousand million checks or more, some accepted set
      closes the gap although a check is missing. */
  lemma ZeroGapMeansMetIff(item: HungerItem)
    requires item.mode == ModeAll && item.checks > 0
    ensures (forall accepted :: HungerUpdate.GapOf(item, accepted) <= 0.0 ==> Met(item, accepted))
            <==> item.checks < SNAP_LIMIT
  {
    var n := item.checks;
    if n < SNAP_LIMIT {
      forall accepted | HungerUpdate.GapOf(item, accepted) <= 0.0 ensures Met(item, accepted) {
        ZeroGapIffMet(item, accepted);
      }
    } else {
      HungerUpdate.SnapsEarlyIff(n);
      var k: nat :| k < n && HungerUpdate.Snap(1.0 - HungerUpdate.Share(k, n)) == 0.0;
      var some := set i | 0 <= i < k :: CheckKeys.MakeCheckKey(item.id, i);
      HungerUpdate.KeyCount(item.id, k);
      HungerUpdate.KeyCount(item.id, n);
      assert some <= KeysOf(item);
      assert KeysOf(item) * some == some;
      assert |KeysOf(item)| == n;
      assert HungerUpdate.GapOf(item, some) <= 0.0;
      assert !Met(item, some) by { if KeysOf(item) <= some { HungerUpdate.SubsetSize(KeysOf(item), some); } }
    }
  }

  lemma SettleNeverStopsDone(db: Db, loopId: nat, rep: Report, w: World, limits: Stagnation.Limits)
    ensures Settle(db, loopId, rep, w, limits).1 != Stop(DONE)
  {
    hide CommitManager.Applied, Effective, Stagnation.Judged, AutoOpened, SettleIfDue, HungerUpdate.UpdatedItems;
  }

  lemma DecideDone(db: Db, w: World)
    requires Decide(db, w).1 == Stop(DONE)
    ensures IsDone(Decide(db, w).0.items)
  {
    hide RawBudget, WorkPressure, Append;
  }

  lemma OnlyDecideStopsDone(db: Db, w: World, limits: Stagnation.Limits)
    requires Step(db, w, limits).1 == Stop(DONE)
    ensures IsDone(Step(db, w, limits).0.items)
  {
    hide Decide, PlanLoop, Settle, ReportOf, TakenAll, Proposed, IsDone;
    if Decide(db, w).1 == Stop(DONE) { DecideDone(db, w); }
    var b := Begin(db, w, limits);
    if b.Begun? {
      var r := Work(b.db, b.loopId, w);
      SettleNeverStopsDone(r.db, b.loopId, ReportOf(r.db, b.loopId, b.target, b.continued, w), w, limits);
    }
  }

  /** DONE is sound: whatever the undisturbed run, a DONE stop means best meets every item that is not closed. */
  lemma {:induction false} DoneIsSound(db: Db, turns: seq<Turn>, w: World, limits: Stagnation.Limits)
    requires Sound(db) && Undisturbed(db, turns, limits)
    ensures var last := AfterTurns(db, turns, limits);
            var (after, outcome) := Step(last, w, limits);
            outcome == Stop(DONE) && (forall i :: 0 <= i < |after.items| ==> after.items[i].checks < SNAP_LIMIT)
            ==> forall i :: 0 <= i < |after.items| ==> Finished(after.items[i], BestKeys(after))
  {
    RunsKeepSound(db, turns, limits);
    var last := AfterTurns(db, turns, limits);
    var (after, outcome) := Step(last, w, limits);
    if outcome == Stop(DONE) && forall i :: 0 <= i < |after.items| ==> after.items[i].checks < SNAP_LIMIT {
      OnlyDecideStopsDone(last, w, limits);
      StepKeepsSound(last, w, limits);
      DoneIff(after);
    }
  }

  // ---- chains over runs ---------------------------------------------------------------------------------

  /** In every run, a recorded chain length counts the consecutive seeded loops ending there,
      never exceeds the policy's maximum, and some loop of any `max + 1` in a row starts from best. */
  lemma {:induction false} ChainsOverRuns(db: Db, turns: seq<Turn>, limits: Stagnation.Limits, loopId: nat)
    requires Books(db)
    ensures var after := AfterTurns(db, turns, limits);
            && ChainAt(after.events, loopId) == RunLength(after.events, loopId)
            && (Seeded(after.events, loopId) ==> ChainAt(after.events, loopId) <= db.policy.continuationMaxChain)
            && (db.policy.continuationMaxChain >= 0 ==>
                  exists l :: loopId <= l <= loopId + db.policy.continuationMaxChain && !Seeded(after.events, l))
  {
    RunsKeepBooks(db, turns, limits);
    var after := AfterTurns(db, turns, limits);
    ChainIsRunLength(after, loopId);
    if Seeded(after.events, loopId) { SeedFacts(after, loopId); }
    if after.policy.continuationMaxChain >= 0 { SomeLoopStartsFromBest(after, loopId); }
  }

  /** Over every run the rows cover best and no check key is credited twice. */
  lemma {:induction false} AccountsOverRuns(db: Db, turns: seq<Turn>, limits: Stagnation.Limits)
    requires Books(db)
    ensures var after := AfterTurns(db, turns, limits);
            && BestKeys(after) <= after.accepted.Keys && db.accepted.Keys <= after.accepted.Keys
            && Distinct(CreditedKeys(after.events))
            && forall k :: k in CreditedKeys(after.events) ==> k in after.accepted
  {
    RunsKeepBooks(db, turns, limits);
  }

  // ---- termination ------------------------------------------------------------------------------------------

  lemma DecideUnderBudget(db: Db, w: World)
    requires Decide(db, w).1 == Continue
    requires db.policy.decayType == LOOP_COUNT && db.policy.decayDuration.Floor > 0
    ensures db.clock.loopCount < db.policy.decayDuration.Floor
  {
    LoopBudgetSpent(db.policy, db.clock, db.items, w.previousPhase, w.now);
  }

  predicate SameBudget(a: Db, b: Db) {
    b.clock == a.clock && b.policy == a.policy
  }

  lemma OpenKeepsBudget(db: Db, loopId: int, declared: seq<string>, filesOk: bool)
    ensures SameBudget(db, OpenTxn(db, loopId, declared, filesOk))
  {
    hide CanOpen;
  }

  lemma SettleTxnKeepsBudget(db: Db, loopId: int, restoreOk: bool)
    ensures SameBudget(db, SettleIfDue(db, loopId, restoreOk))
  {
    CloseFrame(db, restoreOk);
    hide CloseTxn;
  }

  lemma FinishKeepsBudget(db: Db, loopId: nat, eff: Report, committed: bool, active: Option<Transaction>,
                          w: World, limits: Stagnation.Limits)
    ensures SameBudget(db, Finish(db, loopId, eff, committed, active, w, limits).0)
  {
    hide Stagnation.Judged, AutoOpenKeys, OpenTxn, SettleIfDue, PreviousCandidateTrace;
    var judged := Stagnation.Updated(db, eff, committed, active, loopId, limits).0;
    var keys := AutoOpenKeys(judged.policy, eff, PreviousCandidateTrace(judged, loopId));
    if keys.Some? { OpenKeepsBudget(judged, loopId, keys.value, w.txnFilesOk); }
    SettleTxnKeepsBudget(AutoOpened(judged, loopId, eff, committed, w), loopId, w.txnFilesOk);
  }

  lemma AppliedKeepsBudget(db: Db, loopId: nat, rep: Report, w: World)
    ensures SameBudget(db, CommitManager.Applied(db, CandidateOf(loopId, w), rep, [], ActiveOf(db), w.files).0)
  {
    hide CommitManager.CanCommit, CommitManager.CommitRaises, CommitManager.Credits, CommitManager.RowsFor;
  }

  lemma SettleKeepsBudget(db: Db, loopId: nat, rep: Report, w: World, limits: Stagnation.Limits)
    ensures SameBudget(db, Settle(db, loopId, rep, w, limits).0)
  {
    AppliedKeepsBudget(db, loopId, rep, w);
    hide Finish, CommitManager.Applied, Effective, HungerUpdate.UpdatedItems;
    var (after, d) := CommitManager.Applied(db, CandidateOf(loopId, w), rep, [], ActiveOf(db), w.files);
    if d.Decided? {
      var eff := Effective(rep, d);
      var updated := after.(items := HungerUpdate.UpdatedItems(after.items, eff));
      FinishKeepsBudget(updated, loopId, eff, d.committed, ActiveOf(db), w, limits);
    }
  }

  lemma BeginCounts(db: Db, w: World, limits: Stagnation.Limits)
    requires Decide(db, w).1 == Continue
    ensures var after := Begin(db, w, limits).db;
            after.clock.loopCount == db.clock.loopCount + 1 && after.policy == db.policy
  {
    DecideKept(db, w);
    DecideAdvances(db, w);
    hide PlanLoop, Decide, EmptyPlan, Kept, Advanced;
    var d := Decide(db, w).0;
    PlanLoopAdvances(d, w);
    var planned := PlanLoop(d, w).0;
    EmptyPlanAdvances(planned, planned.lastLoopId, limits);
  }

  lemma {:induction false} TakenAllKeepsBudget(db: Db, loopId: int, handoffs: seq<Handoff>)
    ensures SameBudget(db, TakenAll(db, loopId, handoffs).0)
    decreases |handoffs|
  {
    if handoffs != [] && Taken(db, loopId, handoffs[0]).Some? {
      TakenKeepsBudget(db, loopId, handoffs[0]);
      TakenAllKeepsBudget(Taken(db, loopId, handoffs[0]).value, loopId, handoffs[1..]);
    }
  }

  lemma TakenKeepsBudget(db: Db, loopId: int, h: Handoff)
    requires Taken(db, loopId, h).Some?
    ensures SameBudget(db, Taken(db, loopId, h).value)
  {
    match h {
      case Blocker(_) =>
      case Discovery(item) => AppendFrame(db, [item]);
      case OpenRefactor(declared, snapshotOk) => OpenKeepsBudget(db, loopId, declared, snapshotOk);
      case CloseRefactor(restoreOk) => CloseFrame(db, restoreOk);
    }
    hide Append, OpenTxn, CloseTxn, Find, Replaced, StillNewer;
  }

  lemma WorkCounts(db: Db, loopId: nat, w: World)
    ensures var after := Work(db, loopId, w).db;
            after.clock.loopCount == db.clock.loopCount && after.policy == db.policy
  {
    TakenAllKeepsBudget(Spent(db, w), loopId, w.handoffs);
    hide TakenAll, Append;
    AppendFrame(TakenAll(Spent(db, w), loopId, w.handoffs).0, w.proposals);
  }

  /** Neither the clock nor a ceiling stops any of the next `n` loops; a default policy begins so. */
  predicate Funded(p: Policy, c: Clock, n: nat) {
    && p.decayType == LOOP_COUNT && 0 < p.decayDuration.Floor && c.loopCount + n <= p.decayDuration.Floor
    && p.initialHunger > 0.0 && p.hMax > 0.0 && !c.frozen && !c.manuallyCleared
    && c.cost < p.maxCost && c.tokens < p.maxTokens
  }

  lemma ScaledIsPositive(whole: real, share: real)
    requires whole > 0.0 && share > 0.0
    ensures Scaled(whole, share) > 0.0
  {
  }

  lemma FundedBudget(p: Policy, c: Clock, now: real)
    requires Funded(p, c, 1)
    ensures RawBudget(p, c, now).Some? && RawBudget(p, c, now).value > 0.0
  {
    var n, left := p.decayDuration.Floor as real, (p.decayDuration.Floor - c.loopCount) as real;
    assert left / n > 0.0;
    ScaledIsPositive(p.initialHunger, left / n);
  }

  /** With budget left and something unfinished that is not blocked, a loop goes on. */
  lemma FundedGoesOn(db: Db, w: World, i: nat)
    requires Funded(db.policy, db.clock, 1) && i < |db.items| && Unfinished(db.items[i]) && db.items[i].status != BLOCKED
    ensures Decide(db, w) == (db, Continue)
  {
    FundedBudget(db.policy, db.clock, w.now);
    hide RawBudget, WorkPressure, PhaseWithHysteresis, Append;
    assert !IsDone(db.items) && !AllRemainingBlocked(db.items);
    hide IsDone, AllRemainingBlocked, Unfinished;
  }

  /** A loop that goes on has used up one unit of the loop budget, and there was one to use. */
  lemma ContinueCounts(db: Db, w: World, limits: Stagnation.Limits)
    requires Step(db, w, limits).1 == Continue
    ensures Step(db, w, limits).0.clock.loopCount == db.clock.loopCount + 1
    ensures Step(db, w, limits).0.policy == db.policy
    ensures db.policy.decayType == LOOP_COUNT && db.policy.decayDuration.Floor > 0 ==>
              db.clock.loopCount < db.policy.decayDuration.Floor
  {
    var (d, outcome) := Decide(db, w);
    assert outcome == Continue;
    if db.policy.decayType == LOOP_COUNT && db.policy.decayDuration.Floor > 0 { DecideUnderBudget(db, w); }
    BeginCounts(db, w, limits);
    hide Begin, Work, Settle, ReportOf, Decide;
    var b := Begin(db, w, limits);
    if b.Begun? {
      WorkCounts(b.db, b.loopId, w);
      var r := Work(b.db, b.loopId, w);
      SettleKeepsBudget(r.db, b.loopId, ReportOf(r.db, b.loopId, b.target, b.continued, w), w, limits);
    }
  }

  /** `run` with `|worlds|` as its safety cap: the last state and the stop reason. */
  function Run(db: Db, worlds: seq<World>, limits: Stagnation.Limits): (Db, StopReason)
    decreases |worlds|
  {
    if worlds == [] then (db, ERROR)
    else
      var (after, outcome) := Step(db, worlds[0], limits);
      if outcome.Stop? then (after, outcome.reason) else Run(after, worlds[1..], limits)
  }

  /** How many loops of a run hand back a trace before the first stop. */
  function LoopsBeforeStop(db: Db, worlds: seq<World>, limits: Stagnation.Limits): nat
    decreases |worlds|
  {
    if worlds == [] then 0
    else
      var (after, outcome) := Step(db, worlds[0], limits);
      if outcome.Stop? then 0 else 1 + LoopsBeforeStop(after, worlds[1..], limits)
  }

  /** It is the number of the first loop that stops, counted from 0, or that of all loops if none does. */
  lemma {:induction false} LoopsBeforeStopExactly(db: Db, worlds: seq<World>, limits: Stagnation.Limits)
    ensures var n := LoopsBeforeStop(db, worlds, limits);
            && n <= |worlds| && AfterLoops(db, worlds, n, limits).1
            && (n < |worlds| ==> Step(AfterLoops(db, worlds, n, limits).0, worlds[n], limits).1.Stop?)
    decreases |worlds|
  {
    hide Step;
    if worlds != [] {
      var (after, outcome) := Step(db, worlds[0], limits);
      if outcome == Continue {
        LoopsBeforeStopExactly(after, worlds[1..], limits);
        var n := LoopsBeforeStop(after, worlds[1..], limits);
        assert AfterLoops(db, worlds, n + 1, limits) == AfterLoops(after, worlds[1..], n, limits);
      }
    }
  }

  function LoopsLeft(db: Db): nat {
    var n := db.policy.decayDuration.Floor;
    if n > db.clock.loopCount then n - db.clock.loopCount else 0
  }

  /** Under loop-count decay of `N` loops a run goes on for at most `N - loopCount` loops, in
      both completion modes and whatever the workers do; so a larger cap is never what ends it. */
  lemma {:induction false} RunTerminates(db: Db, worlds: seq<World>, limits: Stagnation.Limits)
    requires db.policy.decayType == LOOP_COUNT && db.policy.decayDuration.Floor > 0
    ensures LoopsBeforeStop(db, worlds, limits) <= LoopsLeft(db)
    decreases |worlds|
  {
    if worlds != [] {
      var (after, outcome) := Step(db, worlds[0], limits);
      if outcome == Continue {
        ContinueCounts(db, worlds[0], limits);
        RunTerminates(after, worlds[1..], limits);
      }
    }
  }

  /** The cap's own ERROR appears exactly when every step of the cap went on. */
  lemma {:induction false} CapNeverReached(db: Db, worlds: seq<World>, limits: Stagnation.Limits)
    requires db.policy.decayType == LOOP_COUNT && db.policy.decayDuration.Floor > 0 && |worlds| > LoopsLeft(db)
    ensures exists k: nat :: k <= LoopsLeft(db) && k < |worlds|
                             && var (before, went) := AfterLoops(db, worlds, k, limits);
                                went && Step(before, worlds[k], limits) == (Run(db, worlds, limits).0, Stop(Run(db, worlds, limits).1))
    decreases |worlds|
  {
    hide Step;
    var (after, outcome) := Step(db, worlds[0], limits);
    if outcome == Continue {
      ContinueCounts(db, worlds[0], limits);
      CapNeverReached(after, worlds[1..], limits);
      var k: nat :| k <= LoopsLeft(after) && k < |worlds| - 1
                    && var (before, went) := AfterLoops(after, worlds[1..], k, limits);
                       went && Step(before, worlds[1..][k], limits)
                               == (Run(after, worlds[1..], limits).0, Stop(Run(after, worlds[1..], limits).1));
      assert AfterLoops(db, worlds, k + 1, limits) == AfterLoops(after, worlds[1..], k, limits);
    } else {
      assert AfterLoops(db, worlds, 0, limits) == (db, true);
    }
  }

  /** The state after `k` loops, and whether each of them went on. */
  function AfterLoops(db: Db, worlds: seq<World>, k: nat, limits: Stagnation.Limits): (Db, bool)
    requires k <= |worlds|
    decreases k
  {
    if k == 0 then (db, true)
    else
      var (after, outcome) := Step(db, worlds[0], limits);
      if outcome.Stop? then (after, false) else AfterLoops(after, worlds[1..], k - 1, limits)
  }
}
