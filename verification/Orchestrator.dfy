// loop_orchestrator.LoopOrchestrator: one loop of a task without a mission, and whole runs.
module Orchestrator {
  import opened Domain
  import opened CheckKeys
  import opened Ordering
  import opened Repository
  import opened RefactorTransactions
  import opened Continuation
  import opened HungerEngine
  import opened ValidationGate
  import CommitManager
  import HungerUpdate
  import Planner
  import Stagnation

  datatype WorkerRun = Finished | SafetyStopped | Crashed

  /** What `process_handoffs` does for one item of a handoff. */
  datatype Handoff =
    | Blocker(itemId: string)
    | Discovery(item: HungerItem)
    | OpenRefactor(declared: seq<string>, snapshotOk: bool)
    | CloseRefactor(restoreOk: bool)

  /** Everything one loop takes from outside: the clock, workers, checks and files. */
  datatype World = World(
    now: real, previousPhase: Option<LoopPhase>, refinement: seq<HungerItem>, maxWorkers: int,
    sourceAvailable: bool, worker: WorkerRun, skipped: bool, cost: real, tokens: int,
    handoffs: seq<Handoff>, proposals: seq<HungerItem>, acceptedProposals: nat, txnFilesOk: bool,
    requiresHuman: bool, candidateEvidence: seq<string>, sameTree: bool, startedFromBest: bool,
    validationSafetyStop: bool, runner: Runner, files: CommitManager.Files)

  datatype Outcome = Continue | Stop(reason: StopReason)

  // ---- small steps -----------------------------------------------------------------------

  /** A compiler only appends open items with new ids, at gap 1. */
  predicate IsFresh(items: seq<HungerItem>, item: HungerItem) {
    && item.status == OPEN && item.gapScore == 1.0 && ':' !in item.id
    && forall i :: 0 <= i < |items| ==> items[i].id != item.id
  }

  function Append(db: Db, more: seq<HungerItem>): Db
    decreases |more|
  {
    if more == [] then db
    else Append(if IsFresh(db.items, more[0]) then WithNewItem(db, more[0]) else db, more[1..])
  }

  function CandidateId(loopId: nat): string
  {
    "CAND-" + Decimal(loopId)
  }

  /** A blocker marks the row it finds, unless that one is closed; an unknown id raises (`None`). */
  function Blocked(db: Db, id: string): Option<Db> {
    var found := Find(RowsOf(db), id);
    if found.None? then None
    else if found.value.status == CLOSED then Some(db)
    else Some(WithRow(db, found.value.(status := BLOCKED)))
  }

  function Taken(db: Db, loopId: int, h: Handoff): Option<Db> {
    match h
    case Blocker(id) => Blocked(db, id)
    case Discovery(item) => Some(Append(db, [item]))
    case OpenRefactor(declared, snapshotOk) => Some(OpenTxn(db, loopId, declared, snapshotOk))
    case CloseRefactor(restoreOk) => Some(CloseTxn(db, restoreOk))
  }

  /** The handoffs in order, up to the first that raises; what the earlier ones wrote stays. */
  function TakenAll(db: Db, loopId: int, handoffs: seq<Handoff>): (Db, bool)
    decreases |handoffs|
  {
    if handoffs == [] then (db, true)
    else
      var next := Taken(db, loopId, handoffs[0]);
      if next.None? then (db, false) else TakenAll(next.value, loopId, handoffs[1..])
  }

  function WithTrace(db: Db, t: Trace): Db {
    db.(traces := db.traces[t.loopId := t], lastLoopId := if t.loopId > db.lastLoopId then t.loopId else db.lastLoopId)
  }

  function ErrorTrace(loopId: int): Trace {
    Trace(loopId, None, false, [], [], Some(ERROR))
  }

  // ---- the loop, stage by stage -----------------------------------------------------------

  datatype Begun = Halted(db: Db, outcome: Outcome) | Begun(db: Db, loopId: nat, target: string, continued: bool)

  /** The ledger and stop reason the loop goes by, after the SPEND_BUDGET hook. */
  function Decide(db: Db, w: World): (Db, Outcome) {
    var snap := BaseSnapshot(db.policy, db.clock, db.items, w.previousPhase, w.now);
    if snap.None? then (WithTrace(db, ErrorTrace(db.lastLoopId + 1)), Stop(ERROR))
    else if db.policy.completionMode == SPEND_BUDGET && snap.value.stopReason == Some(DONE) then
      if snap.value.driveBudget <= 0.0 then (db, Stop(BUDGET_EXHAUSTED))
      else
        var refined := Append(db, w.refinement);
        var again := BaseSnapshot(db.policy, db.clock, refined.items, w.previousPhase, w.now);
        if refined.items == db.items || again.None? then (db, Stop(DONE))
        else (refined, if again.value.stopReason.Some? then Stop(again.value.stopReason.value) else Continue)
    else (db, if snap.value.stopReason.Some? then Stop(snap.value.stopReason.value) else Continue)
  }

  /** A loop without assignments. */
  function EmptyPlan(db: Db, loopId: int, limits: Stagnation.Limits): (Db, Outcome) {
    var after := WithTrace(db.(streak := db.streak + 1), Trace(loopId, None, false, [], [], None));
    (after, if after.streak >= limits.maxNoProgress then Stop(STOP_BLOCKED) else Continue)
  }

  function Counted(db: Db): Db {
    db.(clock := db.clock.(loopCount := db.clock.loopCount + 1))
  }

  /** Count the loop, plan it, maybe carry on a rejected tree, save the plan. */
  function PlanLoop(db: Db, w: World): (Db, Option<HungerItem>, bool) {
    var plan := Planner.Plan(db.items, w.maxWorkers);
    var (carried, continued) := Continued(Counted(db), db.lastLoopId + 1, plan.Some?, w.sourceAvailable);
    (carried.(lastLoopId := db.lastLoopId + 1), plan, continued)
  }

  /** From the first tick to the saved plan. */
  function Begin(db: Db, w: World, limits: Stagnation.Limits): Begun {
    var (d, outcome) := Decide(db, w);
    if outcome.Stop? then Halted(d, outcome)
    else
      var (planned, plan, continued) := PlanLoop(d, w);
      if plan.None? then
        var (after, o) := EmptyPlan(planned, planned.lastLoopId, limits);
        Halted(after, o)
      else Begun(planned, planned.lastLoopId, plan.value.id, continued)
  }

  datatype Worked = WorkerHalted(db: Db, outcome: Outcome) | Ready(db: Db)

  function Spent(db: Db, w: World): Db {
    db.(clock := db.clock.(cost := w.cost, tokens := w.tokens))
  }

  /** The gated proposals that come after the handoffs, and the streak they reset. */
  function Proposed(db: Db, w: World): Db {
    var after := Append(db, w.proposals);
    if w.acceptedProposals > 0 then after.(streak := 0) else after
  }

  /** The worker pass and its handoffs. */
  function Work(db: Db, loopId: nat, w: World): Worked
  {
    if w.worker == SafetyStopped then WorkerHalted(Spent(db, w), Stop(SAFETY_STOP))
    else if w.worker == Crashed then WorkerHalted(WithTrace(Spent(db, w), ErrorTrace(loopId)), Stop(ERROR))
    else
      var (taken, ok) := TakenAll(Spent(db, w), loopId, w.handoffs);
      if !ok then WorkerHalted(WithTrace(taken, ErrorTrace(loopId)), Stop(ERROR))
      else
        var after := Proposed(taken, w);
        if w.requiresHuman then WorkerHalted(after, Stop(HUMAN_REQUIRED))
        else Ready(after.(candidates := after.candidates[CandidateId(loopId) := Pending]))
  }

  function CandidateOf(loopId: nat, w: World): Candidate
  {
    Candidate(CandidateId(loopId), loopId, w.candidateEvidence)
  }

  /** The planned item, unless the scheduler skipped its assignment. */
  function Attempted(target: string, w: World): seq<string> {
    if w.skipped then [] else [target]
  }

  /** An unchanged tree whose verdict is already known is not validated again. */
  predicate Redundant(db: Db, continued: bool, w: World) {
    w.sameTree && (w.startedFromBest || (continued && !IsOpen(db)))
  }

  function ReportOf(db: Db, loopId: nat, target: string, continued: bool, w: World): Report
  {
    var cand := CandidateOf(loopId, w);
    if Redundant(db, continued, w) then
      Report("VAL-" + cand.id, loopId, cand.id, FAIL, Attempted(target, w), [], BestKeys(db), [], [], [], [],
             w.candidateEvidence, false, false)
    else GateReport(RowsOf(db), cand, Attempted(target, w), BestKeys(db), db.policy, w.runner)
  }

  /** The report as the ledger, the stagnation fuse and the trace see it. */
  function Effective(rep: Report, d: CommitManager.Decision): Report
    requires d.Decided?
  {
    if !d.committed || d.verdict != rep.verdict
    then rep.(verdict := d.verdict, newly := [], satisfied := [], hasRealProgress := false)
    else rep
  }

  /** `_previous_rejected_trace`: the latest trace before `loopId` that had a candidate. */
  function PreviousCandidateTrace(db: Db, loopId: nat): Option<Trace> {
    if loopId == 0 then None
    else if loopId - 1 in db.traces && db.traces[loopId - 1].candidateId.Some? then Some(db.traces[loopId - 1])
    else PreviousCandidateTrace(db, loopId - 1)
  }

  function AutoOpened(db: Db, loopId: nat, rep: Report, committed: bool, w: World): Db {
    if committed then db
    else
      var declared := AutoOpenKeys(db.policy, rep, PreviousCandidateTrace(db, loopId));
      if declared.None? || IsOpen(db) then db else OpenTxn(db, loopId, declared.value, w.txnFilesOk)
  }

  /** After the decision: ledger, stagnation, transactions and the trace. */
  function Conclude(db: Db, loopId: nat, rep: Report, d: CommitManager.Decision, active: Option<Transaction>,
                    w: World, limits: Stagnation.Limits): (Db, Outcome)
    requires d.Decided?
  {
    var eff := Effective(rep, d);
    Finish(db.(items := HungerUpdate.UpdatedItems(db.items, eff)), loopId, eff, d.committed, active, w, limits)
  }

  /** The commit decision on a report, and its consequences. */
  function Settle(db: Db, loopId: nat, rep: Report, w: World, limits: Stagnation.Limits): (Db, Outcome) {
    var (after, d) := CommitManager.Applied(db, CandidateOf(loopId, w), rep, [], ActiveOf(db), w.files);
    if d.Raised? then (WithTrace(after, ErrorTrace(loopId)), Stop(ERROR))
    else Conclude(after, loopId, rep, d, ActiveOf(db), w, limits)
  }

  /** Validation, unless it is redundant or stops the loop, and then the decision. */
  function Validate(db: Db, loopId: nat, target: string, continued: bool, w: World, limits: Stagnation.Limits)
    : (Db, Outcome)
  {
    if !Redundant(db, continued, w) && w.validationSafetyStop then (db, Stop(SAFETY_STOP))
    else Settle(db, loopId, ReportOf(db, loopId, target, continued, w), w, limits)
  }

  /** `step` */
  function Step(db: Db, w: World, limits: Stagnation.Limits): (Db, Outcome) {
    match Begin(db, w, limits)
    case Halted(d, o) => (d, o)
    case Begun(d, loopId, target, continued) =>
      match Work(d, loopId, w)
      case WorkerHalted(d', o) => (d', o)
      case Ready(d') => Validate(d', loopId, target, continued, w, limits)
  }

  // ---- the invariants ------------------------------------------------------------------------

  /** What holds whatever other tasks write. */
  ghost predicate Books(db: Db) {
    && !db.hasMission
    && DistinctIds(db.items) && ReadableIds(db.items) && Keyed(RowsOf(db)) && KeysNamed(db)
    && CommitManager.Accounted(db) && TxnSound(db) && ChainsSound(db)
  }

  /** Accepted keys name ledger items. */
  ghost predicate KeysNamed(db: Db) {
    forall k :: k in BestKeys(db) ==> HasId(db.items, ItemIdOf(k))
  }

  /** An id of the ledger, or of a row this task has and its ledger may come to hold. */
  predicate Ours(db: Db, id: string) {
    HasId(db.items, id) || (id in db.copies && ':' !in id)
  }

  /** No other task has a newer row of an id of ours. */
  ghost predicate Clear(db: Db) {
    forall id :: id in db.others ==> !Ours(db, id)
  }

  /** Every gap is what the accepted keys of best say it is. */
  ghost predicate Coupled(db: Db) {
    forall i :: 0 <= i < |db.items| ==>
      && (db.items[i].status != CLOSED ==> db.items[i].gapScore == HungerUpdate.GapOf(db.items[i], BestKeys(db)))
      && (db.items[i].status == VALIDATED_SATISFIED ==> db.items[i].gapScore == 0.0)
  }

  /** Accepted keys are keys of ledger items. */
  ghost predicate KeysOwned(db: Db) {
    forall k :: k in BestKeys(db) ==> exists i :: 0 <= i < |db.items| && k in KeysOf(db.items[i])
  }

  /** The ledger agrees with best. */
  ghost predicate Agreed(db: Db) {
    Coupled(db) && KeysOwned(db)
  }

  ghost predicate Sound(db: Db) {
    Books(db) && Clear(db) && Agreed(db)
  }

  /** The invariants carry over from one state to another. */
  ghost predicate Kept(a: Db, b: Db) {
    && (Books(a) ==> Books(b))
    && (Books(a) && Clear(a) ==> Clear(b))
    && (Sound(a) ==> Sound(b))
  }

  lemma KeptTransitive(a: Db, b: Db, c: Db)
    requires Kept(a, b) && Kept(b, c)
    ensures Kept(a, c)
  {
    assert Sound(b) ==> Books(b) && Clear(b);
    hide Books, Clear;
  }

  /** A task as the `new` command leaves it: its rows are the newest. */
  lemma NewTaskIsSound(db: Db)
    requires !db.hasMission && db.lastLoopId == 0 && DistinctIds(db.items) && ReadableIds(db.items)
    requires forall i :: 0 <= i < |db.items| ==>
               db.items[i].gapScore == 1.0 && db.items[i].status in {OPEN, WORKING, BLOCKED, PAUSED}
    requires db.best == None && db.events == [] && db.txn == None
    requires Keyed(RowsOf(db)) && db.copies == map[] && forall i :: 0 <= i < |db.items| ==> db.items[i].id !in db.others
    ensures Sound(db)
  {
    forall i | 0 <= i < |db.items| ensures db.items[i].gapScore == HungerUpdate.GapOf(db.items[i], BestKeys(db)) {
      UntouchedGap(db.items[i], {});
    }
  }

  lemma UntouchedGap(item: HungerItem, accepted: set<string>)
    requires KeysOf(item) * accepted == {}
    ensures HungerUpdate.GapOf(item, accepted) == 1.0
  {
  }

  // ---- stage by stage --------------------------------------------------------------------------

  /** The invariants read only these parts of the state. */
  lemma Frame(a: Db, b: Db)
    requires b.items == a.items && b.best == a.best && b.accepted == a.accepted && b.events == a.events
    requires b.txn == a.txn && b.policy == a.policy && b.hasMission == a.hasMission && b.lastLoopId >= a.lastLoopId
    requires b.others == a.others && b.copies == a.copies
    ensures Kept(a, b) && (Agreed(a) ==> Agreed(b))
  {
    LedgerFrame(a, b);
    assert CommitManager.Accounted(a) ==> CommitManager.Accounted(b);
    assert TxnSound(a) ==> TxnSound(b);
    assert ChainsSound(a) ==> ChainsSound(b);
    hide KeysOwned, KeysNamed, Coupled, Clear, CommitManager.Accounted, TxnSound, ChainsSound, DistinctIds, ReadableIds, Keyed;
  }

  /** The part of the invariants that is about items and best. */
  lemma LedgerFrame(a: Db, b: Db)
    requires b.items == a.items && BestKeys(b) == BestKeys(a) && b.others == a.others && b.copies == a.copies
    ensures KeysNamed(b) == KeysNamed(a) && KeysOwned(b) == KeysOwned(a) && Coupled(b) == Coupled(a) && Clear(b) == Clear(a)
  {
  }

  /** Changes to transactions and events alone. */
  lemma EventsFrame(a: Db, b: Db)
    requires Books(a) ==> TxnSound(b) && ChainsSound(b)
    requires CreditedKeys(b.events) == CreditedKeys(a.events)
    requires b.items == a.items && b.best == a.best && b.accepted == a.accepted && b.hasMission == a.hasMission
    requires b.others == a.others && b.copies == a.copies
    ensures Kept(a, b) && (Agreed(a) ==> Agreed(b))
  {
    LedgerFrame(a, b);
    assert CommitManager.Accounted(a) ==> CommitManager.Accounted(b);
    hide KeysOwned, KeysNamed, Coupled, Clear, CommitManager.Accounted, TxnSound, ChainsSound, DistinctIds, ReadableIds, Keyed;
  }

  /** Changes to the rows of hunger items alone keep the books if ids stay distinct and readable. */
  lemma RowsFrame(a: Db, b: Db)
    requires b == a.(items := b.items, others := b.others, copies := b.copies)
    requires Books(a) ==> DistinctIds(b.items) && ReadableIds(b.items) && Keyed(RowsOf(b))
    requires Books(a) ==> forall id :: HasId(a.items, id) ==> HasId(b.items, id)
    ensures Books(a) ==> Books(b)
  {
    assert BestKeys(b) == BestKeys(a);
    assert Books(a) && KeysNamed(a) ==> KeysNamed(b);
    assert CommitManager.Accounted(a) ==> CommitManager.Accounted(b);
    assert TxnSound(a) ==> TxnSound(b);
    assert ChainsSound(a) ==> ChainsSound(b);
    hide KeysNamed, CommitManager.Accounted, TxnSound, ChainsSound, DistinctIds, ReadableIds, Keyed, HasId;
  }

  lemma NewItemKept(db: Db, item: HungerItem)
    requires IsFresh(db.items, item)
    ensures Kept(db, WithNewItem(db, item))
  {
    var after := WithNewItem(db, item);
    assert after.items[|db.items|] == item;
    forall id ensures HasId(db.items, id) ==> HasId(after.items, id) { HasIdAppend(db.items, item, id); }
    RowsFrame(db, after);
    assert Clear(db) ==> Clear(after) by { NewItemKeepsClear(db, item); }
    if Sound(db) { NewItemKeepsAgreement(db, item); }
    hide Books, Clear, Coupled, KeysOwned, WithNewItem;
  }

  lemma NewItemKeepsClear(db: Db, item: HungerItem)
    requires IsFresh(db.items, item)
    ensures Clear(db) ==> Clear(WithNewItem(db, item))
  {
    var after := WithNewItem(db, item);
    forall id | Clear(db) && id in after.others ensures !Ours(after, id) {
      HasIdAppend(db.items, item, id);
      assert !Ours(db, id);
    }
  }

  lemma NewItemKeepsAgreement(db: Db, item: HungerItem)
    requires Coupled(db) && KeysOwned(db) && IsFresh(db.items, item)
    ensures Coupled(WithNewItem(db, item)) && KeysOwned(WithNewItem(db, item))
  {
    var after := WithNewItem(db, item);
    forall k | k in KeysOf(item) * BestKeys(db) ensures false {
      var j :| 0 <= j < |db.items| && k in KeysOf(db.items[j]);
      SharedKeyMeansSameId(db.items[j], item, k);
    }
    assert KeysOf(item) * BestKeys(db) == {};
    UntouchedGap(item, BestKeys(db));
    assert BestKeys(after) == BestKeys(db) && forall i :: 0 <= i < |db.items| ==> after.items[i] == db.items[i];
  }

  lemma {:induction false} AppendKept(db: Db, more: seq<HungerItem>)
    ensures Kept(db, Append(db, more))
    decreases |more|
  {
    if more != [] {
      var next := if IsFresh(db.items, more[0]) then WithNewItem(db, more[0]) else db;
      if IsFresh(db.items, more[0]) { NewItemKept(db, more[0]); }
      hide Kept, IsFresh, WithNewItem;
      AppendKept(next, more[1..]);
      KeptTransitive(db, next, Append(db, more));
    } 
  }

  /** A compiler touches nothing but the rows of hunger items, and only appends to the ledger. */
  lemma {:induction false} AppendFrame(db: Db, more: seq<HungerItem>)
    ensures var after := Append(db, more);
            && after == db.(items := after.items, others := after.others, copies := after.copies)
            && db.items <= after.items
    decreases |more|
  {
    if more != [] {
      AppendFrame(if IsFresh(db.items, more[0]) then WithNewItem(db, more[0]) else db, more[1..]);
    }
  }

  lemma SharedKeyMeansSameId(a: HungerItem, b: HungerItem, k: string)
    requires k in KeysOf(a) && k in KeysOf(b)
    ensures a.id == b.id
  {
    var i :| 0 <= i < a.checks && k == MakeCheckKey(a.id, i);
    var j :| 0 <= j < b.checks && k == MakeCheckKey(b.id, j);
    CheckKeyInjective(a.id, i, b.id, j);
  }

  /** Items that keep id, checks, mode and gap, and are neither closed, satisfied nor reopened. */
  ghost predicate SameWork(a: HungerItem, b: HungerItem) {
    && b.id == a.id && b.checks == a.checks && b.mode == a.mode && b.gapScore == a.gapScore
    && (b.status == CLOSED <==> a.status == CLOSED) && (b.status == VALIDATED_SATISFIED ==> a.status == b.status)
  }

  lemma SameWorkAgrees(a: Db, b: Db)
    requires Coupled(a) && KeysOwned(a) && |b.items| == |a.items| && BestKeys(b) == BestKeys(a)
    requires forall i :: 0 <= i < |a.items| ==> SameWork(a.items[i], b.items[i])
    ensures Coupled(b) && KeysOwned(b)
  {
    forall i | 0 <= i < |b.items|
      ensures b.items[i].status != CLOSED ==> b.items[i].gapScore == HungerUpdate.GapOf(b.items[i], BestKeys(b))
      ensures b.items[i].status == VALIDATED_SATISFIED ==> b.items[i].gapScore == 0.0
    {
      SameWorkSameGap(a.items[i], b.items[i], BestKeys(a));
    }
    forall k | k in BestKeys(a) ensures exists i :: 0 <= i < |b.items| && k in KeysOf(b.items[i]) {
      var i :| 0 <= i < |a.items| && k in KeysOf(a.items[i]);
      SameWorkSameGap(a.items[i], b.items[i], BestKeys(a));
    }
  }

  ghost predicate SameIds(a: seq<HungerItem>, b: seq<HungerItem>) {
    |a| == |b| && forall i :: 0 <= i < |a| ==> a[i].id == b[i].id
  }

  lemma SameIdsFacts(a: seq<HungerItem>, b: seq<HungerItem>)
    requires SameIds(a, b)
    ensures DistinctIds(a) ==> DistinctIds(b)
    ensures ReadableIds(a) ==> ReadableIds(b)
    ensures forall id :: HasId(a, id) == HasId(b, id)
  {
    forall id ensures HasId(a, id) == HasId(b, id) {
      if i :| 0 <= i < |a| && a[i].id == id { assert b[i].id == id; }
      if i :| 0 <= i < |b| && b[i].id == id { assert a[i].id == id; }
    }
  }

  lemma SameWorkKept(db: Db, items: seq<HungerItem>)
    requires |items| == |db.items| && forall i :: 0 <= i < |items| ==> SameWork(db.items[i], items[i])
    ensures Kept(db, db.(items := items)) && (Agreed(db) ==> Agreed(db.(items := items)))
  {
    var after := db.(items := items);
    SameIdsFacts(db.items, items);
    RowsFrame(db, after);
    assert Clear(db) ==> Clear(after);
    assert BestKeys(after) == BestKeys(db);
    if Agreed(db) { SameWorkAgrees(db, after); }
    hide Books, Clear, Agreed;
  }

  lemma SameWorkSameGap(a: HungerItem, b: HungerItem, accepted: set<string>)
    requires SameWork(a, b)
    ensures KeysOf(b) == KeysOf(a) && HungerUpdate.GapOf(b, accepted) == HungerUpdate.GapOf(a, accepted)
  {
  }

  lemma DecideKept(db: Db, w: World)
    ensures Kept(db, Decide(db, w).0)
    ensures Decide(db, w).1 == Continue ==>
              Decide(db, w).0.lastLoopId == db.lastLoopId && Decide(db, w).0.clock == db.clock
  {
    hide Kept, Append, BaseSnapshot;
    AppendKept(db, w.refinement);
    AppendFrame(db, w.refinement);
    Frame(db, db);
    Frame(db, WithTrace(db, ErrorTrace(db.lastLoopId + 1)));
  }

  lemma PlanLoopKept(db: Db, w: World)
    ensures Kept(db, PlanLoop(db, w).0)
    ensures PlanLoop(db, w).0.items == db.items
    ensures PlanLoop(db, w).0.clock == Counted(db).clock
  {
    hide Kept, Continued, Planner.Plan;
    var counted, hasPlan := Counted(db), Planner.Plan(db.items, w.maxWorkers).Some?;
    Frame(db, counted);
    ContinuedKept(counted, hasPlan, w.sourceAvailable);
    KeptTransitive(db, counted, PlanLoop(db, w).0);
  }

  lemma PlanLoopTarget(db: Db, w: World)
    requires PlanLoop(db, w).0.items == db.items
    ensures var (planned, plan, _) := PlanLoop(db, w);
            planned.lastLoopId == db.lastLoopId + 1 && (plan.Some? ==> TargetOpen(planned, plan.value.id))
  {
    PlannedTarget(db.items, w.maxWorkers);
  }

  lemma BeginKept(db: Db, w: World, limits: Stagnation.Limits)
    ensures var b := Begin(db, w, limits);
            && Kept(db, b.db)
            && (b.Begun? ==> b.loopId == b.db.lastLoopId >= 1 && TargetOpen(b.db, b.target)
                             && b.db.clock.loopCount == db.clock.loopCount + 1)
  {
    hide Kept, Decide;
    DecideKept(db, w);
    var (d, outcome) := Decide(db, w);
    if outcome == Continue {
      PlanLoopKept(d, w);
      PlanLoopTarget(d, w);
      hide PlanLoop;
      var (planned, plan, _) := PlanLoop(d, w);
      KeptTransitive(db, d, planned);
      if plan.None? {
        Frame(planned, EmptyPlan(planned, planned.lastLoopId, limits).0);
        KeptTransitive(db, planned, EmptyPlan(planned, planned.lastLoopId, limits).0);
      }
    }
  }

  lemma PlannedTarget(items: seq<HungerItem>, maxWorkers: int)
    ensures Planner.Plan(items, maxWorkers).Some? ==>
              exists i :: 0 <= i < |items| && items[i].id == Planner.Plan(items, maxWorkers).value.id
                          && items[i].status != CLOSED
  {
    Planner.PlanPicksTheMostPressing(items, maxWorkers);
    if Planner.Plan(items, maxWorkers).Some? {
      var i :| 0 <= i < |items| && items[i] == Planner.Plan(items, maxWorkers).value;
    }
  }

  /** Continuation only appends an event, and never a credit. */
  lemma ContinuedFrame(db: Db, loopId: nat, hasAssignments: bool, sourceAvailable: bool)
    ensures var after := Continued(db, loopId, hasAssignments, sourceAvailable).0;
            && after == db.(events := after.events) && db.events <= after.events
            && CreditedKeys(after.events) == CreditedKeys(db.events)
  {
    if Eligible(db, loopId, hasAssignments) {
      var skip := Skip(db, loopId, sourceAvailable);
      var e := if skip.None?
               then ContinuationSeeded(loopId, ChainAt(db.events, loopId - 1) + 1, Elements(TraceAt(db, loopId - 1).value.regressed))
               else ContinuationSkipped(loopId, skip.value);
      hide ChainAt, Skip, Elements, TraceAt, Eligible;
      assert (db.events + [e])[..|db.events|] == db.events;
    }
  }

  lemma ContinuedKept(db: Db, hasAssignments: bool, sourceAvailable: bool)
    ensures var after := Continued(db, db.lastLoopId + 1, hasAssignments, sourceAvailable).0;
            && Kept(db, after.(lastLoopId := db.lastLoopId + 1))
            && after.items == db.items && after.clock == db.clock
  {
    ContinuedFrame(db, db.lastLoopId + 1, hasAssignments, sourceAvailable);
    var after := Continued(db, db.lastLoopId + 1, hasAssignments, sourceAvailable).0;
    if Books(db) { ContinuedKeepsChains(db, hasAssignments, sourceAvailable); }
    hide Continued, ChainsSound;
    EventsFrame(db, after.(lastLoopId := db.lastLoopId + 1));
  }

  /** The loop's item is one the ledger has not closed. */
  ghost predicate TargetOpen(db: Db, target: string) {
    exists i :: 0 <= i < |db.items| && db.items[i].id == target && db.items[i].status != CLOSED
  }

  /** The row a blocker finds, marked. */
  function Mark(db: Db, id: string): Db
    requires Find(RowsOf(db), id).Some?
  {
    WithRow(db, Find(RowsOf(db), id).value.(status := BLOCKED))
  }

  lemma MarkKeepsIds(db: Db, id: string)
    requires Keyed(RowsOf(db)) && Find(RowsOf(db), id).Some?
    ensures SameIds(db.items, Mark(db, id).items) && Keyed(RowsOf(Mark(db, id)))
  {
    FindFacts(RowsOf(db), id);
  }

  lemma MarkKeepsClear(db: Db, id: string)
    requires Keyed(RowsOf(db)) && Find(RowsOf(db), id).Some? && Clear(db)
    ensures Clear(Mark(db, id))
  {
    FindFacts(RowsOf(db), id);
    MarkKeepsIds(db, id);
    SameIdsFacts(db.items, Mark(db, id).items);
    forall other | other in Mark(db, id).others ensures !Ours(Mark(db, id), other) {
      assert !Ours(db, other);
    }
  }

  lemma FoundIsOwn(db: Db, id: string)
    requires Keyed(RowsOf(db)) && DistinctIds(db.items) && Clear(db)
    ensures forall i :: 0 <= i < |db.items| && db.items[i].id == id ==> Find(RowsOf(db), id) == Some(db.items[i])
  {
    FindFacts(RowsOf(db), id);
    if HasId(db.items, id) { assert Ours(db, id); }
    hide Find, Keyed;
  }

  /** Without newer rows of other tasks a blocker finds the ledger's own entry. */
  lemma MarkIsOwnWork(db: Db, id: string)
    requires Keyed(RowsOf(db)) && DistinctIds(db.items) && Clear(db)
    requires Find(RowsOf(db), id).Some? && Find(RowsOf(db), id).value.status != CLOSED
    ensures var after := Mark(db, id);
            |after.items| == |db.items| && forall i :: 0 <= i < |db.items| ==> SameWork(db.items[i], after.items[i])
  {
    FoundIsOwn(db, id);
    FindFacts(RowsOf(db), id);
    hide Find, Keyed, Clear, DistinctIds, StillNewer;
  }

  lemma MarkKept(db: Db, id: string)
    requires Find(RowsOf(db), id).Some? && Find(RowsOf(db), id).value.status != CLOSED
    ensures Kept(db, Mark(db, id))
  {
    var after := Mark(db, id);
    if Books(db) {
      MarkKeepsIds(db, id);
      SameIdsFacts(db.items, after.items);
      if Clear(db) { MarkKeepsClear(db, id); }
      if Sound(db) {
        MarkIsOwnWork(db, id);
        assert BestKeys(after) == BestKeys(db);
        SameWorkAgrees(db, after);
      }
    }
    hide Clear, Coupled, KeysOwned, Mark, SameIds;
    RowsFrame(db, after);
    hide Books;
  }

  lemma MarkKeepsTarget(db: Db, id: string, target: string)
    requires Keyed(RowsOf(db)) && Find(RowsOf(db), id).Some? && TargetOpen(db, target)
    ensures TargetOpen(Mark(db, id), target)
  {
    FindFacts(RowsOf(db), id);
    var t :| 0 <= t < |db.items| && db.items[t].id == target && db.items[t].status != CLOSED;
    assert Mark(db, id).items[t].id == target && Mark(db, id).items[t].status != CLOSED;
  }

  lemma {:induction false} AppendKeepsTarget(db: Db, more: seq<HungerItem>, target: string)
    requires TargetOpen(db, target)
    ensures TargetOpen(Append(db, more), target)
  {
    AppendFrame(db, more);
    var t :| 0 <= t < |db.items| && db.items[t].id == target && db.items[t].status != CLOSED;
    assert Append(db, more).items[t] == db.items[t];
  }

  /** What a handoff leaves alone. */
  ghost predicate OnlyRowsAndTxn(a: Db, b: Db) {
    b == a.(items := b.items, others := b.others, copies := b.copies, txn := b.txn)
  }

  lemma TxnKept(a: Db, b: Db)
    requires b == a.(txn := b.txn) && (TxnSound(a) ==> TxnSound(b))
    ensures Kept(a, b) && (Agreed(a) ==> Agreed(b))
  {
    assert ChainsSound(a) ==> ChainsSound(b);
    hide TxnSound, ChainsSound;
    EventsFrame(a, b);
  }

  lemma TakenKept(db: Db, loopId: int, h: Handoff, target: string)
    requires Books(db) && TargetOpen(db, target) && Taken(db, loopId, h).Some?
    ensures var after := Taken(db, loopId, h).value;
            Kept(db, after) && OnlyRowsAndTxn(db, after) && TargetOpen(after, target)
  {
    var after := Taken(db, loopId, h).value;
    match h {
      case Blocker(id) =>
        Frame(db, db);
        if Find(RowsOf(db), id).value.status != CLOSED {
          MarkKept(db, id);
          MarkKeepsTarget(db, id, target);
        }
      case Discovery(item) =>
        AppendKept(db, [item]);
        AppendFrame(db, [item]);
        AppendKeepsTarget(db, [item], target);
      case OpenRefactor(declared, snapshotOk) =>
        OpenIsSound(db, loopId, declared, snapshotOk);
        TxnKept(db, after);
      case CloseRefactor(restoreOk) =>
        SettlementKeepsBest(db, restoreOk);
        TxnKept(db, after);
    }
  }

  lemma {:induction false} TakenAllKept(db: Db, loopId: int, handoffs: seq<Handoff>, target: string)
    requires Books(db) && TargetOpen(db, target)
    ensures var after := TakenAll(db, loopId, handoffs).0;
            Kept(db, after) && OnlyRowsAndTxn(db, after) && TargetOpen(after, target)
    decreases |handoffs|
  {
    if handoffs == [] || Taken(db, loopId, handoffs[0]).None? {
      Frame(db, db);
    } else {
      var next := Taken(db, loopId, handoffs[0]).value;
      TakenKept(db, loopId, handoffs[0], target);
      assert Books(next);
      hide Books, TargetOpen, Taken, Kept;
      TakenAllKept(next, loopId, handoffs[1..], target);
      KeptTransitive(db, next, TakenAll(db, loopId, handoffs).0);
    }
  }

  /** The `n`th handoff is a blocker on an id no row has, and all before it went through. */
  ghost predicate RaisesAt(db: Db, loopId: int, handoffs: seq<Handoff>, n: nat) {
    && n < |handoffs| && handoffs[n].Blocker? && TakenAll(db, loopId, handoffs[..n]).1
    && var rows := RowsOf(TakenAll(db, loopId, handoffs[..n]).0);
       !HasId(rows.ledger, handoffs[n].itemId) && handoffs[n].itemId !in rows.others && handoffs[n].itemId !in rows.copies
  }

  lemma BlockerRaisesIff(db: Db, loopId: int, h: Handoff)
    ensures Taken(db, loopId, h).None? <==>
            h.Blocker? && !HasId(db.items, h.itemId) && h.itemId !in db.others && h.itemId !in db.copies
  {
    if h.Blocker? { LookupFacts(db.items, h.itemId); }
  }

  /** Handoffs raise exactly at a blocker on an unknown id; what the ones before it wrote stays, and what
      comes after it is never looked at. */
  lemma {:induction false} HandoffsRaiseIff(db: Db, loopId: int, handoffs: seq<Handoff>)
    ensures !TakenAll(db, loopId, handoffs).1 <==> exists n: nat :: RaisesAt(db, loopId, handoffs, n)
    ensures forall n: nat :: RaisesAt(db, loopId, handoffs, n) ==>
              TakenAll(db, loopId, handoffs).0 == TakenAll(db, loopId, handoffs[..n]).0
    decreases |handoffs|
  {
    if handoffs != [] {
      var h, rest := handoffs[0], handoffs[1..];
      BlockerRaisesIff(db, loopId, h);
      assert handoffs[..0] == [];
      if Taken(db, loopId, h).None? {
        assert RaisesAt(db, loopId, handoffs, 0);
        assert forall n: nat :: 0 < n <= |handoffs| ==> handoffs[..n][0] == h;
      } else {
        var next := Taken(db, loopId, h).value;
        HandoffsRaiseIff(next, loopId, rest);
        forall n: nat | n < |rest|
          ensures RaisesAt(next, loopId, rest, n) == RaisesAt(db, loopId, handoffs, n + 1)
          ensures TakenAll(db, loopId, handoffs[..n + 1]) == TakenAll(next, loopId, rest[..n])
        {
          assert handoffs[..n + 1][0] == h && handoffs[..n + 1][1..] == rest[..n] && handoffs[n + 1] == rest[n];
        }
        forall n: nat | RaisesAt(db, loopId, handoffs, n) ensures n > 0 && RaisesAt(next, loopId, rest, n - 1) {}
        if n: nat :| RaisesAt(next, loopId, rest, n) { assert RaisesAt(db, loopId, handoffs, n + 1); }
      }
    }
  }

  lemma ProposedKept(db: Db, w: World, target: string)
    requires TargetOpen(db, target)
    ensures Kept(db, Proposed(db, w)) && TargetOpen(Proposed(db, w), target)
    ensures Proposed(db, w).lastLoopId == db.lastLoopId && Proposed(db, w).clock == db.clock
  {
    hide Kept, Append, TargetOpen;
    AppendKept(db, w.proposals);
    AppendFrame(db, w.proposals);
    AppendKeepsTarget(db, w.proposals, target);
    Frame(Append(db, w.proposals), Proposed(db, w));
    TargetFrame(Append(db, w.proposals), Proposed(db, w), target);
    KeptTransitive(db, Append(db, w.proposals), Proposed(db, w));
  }

  lemma TargetFrame(a: Db, b: Db, target: string)
    requires b.items == a.items
    ensures TargetOpen(b, target) == TargetOpen(a, target)
  {
  }

  lemma WorkKept(db: Db, loopId: nat, w: World, target: string)
    requires Books(db) && TargetOpen(db, target) && loopId == db.lastLoopId
    ensures var r := Work(db, loopId, w);
            Kept(db, r.db) && (r.Ready? ==> TargetOpen(r.db, target) && r.db.lastLoopId == loopId
                                            && r.db.clock.loopCount == db.clock.loopCount)
  {
    var spent := Spent(db, w);
    Frame(db, spent);
    TargetFrame(db, spent, target);
    if w.worker == Crashed {
      Frame(db, WithTrace(spent, ErrorTrace(loopId)));
    } else if w.worker == Finished {
      TakenAllKept(spent, loopId, w.handoffs, target);
      HandoffsKept(db, loopId, w, target);
    }
  }

  lemma {:induction false} HandoffsKept(db: Db, loopId: nat, w: World, target: string)
    requires Kept(db, Spent(db, w)) && loopId == db.lastLoopId && w.worker == Finished
    requires var taken := TakenAll(Spent(db, w), loopId, w.handoffs).0;
             Kept(Spent(db, w), taken) && OnlyRowsAndTxn(Spent(db, w), taken) && TargetOpen(taken, target)
    ensures var r := Work(db, loopId, w);
            Kept(db, r.db) && (r.Ready? ==> TargetOpen(r.db, target) && r.db.lastLoopId == loopId
                                            && r.db.clock.loopCount == db.clock.loopCount)
  {
    hide Kept, TakenAll, TargetOpen, Proposed;
    var (taken, ok) := TakenAll(Spent(db, w), loopId, w.handoffs);
    var r := Work(db, loopId, w);
    KeptTransitive(db, Spent(db, w), taken);
    if !ok {
      Frame(taken, r.db);
      KeptTransitive(db, taken, r.db);
    } else {
      ProposedKept(taken, w, target);
      var after := Proposed(taken, w);
      KeptTransitive(db, taken, after);
      Frame(after, r.db);
      KeptTransitive(db, after, r.db);
      TargetFrame(after, r.db, target);
    }
  }

  // ---- the decision and its consequences -------------------------------------------------------

  /** What every report of a loop satisfies, whichever row it was made from. */
  ghost predicate Gated(rep: Report, db: Db, target: string) {
    && ReportsAgainst(rep, BestKeys(db))
    && (rep.regressed != [] ==> rep.verdict == FAIL)
    && (forall k :: k in rep.newly ==> exists n: nat :: k == MakeCheckKey(target, n))
  }

  /** What the ledger needs besides: the new keys are keys of its own item, and `satisfied` follows its rule. */
  ghost predicate Usable(rep: Report, db: Db, target: string) {
    && Gated(rep, db, target)
    && (forall k :: k in rep.newly ==>
          exists i :: 0 <= i < |db.items| && db.items[i].id == target && k in KeysOf(db.items[i]))
    && (forall i, k :: 0 <= i < |db.items| && k in rep.newly && k in KeysOf(db.items[i]) ==>
          (db.items[i].id in rep.satisfied <==> Met(db.items[i], rep.current)))
  }

  lemma ReportIsGated(db: Db, loopId: nat, target: string, continued: bool, w: World)
    requires DistinctIds(db.items) && Keyed(RowsOf(db))
    ensures Gated(ReportOf(db, loopId, target, continued, w), db, target)
  {
    var rep := ReportOf(db, loopId, target, continued, w);
    if !Redundant(db, continued, w) {
      GateReportAgainstBaseline(RowsOf(db), CandidateOf(loopId, w), Attempted(target, w), BestKeys(db), db.policy, w.runner);
    } else {
      assert Elements(rep.newly) == {} && Elements(rep.regressed) == {};
    }
  }

  /** A report made from the ledger's own item is one the ledger can use. */
  lemma ReportIsUsable(db: Db, loopId: nat, target: string, continued: bool, w: World)
    requires DistinctIds(db.items) && Keyed(RowsOf(db)) && target !in db.others && HasId(db.items, target)
    ensures Usable(ReportOf(db, loopId, target, continued, w), db, target)
  {
    var rep := ReportOf(db, loopId, target, continued, w);
    ReportIsGated(db, loopId, target, continued, w);
    if !Redundant(db, continued, w) {
      var t :| 0 <= t < |db.items| && db.items[t].id == target;
      var item := db.items[t];
      FindFacts(RowsOf(db), target);
      assert Find(RowsOf(db), target) == Some(item);
      TargetKeysAreOwn(db, loopId, item, w);
      forall i, k | 0 <= i < |db.items| && k in rep.newly && k in KeysOf(db.items[i])
        ensures db.items[i].id in rep.satisfied <==> Met(db.items[i], rep.current)
      {
        SharedKeyMeansSameId(db.items[i], item, k);
        assert db.items[i] == item;
        SatisfiedMeansMet(RowsOf(db), CandidateOf(loopId, w), Attempted(target, w), BestKeys(db), db.policy, w.runner, item, k);
      }
    }
  }

  /** New keys belong to the row found for the target, and only an attempted target has any. */
  lemma TargetKeysAreOwn(db: Db, loopId: nat, item: HungerItem, w: World)
    requires DistinctIds(db.items) && Keyed(RowsOf(db)) && Find(RowsOf(db), item.id) == Some(item)
    ensures var rep := GateReport(RowsOf(db), CandidateOf(loopId, w), Attempted(item.id, w), BestKeys(db), db.policy, w.runner);
            forall k :: k in rep.newly ==> k in KeysOf(item) && item.id in Attempted(item.id, w)
  {
    GateReportAgainstBaseline(RowsOf(db), CandidateOf(loopId, w), Attempted(item.id, w), BestKeys(db), db.policy, w.runner);
  }

  /** A committed report has no regressions, so the keys only grow. */
  lemma CommitIsStrict(db: Db, loopId: nat, rep: Report, target: string, w: World)
    requires Gated(rep, db, target)
    requires CommitManager.CanCommit(rep, db.policy, ActiveOf(db))
    ensures rep.regressed == [] && rep.newly != [] && BestKeys(db) < rep.current
  {
    assert rep.newly[0] in Elements(rep.newly);
    assert rep.regressed == [] ==> Elements(rep.regressed) == {};
  }

  lemma TouchedKeepsIdentity(item: HungerItem, rep: Report)
    ensures var t := HungerUpdate.Touched(item, rep);
            && t.id == item.id && t.checks == item.checks && t.mode == item.mode
            && forall accepted :: HungerUpdate.GapOf(t, accepted) == HungerUpdate.GapOf(item, accepted)
  {
  }

  /** Committing and updating the ledger together keep every gap in step with best. */
  lemma CommitKeepsCoupled(db: Db, rep: Report, target: string, best: BestState)
    requires Coupled(db) && DistinctIds(db.items) && ReadableIds(db.items) && TargetOpen(db, target)
    requires Usable(rep, db, target) && rep.regressed == [] && rep.verdict != FAIL && best.accepted == rep.current
    ensures Coupled(db.(best := Some(best), items := HungerUpdate.UpdatedItems(db.items, rep)))
  {
    hide HungerUpdate.Touched, HungerUpdate.GapOf, Usable;
    var after := HungerUpdate.UpdatedItems(db.items, rep);
    forall i | 0 <= i < |db.items|
      ensures after[i].status != CLOSED ==> after[i].gapScore == HungerUpdate.GapOf(after[i], rep.current)
      ensures after[i].status == VALIDATED_SATISFIED ==> after[i].gapScore == 0.0
    {
      ItemFollowsCommit(db, rep, target, i);
      TouchedKeepsIdentity(db.items[i], rep);
    }
  }

  lemma ItemFollowsCommit(db: Db, rep: Report, target: string, i: nat)
    requires Coupled(db) && DistinctIds(db.items) && ReadableIds(db.items) && TargetOpen(db, target)
    requires Usable(rep, db, target) && rep.regressed == [] && i < |db.items|
    ensures var t := HungerUpdate.Touched(db.items[i], rep);
            && (t.status != CLOSED ==> t.gapScore == HungerUpdate.GapOf(db.items[i], rep.current))
            && (t.status == VALIDATED_SATISFIED ==> t.gapScore == 0.0)
  {
    var item := db.items[i];
    forall k | k in rep.newly && ItemIdOf(k) == item.id ensures k in KeysOf(item) && item.id == target {
      var j :| 0 <= j < |db.items| && db.items[j].id == target && k in KeysOf(db.items[j]);
      KeyLeadsHome(db.items[j], k);
    }
    var count := CountFor(rep.newly, item.id);
    if count > 0 {
      var k := SomeCounted(rep.newly, item.id);
      assert k in KeysOf(item);
    }
    if item.status != CLOSED {
      HungerUpdate.GapFollowsKeys(item, BestKeys(db), rep);
    }
  }

  lemma {:induction false} KeyLeadsHome(item: HungerItem, k: string)
    requires k in KeysOf(item) && ':' !in item.id
    ensures ItemIdOf(k) == item.id && Parses(k)
  {
    var n :| 0 <= n < item.checks && k == MakeCheckKey(item.id, n);
    ItemIdOfCheckKey(item.id, n);
  }

  lemma {:induction false} SomeCounted(keys: seq<string>, id: string) returns (k: string)
    requires CountFor(keys, id) > 0
    ensures k in keys && ItemIdOf(k) == id
  {
    var last := keys[|keys| - 1];
    if HasColon(last) && ItemIdOf(last) == id {
      k := last;
    } else {
      k := SomeCounted(keys[..|keys| - 1], id);
    }
  }

  // ---- the commit decision inside a loop --------------------------------------------------------

  /** With no mission, no completed features and readable ids, only a failed promotion can raise. */
  lemma KeysParse(db: Db, rep: Report, target: string)
    requires ':' !in target && Gated(rep, db, target)
    ensures forall k :: k in rep.newly ==> Parses(k) && ItemIdOf(k) == target
  {
    forall k | k in rep.newly ensures Parses(k) && ItemIdOf(k) == target {
      var n: nat :| k == MakeCheckKey(target, n);
      ItemIdOfCheckKey(target, n);
    }
  }

  /** The decision of a loop: commit exactly when the gate allows it without any tolerance. */
  lemma DecisionOfLoop(db: Db, loopId: nat, rep: Report, target: string, w: World)
    requires !db.hasMission && ':' !in target && Gated(rep, db, target)
    ensures var (after, d) := CommitManager.Applied(db, CandidateOf(loopId, w), rep, [], ActiveOf(db), w.files);
            && (d.Raised? ==> after == db)
            && (d.Decided? && d.committed <==>
                  CommitManager.CanCommit(rep, db.policy, None) && w.files != CommitManager.PromoteRaises)
            && (d.Decided? && !d.committed ==> after == CommitManager.RejectedDb(db, CandidateOf(loopId, w)))
            && (d.Decided? && d.committed ==> after == CommitManager.CommittedDb(db, CandidateOf(loopId, w), rep, [])
                                              && rep.verdict != FAIL && rep.regressed == []
                                              && Effective(rep, d) == rep)
            && (d.Decided? && !d.committed ==> Effective(rep, d).newly == [])
  {
    KeysParse(db, rep, target);
    assert rep.regressed != [] ==> rep.verdict == FAIL;
    hide Gated, CandidateOf, CommitManager.CommittedDb, CommitManager.RejectedDb, CheckKeys.Parses;
    CommitManager.ToleranceNeverUsed(rep, db.policy, ActiveOf(db));
  }

  lemma NothingNewNothingTouched(items: seq<HungerItem>, rep: Report)
    requires rep.newly == []
    ensures HungerUpdate.UpdatedItems(items, rep) == items
  {
  }

  /** Commit plus ledger update, as one step on the state. */
  function CommittedAndUpdated(db: Db, loopId: nat, rep: Report, w: World): Db {
    var after := CommitManager.CommittedDb(db, CandidateOf(loopId, w), rep, []);
    after.(items := HungerUpdate.UpdatedItems(after.items, rep))
  }

  lemma CommitKeepsBooks(db: Db, loopId: nat, rep: Report, target: string, w: World)
    requires Books(db) && HasId(db.items, target) && ':' !in target && Gated(rep, db, target)
    requires rep.regressed == [] && rep.newly != []
    ensures Books(CommittedAndUpdated(db, loopId, rep, w))
    ensures Clear(db) ==> Clear(CommittedAndUpdated(db, loopId, rep, w))
  {
    hide CommitManager.Accounted, TxnSound, ChainsSound, KeysNamed, HasId, DistinctIds, ReadableIds, CommitManager.Credits,
         HungerUpdate.UpdatedItems, CommitManager.RowsFor, CommitManager.FinishFeatures;
    GatedAgainst(rep, db, target);
    CommitManager.CommitKeepsAccounted(db, CandidateOf(loopId, w), rep, []);
    AccountedFrame(CommitManager.CommittedDb(db, CandidateOf(loopId, w), rep, []), CommittedAndUpdated(db, loopId, rep, w));
    CommitKeepsNamed(db, loopId, rep, target, w);
    CommitKeepsTxn(db, loopId, rep, w);
    CommitKeepsChains(db, loopId, rep, w);
    UpdateKeepsIds(db.items, rep);
    SameIdsFacts(db.items, HungerUpdate.UpdatedItems(db.items, rep));
    hide SameIds, Gated, ReportsAgainst;
  }

  lemma AccountedFrame(a: Db, b: Db)
    requires b.best == a.best && b.accepted == a.accepted && b.events == a.events
    ensures CommitManager.Accounted(b) == CommitManager.Accounted(a)
  {
  }

  lemma GatedAgainst(rep: Report, db: Db, target: string)
    requires Gated(rep, db, target)
    ensures ReportsAgainst(rep, BestKeys(db))
  {
  }

  lemma CommitKeepsNamed(db: Db, loopId: nat, rep: Report, target: string, w: World)
    requires KeysNamed(db) && HasId(db.items, target) && ':' !in target && Gated(rep, db, target) && rep.regressed == []
    ensures KeysNamed(CommittedAndUpdated(db, loopId, rep, w))
  {
    var after := CommittedAndUpdated(db, loopId, rep, w);
    assert Elements(rep.regressed) == {};
    KeysParse(db, rep, target);
    UpdateKeepsIds(db.items, rep);
    SameIdsFacts(db.items, after.items);
    forall k | k in BestKeys(after) ensures HasId(after.items, ItemIdOf(k)) {
      assert k in BestKeys(db) || k in rep.newly;
    }
  }

  lemma CommitKeepsAgreed(db: Db, loopId: nat, rep: Report, target: string, w: World)
    requires DistinctIds(db.items) && ReadableIds(db.items) && Agreed(db)
    requires TargetOpen(db, target) && Usable(rep, db, target)
    requires rep.regressed == [] && rep.verdict != FAIL && rep.newly != []
    ensures Agreed(CommittedAndUpdated(db, loopId, rep, w))
  {
    var best := CommitManager.BestFor(CandidateOf(loopId, w), rep);
    var after := CommittedAndUpdated(db, loopId, rep, w);
    CommitKeepsCoupled(db, rep, target, best);
    CoupledFrame(db.(best := Some(best), items := after.items), after);
    CommitKeepsOwned(db, loopId, rep, target, w);
  }

  lemma TargetIsReadable(db: Db, target: string)
    requires ReadableIds(db.items) && TargetOpen(db, target)
    ensures ':' !in target && HasId(db.items, target)
  {
  }

  lemma UpdateKeepsIds(items: seq<HungerItem>, rep: Report)
    ensures SameIds(items, HungerUpdate.UpdatedItems(items, rep))
  {
  }

  lemma CoupledFrame(a: Db, b: Db)
    requires Coupled(a) && b.items == a.items && BestKeys(b) == BestKeys(a)
    ensures Coupled(b)
  {
  }

  lemma CommitKeepsOwned(db: Db, loopId: nat, rep: Report, target: string, w: World)
    requires KeysOwned(db) && Usable(rep, db, target) && rep.regressed == []
    ensures KeysOwned(CommittedAndUpdated(db, loopId, rep, w))
  {
    var after := CommittedAndUpdated(db, loopId, rep, w);
    assert Elements(rep.regressed) == {};
    forall k | k in BestKeys(after) ensures exists i :: 0 <= i < |after.items| && k in KeysOf(after.items[i]) {
      assert k in BestKeys(db) || k in rep.newly;
      var i :| 0 <= i < |db.items| && k in KeysOf(db.items[i]);
      TouchedKeepsIdentity(db.items[i], rep);
      assert KeysOf(after.items[i]) == KeysOf(db.items[i]);
    }
  }

  lemma CommitKeepsTxn(db: Db, loopId: nat, rep: Report, w: World)
    requires TxnSound(db) && ReportsAgainst(rep, BestKeys(db)) && rep.regressed == [] && rep.newly != []
    ensures TxnSound(CommittedAndUpdated(db, loopId, rep, w))
  {
    assert Elements(rep.regressed) == {};
    assert rep.newly[0] in Elements(rep.newly);
  }

  lemma CommitKeepsChains(db: Db, loopId: nat, rep: Report, w: World)
    requires ChainsSound(db)
    ensures ChainsSound(CommittedAndUpdated(db, loopId, rep, w))
  {
    var credits := CommitManager.Credits(db.items, rep.newly, db.accepted.Keys, loopId);
    CreditsAreNoSeeds(db.items, rep.newly, db.accepted.Keys, loopId);
    forall l: int ensures LastSeed(db.events + credits, l) == LastSeed(db.events, l) {
      SeedsUnaffected(db.events, credits, l);
    }
    var after := CommittedAndUpdated(db, loopId, rep, w);
    forall l: int | Seeded(after.events, l)
      ensures ChainAt(after.events, l) == ChainAt(after.events, l - 1) + 1 <= after.policy.continuationMaxChain
    {
      assert Seeded(db.events, l);
      SeedFacts(db, l);
    }
  }

  lemma {:induction false} CreditsAreNoSeeds(items: seq<HungerItem>, newly: seq<string>, pre: set<string>, loop: int)
    ensures forall i :: 0 <= i < |CommitManager.Credits(items, newly, pre, loop)| ==>
              CommitManager.Credits(items, newly, pre, loop)[i].DiscoveryCredit?
  {
    if newly != [] { CreditsAreNoSeeds(items, newly[..|newly| - 1], pre, loop); }
  }

  lemma {:induction false} SeedsUnaffected(events: seq<Event>, more: seq<Event>, loopId: int)
    requires forall i :: 0 <= i < |more| ==> !SeededAt(more[i], loopId)
    ensures LastSeed(events + more, loopId) == LastSeed(events, loopId)
    decreases |more|
  {
    if more == [] {
      assert events + more == events;
    } else {
      var s := events + more;
      assert s[..|s| - 1] == events + more[..|more| - 1];
      SeedsUnaffected(events, more[..|more| - 1], loopId);
    }
  }

  /** Stagnation, settlement and the trace. */
  function Finish(db: Db, loopId: nat, eff: Report, committed: bool, active: Option<Transaction>,
                  w: World, limits: Stagnation.Limits): (Db, Outcome)
  {
    var (judged, blocked) := Stagnation.Updated(db, eff, committed, active, loopId, limits);
    var settled := SettleIfDue(AutoOpened(judged, loopId, eff, committed, w), loopId, w.txnFilesOk);
    (WithTrace(settled, Trace(loopId, Some(CandidateId(loopId)), committed, eff.newly, eff.regressed, None)),
     if blocked then Stop(STOP_BLOCKED) else Continue)
  }

  lemma FinishKept(db: Db, loopId: nat, eff: Report, committed: bool, active: Option<Transaction>,
                   w: World, limits: Stagnation.Limits)
    requires Books(db) && (!committed ==> eff.newly == [])
    ensures var after := Finish(db, loopId, eff, committed, active, w, limits).0;
            Kept(db, after) && (Agreed(db) ==> Agreed(after)) && after.clock == db.clock && after.best == db.best
  {
    var after := Finish(db, loopId, eff, committed, active, w, limits).0;
    var judged := Stagnation.Updated(db, eff, committed, active, loopId, limits).0;
    JudgeKept(db, eff, committed, active, loopId, limits);
    if !committed { AutoOpenNeverFires(judged.policy, eff, PreviousCandidateTrace(judged, loopId)); }
    assert AutoOpened(judged, loopId, eff, committed, w) == judged;
    var settled := SettleIfDue(judged, loopId, w.txnFilesOk);
    SettlementKeepsBest(judged, w.txnFilesOk);
    TxnKept(judged, settled);
    Frame(settled, after);
    hide Kept, Agreed;
    KeptTransitive(db, judged, settled);
    KeptTransitive(db, settled, after);
  }

  lemma JudgeKept(db: Db, eff: Report, committed: bool, active: Option<Transaction>, loopId: int,
                  limits: Stagnation.Limits)
    ensures var after := Stagnation.Updated(db, eff, committed, active, loopId, limits).0;
            Kept(db, after) && (Agreed(db) ==> Agreed(after))
  {
    var items := Stagnation.Judged(db, eff, committed, active, loopId, limits);
    forall i | 0 <= i < |items| ensures SameWork(db.items[i], items[i]) {
      Stagnation.JudgeKeepsGaps(db.items[i], eff, committed, active, loopId, db.policy, limits);
    }
    SameWorkKept(db, items);
    var after := Stagnation.Updated(db, eff, committed, active, loopId, limits).0;
    Frame(db.(items := items), after);
    hide Kept, Agreed;
    KeptTransitive(db, db.(items := items), after);
  }

  lemma CommittedLoop(db: Db, loopId: nat, target: string, rep: Report, w: World, limits: Stagnation.Limits)
    requires Books(db) && TargetOpen(db, target) && Gated(rep, db, target)
    requires rep.regressed == [] && rep.verdict != FAIL && rep.newly != []
    ensures var (after, _) := Finish(CommittedAndUpdated(db, loopId, rep, w), loopId, rep, true, ActiveOf(db), w, limits);
            && Books(after) && (Clear(db) ==> Clear(after)) && (Agreed(db) && Usable(rep, db, target) ==> Agreed(after))
            && after.clock == db.clock && after.best == Some(CommitManager.BestFor(CandidateOf(loopId, w), rep))
  {
    var committed := CommittedAndUpdated(db, loopId, rep, w);
    TargetIsReadable(db, target);
    CommitKeepsBooks(db, loopId, rep, target, w);
    if Agreed(db) && Usable(rep, db, target) { CommitKeepsAgreed(db, loopId, rep, target, w); }
    FinishKept(committed, loopId, rep, true, ActiveOf(db), w, limits);
    assert Kept(committed, Finish(committed, loopId, rep, true, ActiveOf(db), w, limits).0);
    hide Sound, Agreed, Books, Clear, Usable, Gated, Finish;
  }

  lemma RejectedLoop(db: Db, loopId: nat, eff: Report, active: Option<Transaction>, w: World, limits: Stagnation.Limits)
    requires Books(db) && eff.newly == []
    ensures var (after, _) := Finish(CommitManager.RejectedDb(db, CandidateOf(loopId, w)), loopId, eff, false, active, w, limits);
            Kept(db, after) && (Agreed(db) ==> Agreed(after)) && after.clock == db.clock && after.best == db.best
  {
    var rejected := CommitManager.RejectedDb(db, CandidateOf(loopId, w));
    Frame(db, rejected);
    assert Books(rejected);
    FinishKept(rejected, loopId, eff, false, active, w, limits);
    hide Kept, Agreed, Books, Finish;
    KeptTransitive(db, rejected, Finish(rejected, loopId, eff, false, active, w, limits).0);
  }

  function DecisionOn(db: Db, loopId: nat, rep: Report, w: World): CommitManager.Decision {
    CommitManager.Applied(db, CandidateOf(loopId, w), rep, [], ActiveOf(db), w.files).1
  }

  /** The three ways a validated loop can end. */
  lemma SettleCases(db: Db, loopId: nat, target: string, rep: Report, w: World, limits: Stagnation.Limits)
    requires !db.hasMission && ':' !in target && Gated(rep, db, target)
    ensures var d := DecisionOn(db, loopId, rep, w);
            var r := Settle(db, loopId, rep, w, limits);
            && (d.Raised? ==> r == (WithTrace(db, ErrorTrace(loopId)), Stop(ERROR)))
            && (d.Decided? && d.committed ==>
                  rep.regressed == [] && rep.verdict != FAIL && rep.newly != []
                  && r == Finish(CommittedAndUpdated(db, loopId, rep, w), loopId, rep, true, ActiveOf(db), w, limits))
            && (d.Decided? && !d.committed ==>
                  Effective(rep, d).newly == []
                  && r == Finish(CommitManager.RejectedDb(db, CandidateOf(loopId, w)), loopId, Effective(rep, d), false,
                                 ActiveOf(db), w, limits))
  {
    hide Gated, CommitManager.Applied, CommitManager.CommittedDb, CommitManager.RejectedDb, Finish, Effective;
    DecisionOfLoop(db, loopId, rep, target, w);
    var (after, d) := CommitManager.Applied(db, CandidateOf(loopId, w), rep, [], ActiveOf(db), w.files);
    if d.Decided? && !d.committed { NothingNewNothingTouched(after.items, Effective(rep, d)); }
  }

  lemma SettleKept(db: Db, loopId: nat, target: string, rep: Report, w: World, limits: Stagnation.Limits)
    requires Books(db) && TargetOpen(db, target) && Gated(rep, db, target)
    ensures var after := Settle(db, loopId, rep, w, limits).0;
            && Books(after) && (Clear(db) ==> Clear(after)) && (Agreed(db) && Usable(rep, db, target) ==> Agreed(after))
            && after.clock == db.clock
  {
    hide Agreed, Sound, Books, Clear, Usable, Gated, TargetOpen, Settle, Finish, DecisionOn, CommittedAndUpdated;
    BooksParts(db);
    TargetIsReadable(db, target);
    SettleCases(db, loopId, target, rep, w, limits);
    var d := DecisionOn(db, loopId, rep, w);
    if d.Raised? {
      Frame(db, WithTrace(db, ErrorTrace(loopId)));
    } else if d.committed {
      CommittedLoop(db, loopId, target, rep, w, limits);
    } else {
      RejectedLoop(db, loopId, Effective(rep, d), ActiveOf(db), w, limits);
    }
  }

  lemma BooksParts(db: Db)
    requires Books(db)
    ensures !db.hasMission && DistinctIds(db.items) && ReadableIds(db.items) && TxnSound(db)
  {
  }

  lemma ValidateKept(db: Db, loopId: nat, target: string, continued: bool, w: World, limits: Stagnation.Limits)
    requires Books(db) && TargetOpen(db, target)
    ensures var after := Validate(db, loopId, target, continued, w, limits).0;
            && Books(after) && (Clear(db) ==> Clear(after)) && (target !in db.others && Agreed(db) ==> Agreed(after))
            && (Sound(db) ==> Sound(after)) && after.clock == db.clock
  {
    ReportIsGated(db, loopId, target, continued, w);
    TargetIsReadable(db, target);
    assert Clear(db) ==> target !in db.others by { assert Ours(db, target); }
    if target !in db.others { ReportIsUsable(db, loopId, target, continued, w); }
    hide Agreed, Books, Clear, Usable, Gated, Settle, ReportOf, TargetOpen;
    SettleKept(db, loopId, target, ReportOf(db, loopId, target, continued, w), w, limits);
  }

  /** One loop, whatever the world does, keeps the invariant; the books it keeps even where rows of other
      tasks stand in for the ledger's. */
  lemma StepKeepsSound(db: Db, w: World, limits: Stagnation.Limits)
    requires Books(db)
    ensures var after := Step(db, w, limits).0;
            Books(after) && (Clear(db) ==> Clear(after)) && (Sound(db) ==> Sound(after))
  {
    hide Sound, Books, Clear;
    BeginKept(db, w, limits);
    var b := Begin(db, w, limits);
    if b.Begun? {
      WorkKept(b.db, b.loopId, w, b.target);
      var r := Work(b.db, b.loopId, w);
      if r.Ready? { ValidateKept(r.db, b.loopId, b.target, b.continued, w, limits); }
    }
  }
}
