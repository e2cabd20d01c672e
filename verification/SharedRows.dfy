// Item ids shared between tasks: `get_hunger_item` takes the newest row of an id over all tasks, so
// another task's row can stand in for a ledger item. When that costs the agreement of ledger and best.
module SharedRows {
  import opened Domain
  import opened CheckKeys
  import opened Ordering
  import opened Repository
  import opened RefactorTransactions
  import opened HungerEngine
  import opened Continuation
  import opened Orchestrator
  import opened Runs
  import opened ValidationGate
  import CommitManager
  import HungerUpdate
  import Planner
  import Stagnation

  /** Another task's row has become the newest of its id. */
  function Arrived(db: Db, row: HungerItem): Db {
    db.(others := db.others[row.id := row])
  }

  // ---- a report made from another task's row ------------------------------------------------------

  /** The loop reaches the gate, and exactly the checks of `passing` pass. */
  ghost predicate Passes(w: World, passing: set<string>) {
    && !w.skipped && !w.sameTree && !w.validationSafetyStop && w.files == CommitManager.FilesOk
    && w.candidateEvidence != [] && forall k, n :: w.runner(k, n).passed == (k in passing)
  }

  /** What the gate reports where everything accepted still passes and `gained` of the row's checks do besides. */
  lemma ForeignReport(db: Db, loopId: nat, row: HungerItem, gained: set<string>, continued: bool, w: World)
    requires Books(db) && row.id in db.others && db.others[row.id] == row
    requires gained <= KeysOf(row) && gained != {} && gained !! BestKeys(db) && Passes(w, BestKeys(db) + gained)
    ensures var rep := ReportOf(db, loopId, row.id, continued, w);
            && Gated(rep, db, row.id)
            && rep.attempted == [row.id] && rep.hasRealProgress
            && rep.newly != [] && Elements(rep.newly) == gained && rep.regressed == [] && rep.current == BestKeys(db) + gained
            && CommitManager.CanCommit(rep, db.policy, None)
            && (row.id in rep.satisfied <==> Met(row, BestKeys(db) + gained))
  {
    var rep := ReportOf(db, loopId, row.id, continued, w);
    var cand, prev, ids := CandidateOf(loopId, w), BestKeys(db), [row.id];
    ReportIsGated(db, loopId, row.id, continued, w);
    assert rep == GateReport(RowsOf(db), cand, ids, prev, db.policy, w.runner);
    assert Find(RowsOf(db), row.id) == Some(row);
    NewlyExactly(RowsOf(db), cand, ids, prev, db.policy, w.runner);
    GainedIsNew(db, row, gained, w);
    GateReportAgainstBaseline(RowsOf(db), cand, ids, prev, db.policy, w.runner);
    EvidenceMeansEnough(RowsOf(db), cand, ids, prev, db.policy, w.runner);
    hide GateReport, ReportOf, Books, Gated, KeysOf, NewlyPasses, Find, ReportsAgainst;
    assert rep.regressed == [] by { NothingRegressed(rep, prev, gained, w); }
    var k :| k in gained;
    assert k in rep.newly;
    SatisfiedMeansMet(RowsOf(db), cand, ids, prev, db.policy, w.runner, row, k);
    CurrentIs(rep, prev, gained);
  }

  lemma NothingRegressed(rep: Report, previously: set<string>, gained: set<string>, w: World)
    requires Passes(w, previously + gained) && forall k :: k in rep.regressed ==> k in previously && !w.runner(k, 0).passed
    ensures rep.regressed == []
  {
    EmptyOrFirst(rep.regressed);
  }

  lemma EmptyOrFirst(s: seq<string>)
    ensures s == [] || s[0] in s
  {
  }

  lemma CurrentIs(rep: Report, previously: set<string>, gained: set<string>)
    requires ReportsAgainst(rep, previously) && rep.regressed == [] && forall k :: k in rep.newly <==> k in gained
    ensures rep.current == previously + gained && Elements(rep.newly) == gained
  {
    assert Elements(rep.regressed) == {};
    assert Elements(rep.newly) == gained;
  }

  lemma EvidenceMeansEnough(rows: ItemRows, cand: Candidate, ids: seq<string>, previously: set<string>, policy: Policy, runner: Runner)
    requires cand.evidenceIds != []
    ensures !GateReport(rows, cand, ids, previously, policy, runner).missingEvidence
  {
  }

  lemma GainedIsNew(db: Db, row: HungerItem, gained: set<string>, w: World)
    requires row.id in db.others && db.others[row.id] == row
    requires gained <= KeysOf(row) && gained !! BestKeys(db) && Passes(w, BestKeys(db) + gained)
    ensures forall k :: NewlyPasses(k, RowsOf(db), [row.id], BestKeys(db), w.runner) <==> k in gained
  {
    assert Find(RowsOf(db), row.id) == Some(row);
    forall k | k in gained ensures NewlyPasses(k, RowsOf(db), [row.id], BestKeys(db), w.runner) {
      assert k in KeysOf(row);
      var i :| 0 <= i < row.checks && k == MakeCheckKey(row.id, i);
      assert Find(RowsOf(db), row.id) == Some(row) && row.id in [row.id];
    }
  }

  lemma {:induction false} KeyIsCounted(keys: seq<string>, k: string, id: string)
    requires k in keys && HasColon(k) && ItemIdOf(k) == id
    ensures CountFor(keys, id) > 0
  {
    if k != keys[|keys| - 1] { KeyIsCounted(keys[..|keys| - 1], k, id); }
  }

  /** What becomes of the ledger's items once such a report is committed. */
  lemma ForeignUpdate(db: Db, rep: Report, target: string, i: nat)
    requires ':' !in target && Gated(rep, db, target) && rep.newly != [] && target in rep.satisfied
    requires i < |db.items|
    ensures var t := HungerUpdate.Touched(db.items[i], rep);
            && t.id == db.items[i].id && t.checks == db.items[i].checks && t.mode == db.items[i].mode
            && (t.id == target ==> t.gapScore == 0.0 && t.status == VALIDATED_SATISFIED)
            && (t.id != target ==> t == db.items[i])
  {
    KeysParse(db, rep, target);
    if db.items[i].id == target {
      KeyIsCounted(rep.newly, rep.newly[0], target);
    } else if CountFor(rep.newly, db.items[i].id) > 0 {
      var k := SomeCounted(rep.newly, db.items[i].id);
    }
  }

  /** The ledger's entry goes to zero on the strength of another task's row. */
  ghost predicate Zeroed(db: Db, after: Db, target: string) {
    && |after.items| == |db.items|
    && forall i :: 0 <= i < |db.items| ==>
         && after.items[i].id == db.items[i].id && after.items[i].checks == db.items[i].checks
         && after.items[i].mode == db.items[i].mode
         && (after.items[i].id == target ==> after.items[i].gapScore == 0.0 && after.items[i].status == VALIDATED_SATISFIED)
         && (after.items[i].id != target ==> after.items[i] == db.items[i])
  }

  lemma CommittedForeign(db: Db, loopId: nat, rep: Report, target: string, w: World, limits: Stagnation.Limits)
    requires ':' !in target && Gated(rep, db, target) && rep.newly != [] && target in rep.satisfied && rep.verdict != FAIL
    requires rep.attempted == [target]
    ensures Zeroed(db, Finish(CommittedAndUpdated(db, loopId, rep, w), loopId, rep, true, ActiveOf(db), w, limits).0, target)
  {
    hide Finish, Gated;
    var committed := CommittedAndUpdated(db, loopId, rep, w);
    var after := Finish(committed, loopId, rep, true, ActiveOf(db), w, limits).0;
    FinishItems(committed, loopId, rep, true, ActiveOf(db), w, limits);
    assert committed.items == HungerUpdate.UpdatedItems(db.items, rep);
    forall i | 0 <= i < |db.items|
      ensures after.items[i].id == db.items[i].id && after.items[i].checks == db.items[i].checks
      ensures after.items[i].mode == db.items[i].mode
      ensures after.items[i].id == target ==> after.items[i].gapScore == 0.0 && after.items[i].status == VALIDATED_SATISFIED
      ensures after.items[i].id != target ==> after.items[i] == db.items[i]
    {
      ForeignUpdate(db, rep, target, i);
      Stagnation.JudgeKeepsGaps(committed.items[i], rep, true, ActiveOf(db), loopId, committed.policy, limits);
    }
  }

  lemma ForeignLoop(db: Db, loopId: nat, row: HungerItem, gained: set<string>, continued: bool, w: World, limits: Stagnation.Limits)
    requires Books(db) && TargetOpen(db, row.id) && row.id in db.others && db.others[row.id] == row
    requires gained <= KeysOf(row) && gained != {} && gained !! BestKeys(db) && Passes(w, BestKeys(db) + gained)
    requires Met(row, BestKeys(db) + gained)
    ensures var (after, outcome) := Orchestrator.Validate(db, loopId, row.id, continued, w, limits);
            && Zeroed(db, after, row.id) && BestKeys(after) == BestKeys(db) + gained && outcome == Continue
            && after.others == db.others && after.copies == db.copies && SameBudget(db, after)
  {
    var rep := ReportOf(db, loopId, row.id, continued, w);
    TargetIsReadable(db, row.id);
    ForeignReport(db, loopId, row, gained, continued, w);
    DecisionOfLoop(db, loopId, rep, row.id, w);
    hide ReportOf, Gated, CommitManager.CanCommit, Settle, Finish, Met, TargetOpen, KeysOf;
    SettleCases(db, loopId, row.id, rep, w, limits);
    BestAfterLoop(db, loopId, row.id, rep, w, limits);
    CommittedForeign(db, loopId, rep, row.id, w, limits);
    ProgressGoesOn(CommittedAndUpdated(db, loopId, rep, w), loopId, rep, ActiveOf(db), w, limits);
    SettleKeepsRows(db, loopId, rep, w, limits);
    SettleKeepsBudget(db, loopId, rep, w, limits);
  }

  lemma ProgressGoesOn(db: Db, loopId: nat, rep: Report, active: Option<Transaction>, w: World, limits: Stagnation.Limits)
    requires rep.hasRealProgress
    ensures Finish(db, loopId, rep, true, active, w, limits).1 == Continue
  {
    hide Stagnation.Judged, AutoOpened, SettleIfDue;
  }

  lemma SettleKeepsRows(db: Db, loopId: nat, rep: Report, w: World, limits: Stagnation.Limits)
    ensures var after := Settle(db, loopId, rep, w, limits).0;
            after.others == db.others && after.copies == db.copies
  {
    AppliedKeepsRows(db, loopId, rep, w);
    hide Finish, CommitManager.Applied, HungerUpdate.UpdatedItems, Effective;
    var (after, d) := CommitManager.Applied(db, CandidateOf(loopId, w), rep, [], ActiveOf(db), w.files);
    if d.Decided? {
      var eff := Effective(rep, d);
      FinishKeepsRows(after.(items := HungerUpdate.UpdatedItems(after.items, eff)), loopId, eff, d.committed, ActiveOf(db), w, limits);
    }
  }

  lemma AppliedKeepsRows(db: Db, loopId: nat, rep: Report, w: World)
    ensures var after := CommitManager.Applied(db, CandidateOf(loopId, w), rep, [], ActiveOf(db), w.files).0;
            after.others == db.others && after.copies == db.copies
  {
    hide CommitManager.CanCommit, CommitManager.CommitRaises, CommitManager.Credits, CommitManager.RowsFor,
         CommitManager.FinishFeatures, CommitManager.BestFor, CommitManager.RejectReason, SetStatus, ActiveOf, CandidateOf;
  }

  lemma FinishKeepsRows(db: Db, loopId: nat, eff: Report, committed: bool, active: Option<Transaction>,
                        w: World, limits: Stagnation.Limits)
    ensures var after := Finish(db, loopId, eff, committed, active, w, limits).0;
            after.others == db.others && after.copies == db.copies
  {
    hide Stagnation.Judged, AutoOpenKeys, CanOpen, CloseTxn, PreviousCandidateTrace;
    CloseFrame(AutoOpened(Stagnation.Updated(db, eff, committed, active, loopId, limits).0, loopId, eff, committed, w), w.txnFilesOk);
  }

  // ---- the gate ------------------------------------------------------------------------------------

  /** The loop's item: open, with something left to do. */
  ghost predicate Pressing(db: Db, i: nat) {
    i < |db.items| && db.items[i].status != CLOSED && db.items[i].gapScore > 0.0
  }

  /** Another task's item of the same id: one check more, any of them enough. */
  function Rival(item: HungerItem): HungerItem {
    item.(checks := item.checks + 1, mode := ModeAny)
  }

  function RivalKey(item: HungerItem): string {
    MakeCheckKey(item.id, item.checks)
  }

  function PassingWorld(passing: set<string>): World {
    World(0.0, None, [], 1, false, WorkerRun.Finished, false, 0.0, 0, [], [], 0, false, false, ["e"], false, false, false,
          (k, n) => Run(k in passing, None), CommitManager.FilesOk)
  }

  lemma RivalKeyIsForeign(db: Db, i: nat)
    requires Agreed(db) && DistinctIds(db.items) && i < |db.items|
    ensures var k := RivalKey(db.items[i]);
            k in KeysOf(Rival(db.items[i])) && k !in KeysOf(db.items[i]) && k !in BestKeys(db)
  {
    var item := db.items[i];
    var k := RivalKey(item);
    if k in KeysOf(item) {
      var n :| 0 <= n < item.checks && k == MakeCheckKey(item.id, n);
      CheckKeyInjective(item.id, n, item.id, item.checks);
    }
    if k in BestKeys(db) {
      var j :| 0 <= j < |db.items| && k in KeysOf(db.items[j]);
      assert k in KeysOf(Rival(item));
      SharedKeyMeansSameId(db.items[j], Rival(item), k);
    }
  }

  lemma SameRuleSameGap(a: HungerItem, b: HungerItem, before: set<string>, after: set<string>)
    requires b.id == a.id && b.checks == a.checks && b.mode == a.mode && KeysOf(a) * after == KeysOf(a) * before
    ensures HungerUpdate.GapOf(b, after) == HungerUpdate.GapOf(a, before)
  {
    assert KeysOf(b) == KeysOf(a);
  }

  lemma RivalPasses(db: Db, i: nat)
    requires Sound(db) && Pressing(db, i)
    ensures var item := db.items[i];
            var gained := {RivalKey(item)};
            && Books(Arrived(db, Rival(item))) && TargetOpen(Arrived(db, Rival(item)), item.id)
            && gained <= KeysOf(Rival(item)) && gained !! BestKeys(db) && KeysOf(item) !! gained
            && Met(Rival(item), BestKeys(db) + gained) && Passes(PassingWorld(BestKeys(db) + gained), BestKeys(db) + gained)
  {
    var item := db.items[i];
    ElsewhereKept(db, Rival(item));
    RivalKeyIsForeign(db, i);
    assert TargetOpen(Arrived(db, Rival(item)), item.id);
    assert RivalKey(item) in KeysOf(Rival(item)) * (BestKeys(db) + {RivalKey(item)});
    hide Books, TargetOpen;
  }

  /** A loop whose new keys are none of the ledger item's own zeroes the item and leaves what it should be. */
  lemma ForeignZeroes(db: Db, row: HungerItem, loopId: nat, i: nat, gained: set<string>, continued: bool, w: World,
                      limits: Stagnation.Limits)
    requires i < |db.items| && row.id == db.items[i].id
    requires Books(Arrived(db, row)) && TargetOpen(Arrived(db, row), row.id)
    requires gained <= KeysOf(row) && gained != {} && gained !! BestKeys(db) && KeysOf(db.items[i]) !! gained
    requires Met(row, BestKeys(db) + gained) && Passes(w, BestKeys(db) + gained)
    ensures var after := Orchestrator.Validate(Arrived(db, row), loopId, row.id, continued, w, limits).0;
            && Zeroed(db, after, row.id) && BestKeys(after) == BestKeys(db) + gained
            && HungerUpdate.GapOf(after.items[i], BestKeys(after)) == HungerUpdate.GapOf(db.items[i], BestKeys(db))
  {
    var shared, item := Arrived(db, row), db.items[i];
    SameBest(db, row);
    hide Books, Met, HungerUpdate.GapOf, Orchestrator.Validate, KeysOf, TargetOpen, Passes;
    ForeignLoop(shared, loopId, row, gained, continued, w, limits);
    var after := Orchestrator.Validate(shared, loopId, row.id, continued, w, limits).0;
    assert KeysOf(item) * BestKeys(after) == KeysOf(item) * BestKeys(db);
    SameRuleSameGap(item, after.items[i], BestKeys(db), BestKeys(after));
  }

  /** The loop that a rival row spoils: the item's gap goes to zero, and not one of its own checks passed. */
  lemma RivalLoop(db: Db, loopId: nat, i: nat, continued: bool, limits: Stagnation.Limits)
    requires Sound(db) && Pressing(db, i)
    ensures var item := db.items[i];
            var w := PassingWorld(BestKeys(db) + {RivalKey(item)});
            var after := Orchestrator.Validate(Arrived(db, Rival(item)), loopId, item.id, continued, w, limits).0;
            && Zeroed(db, after, item.id) && BestKeys(after) == BestKeys(db) + {RivalKey(item)}
            && HungerUpdate.GapOf(after.items[i], BestKeys(after)) == item.gapScore
  {
    var item := db.items[i];
    RivalPasses(db, i);
    CoupledAt(db, i);
    hide Books, Clear, Agreed, Met, HungerUpdate.GapOf, Orchestrator.Validate, KeysOf, TargetOpen, Passes, RivalKey, PassingWorld;
    ForeignZeroes(db, Rival(item), loopId, i, {RivalKey(item)}, continued, PassingWorld(BestKeys(db) + {RivalKey(item)}), limits);
  }

  lemma SameBest(db: Db, row: HungerItem)
    ensures BestKeys(Arrived(db, row)) == BestKeys(db)
  {
  }

  /** A row of any other id does no harm to the loop of this item. */
  lemma OtherIdsAreHarmless(db: Db, loopId: nat, i: nat, row: HungerItem, continued: bool, w: World, limits: Stagnation.Limits)
    requires Sound(db) && Pressing(db, i) && row.id != db.items[i].id && loopId <= db.lastLoopId
    ensures var after := Orchestrator.Validate(Arrived(db, row), loopId, db.items[i].id, continued, w, limits).0;
            Coupled(after) && ItemsKept(db.items, after.items) && |after.items| == |db.items|
  {
    var item, shared := db.items[i], Arrived(db, row);
    ElsewhereKept(db, row);
    LedgerUnmoved(db, row);
    assert Ours(db, item.id);
    assert TargetOpen(shared, item.id) && item.id !in shared.others;
    ValidateKept(shared, loopId, item.id, continued, w, limits);
    PrefixIsKept(db.items, db.items);
    ReportIsGated(shared, loopId, item.id, continued, w);
    hide Books, Clear, Coupled, Settle, Gated, TargetOpen, ReportOf, ItemsKept, Redundant;
    if Redundant(shared, continued, w) || !w.validationSafetyStop {
      SettleAdvances(shared, loopId, item.id, ReportOf(shared, loopId, item.id, continued, w), w, limits);
      SettleLength(shared, loopId, ReportOf(shared, loopId, item.id, continued, w), w, limits);
    }
  }

  lemma SettleLength(db: Db, loopId: nat, rep: Report, w: World, limits: Stagnation.Limits)
    ensures |Settle(db, loopId, rep, w, limits).0.items| == |db.items|
  {
    hide Finish, CommitManager.CanCommit, CommitManager.CommitRaises;
    var (after, d) := CommitManager.Applied(db, CandidateOf(loopId, w), rep, [], ActiveOf(db), w.files);
    if d.Decided? {
      var eff := Effective(rep, d);
      FinishItems(after.(items := HungerUpdate.UpdatedItems(after.items, eff)), loopId, eff, d.committed, ActiveOf(db), w, limits);
    }
  }

  /** Validating a pressing item keeps ledger and best in agreement, whatever the rest of the world
      does, exactly as long as no other task's newer row has the item's id. */
  lemma GateAgreesIff(db: Db, loopId: nat, i: nat, id: string, limits: Stagnation.Limits)
    requires Sound(db) && Pressing(db, i) && loopId <= db.lastLoopId
    ensures (forall row: HungerItem, continued, w :: row.id == id ==>
               Coupled(Orchestrator.Validate(Arrived(db, row), loopId, db.items[i].id, continued, w, limits).0))
            <==> id != db.items[i].id
  {
    var item := db.items[i];
    if id == item.id {
      RivalLoop(db, loopId, i, false, limits);
      var w := PassingWorld(BestKeys(db) + {RivalKey(item)});
      var after := Orchestrator.Validate(Arrived(db, Rival(item)), loopId, item.id, false, w, limits).0;
      assert after.items[i].status != CLOSED && after.items[i].gapScore == 0.0;
      assert !Coupled(after);
      assert Rival(item).id == id;
    } else {
      forall row: HungerItem, continued, w | row.id == id
        ensures Coupled(Orchestrator.Validate(Arrived(db, row), loopId, item.id, continued, w, limits).0)
      {
        OtherIdsAreHarmless(db, loopId, i, row, continued, w, limits);
      }
    }
  }

  ghost predicate AllFinished(db: Db) {
    forall j :: 0 <= j < |db.items| ==> Runs.Finished(db.items[j], BestKeys(db))
  }

  ghost predicate FewChecks(items: seq<HungerItem>) {
    forall j :: 0 <= j < |items| ==> items[j].checks < SNAP_LIMIT
  }

  /** After the loop of the last unfinished item, a done ledger means that best meets every item,
      exactly as long as no other task's newer row has that item's id. */
  lemma LastLoopDoneIff(db: Db, loopId: nat, i: nat, id: string, limits: Stagnation.Limits)
    requires Sound(db) && Pressing(db, i) && loopId <= db.lastLoopId && FewChecks(db.items)
    requires forall j :: 0 <= j < |db.items| && j != i ==> !Unfinished(db.items[j])
    ensures (forall row: HungerItem, continued, w :: row.id == id ==>
               var after := Orchestrator.Validate(Arrived(db, row), loopId, db.items[i].id, continued, w, limits).0;
               IsDone(after.items) ==> AllFinished(after))
            <==> id != db.items[i].id
  {
    var item := db.items[i];
    if id == item.id {
      RivalLoop(db, loopId, i, false, limits);
      var w := PassingWorld(BestKeys(db) + {RivalKey(item)});
      var after := Orchestrator.Validate(Arrived(db, Rival(item)), loopId, item.id, false, w, limits).0;
      ZeroedIsDone(db, after, i);
      ZeroGapIffMet(after.items[i], BestKeys(after));
      assert !Runs.Finished(after.items[i], BestKeys(after));
      assert Rival(item).id == id;
    } else {
      forall row: HungerItem, continued, w | row.id == id
        ensures var after := Orchestrator.Validate(Arrived(db, row), loopId, item.id, continued, w, limits).0;
                IsDone(after.items) ==> AllFinished(after)
      {
        OtherIdsAreHarmless(db, loopId, i, row, continued, w, limits);
        var after := Orchestrator.Validate(Arrived(db, row), loopId, item.id, continued, w, limits).0;
        hide Orchestrator.Validate;
        assert forall j :: 0 <= j < |db.items| ==> SameItem(db.items[j], after.items[j]);
        DoneIff(after);
      }
    }
  }

  lemma ZeroedIsDone(db: Db, after: Db, i: nat)
    requires Coupled(db) && i < |db.items| && Zeroed(db, after, db.items[i].id)
    requires forall j :: 0 <= j < |db.items| && j != i ==> !Unfinished(db.items[j])
    ensures IsDone(after.items)
  {
    forall j | 0 <= j < |after.items| ensures !Unfinished(after.items[j]) {
      if db.items[j].id != db.items[i].id { CoupledAt(db, j); }
    }
  }

  lemma LedgerUnmoved(db: Db, row: HungerItem)
    ensures Agreed(Arrived(db, row)) == Agreed(db)
  {
    assert BestKeys(Arrived(db, row)) == BestKeys(db);
  }

  // ---- two tasks in one database ------------------------------------------------------------------

  /** The `H-001` that every `new` writes, with `n` checks. */
  function Core(n: nat): HungerItem {
    HungerItem("H-001", 1.0, 1.0, OPEN, n, ModeAll, 0, None, [], 0, 0, None)
  }

  /** ... and the `H-002` beside it. */
  function Evidence(): HungerItem {
    HungerItem("H-002", 0.7, 1.0, OPEN, 1, ModeAll, 0, None, [], 0, 0, None)
  }

  function K(id: string, i: nat): string { MakeCheckKey(id, i) }

  /** A task just made by `new`, with two checks of its own; no other task is there yet. */
  ghost predicate FirstTask(db: Db) {
    && !db.hasMission && db.lastLoopId == 0 && db.items == [Core(2), Evidence()]
    && db.best == None && db.events == [] && db.txn == None && db.others == map[] && db.copies == map[]
  }

  /** Workers that finish and hand nothing back, under the ceilings. */
  ghost predicate QuietWork(w: World, p: Policy) {
    && w.maxWorkers >= 1 && w.worker.Finished? && w.handoffs == [] && w.proposals == [] && w.acceptedProposals == 0
    && !w.requiresHuman && w.cost < p.maxCost && w.tokens < p.maxTokens
  }

  lemma WorkOfQuiet(db: Db, loopId: nat, w: World)
    requires QuietWork(w, db.policy)
    ensures var r := Work(db, loopId, w);
            r.Ready? && r.db == Spent(db, w).(candidates := r.db.candidates)
  {
    assert TakenAll(Spent(db, w), loopId, []) == (Spent(db, w), true);
    assert Append(Spent(db, w), []) == Spent(db, w);
  }

  lemma BeginsOn(db: Db, w: World, limits: Stagnation.Limits)
    requires Decide(db, w) == (db, Continue) && Planner.Plan(db.items, w.maxWorkers).Some?
    ensures var b := Begin(db, w, limits);
            && b.Begun? && b.target == Planner.Plan(db.items, w.maxWorkers).value.id
            && RowsOf(b.db) == RowsOf(db) && BestKeys(b.db) == BestKeys(db) && SameBudget(Counted(db), b.db)
  {
    hide Decide, PlanLoop, EmptyPlan, Planner.Plan, Advanced;
    PlanLoopRows(db, w);
    PlanLoopAdvances(db, w);
  }

  /** One whole loop on a row of another task, all of whose missing checks pass. */
  lemma ForeignStep(db: Db, row: HungerItem, i: nat, gained: set<string>, w: World, limits: Stagnation.Limits)
    requires Books(db) && Funded(db.policy, db.clock, 1) && QuietWork(w, db.policy) && i < |db.items|
    requires Planner.Plan(db.items, w.maxWorkers) == Some(db.items[i]) && db.items[i].id == row.id && db.items[i].status == OPEN
    requires db.items[i].gapScore > 0.0 && row.id in db.others && db.others[row.id] == row
    requires gained <= KeysOf(row) && gained != {} && gained !! BestKeys(db) && Passes(w, BestKeys(db) + gained)
    requires Met(row, BestKeys(db) + gained)
    ensures var (after, outcome) := Step(db, w, limits);
            && outcome == Continue && Books(after) && Zeroed(db, after, row.id) && BestKeys(after) == BestKeys(db) + gained
            && after.others == db.others && after.policy == db.policy
            && after.clock == db.clock.(loopCount := db.clock.loopCount + 1, cost := w.cost, tokens := w.tokens)
  {
    FundedGoesOn(db, w, i);
    BeginKept(db, w, limits);
    BeginsOn(db, w, limits);
    var b := Begin(db, w, limits);
    WorkOfQuiet(b.db, b.loopId, w);
    WorkKept(b.db, b.loopId, w, b.target);
    var r := Work(b.db, b.loopId, w);
    RowsAre(b.db, db);
    SpentRows(b.db, r.db, w);
    hide Begin, Work, Decide, Planner.Plan, Books, TargetOpen, Passes, Met, KeysOf, Funded, QuietWork, Zeroed;
    ForeignLoop(r.db, b.loopId, row, gained, b.continued, w, limits);
    ValidateKept(r.db, b.loopId, b.target, b.continued, w, limits);
    ZeroedFrame(db, r.db, Step(db, w, limits).0, row.id);
  }

  lemma RowsAre(a: Db, b: Db)
    requires RowsOf(a) == RowsOf(b)
    ensures a.items == b.items && a.others == b.others && a.copies == b.copies
  {
  }

  lemma SpentRows(a: Db, b: Db, w: World)
    requires b == Spent(a, w).(candidates := b.candidates)
    ensures b.items == a.items && b.others == a.others && BestKeys(b) == BestKeys(a) && b.policy == a.policy
    ensures b.clock == a.clock.(cost := w.cost, tokens := w.tokens)
  {
  }

  lemma ZeroedFrame(a: Db, b: Db, after: Db, target: string)
    requires a.items == b.items && Zeroed(b, after, target)
    ensures Zeroed(a, after, target)
  {
  }

  lemma OneKey(row: HungerItem)
    requires row.checks == 1
    ensures KeysOf(row) == {K(row.id, 0)}
  {
    assert K(row.id, 0) in KeysOf(row);
  }

  lemma FirstPlan(items: seq<HungerItem>, maxWorkers: int)
    requires items == [Core(2), Evidence()] && maxWorkers >= 1
    ensures Planner.Plan(items, maxWorkers) == Some(items[0])
  {
    Planner.PlanPicksTheMostPressing(items, maxWorkers);
    assert items[0] == Core(2) && items[1] == Evidence() && Active(items[0]);
    assert Planner.Pressure(Core(2)) == 1.0 && Planner.Pressure(Evidence()) == 0.7;
    hide Planner.Plan;
  }

  lemma SecondPlan(items: seq<HungerItem>, maxWorkers: int)
    requires |items| == 2 && items[0].gapScore == 0.0 && items[1] == Evidence() && maxWorkers >= 1
    ensures Planner.Plan(items, maxWorkers) == Some(items[1])
  {
    Planner.PlanPicksTheMostPressing(items, maxWorkers);
    assert Active(items[1]);
    hide Planner.Plan;
  }

  function BothArrived(db: Db): Db {
    db.(others := db.others[Core(1).id := Core(1)][Evidence().id := Evidence()])
  }

  lemma {:induction false} FirstTaskIsSound(db: Db, limits: Stagnation.Limits)
    requires FirstTask(db)
    ensures Sound(db) && AfterTurns(db, [Elsewhere(Core(1)), Elsewhere(Evidence())], limits) == BothArrived(db)
    ensures Books(BothArrived(db)) && "H-001" != "H-002"
    ensures var others := BothArrived(db).others;
            "H-001" in others && others["H-001"] == Core(1) && "H-002" in others && others["H-002"] == Evidence()
  {
    DifferentIds();
    NewTaskIsSound(db);
    ElsewhereKept(db, Core(1));
    var next := Arrived(db, Core(1));
    ElsewhereKept(next, Evidence());
    var turns := [Elsewhere(Core(1)), Elsewhere(Evidence())];
    assert turns[1..] == [Elsewhere(Evidence())] && turns[1..][1..] == [];
    hide Books, Sound;
    assert AfterTurns(db, turns, limits) == AfterTurns(next, turns[1..], limits);
    assert AfterTurns(next, turns[1..], limits) == AfterTurns(BothArrived(db), [], limits);
  }

  lemma DifferentIds()
    ensures "H-001" != "H-002" && ':' !in "H-001" && ':' !in "H-002"
  {
    assert "H-001"[4] == '1' && "H-002"[4] == '2';
  }

  lemma FirstLoop(db: Db, w: World, limits: Stagnation.Limits)
    requires FirstTask(db) && Funded(db.policy, db.clock, 2) && QuietWork(w, db.policy) && Passes(w, {K("H-001", 0)})
    ensures var (after, outcome) := Step(BothArrived(db), w, limits);
            && outcome == Continue && Books(after) && |after.items| == 2
            && after.items[0].id == "H-001" && after.items[0].checks == 2 && after.items[0].mode == ModeAll
            && after.items[0].gapScore == 0.0 && after.items[0].status == VALIDATED_SATISFIED && after.items[1] == Evidence()
            && BestKeys(after) == {K("H-001", 0)} && after.others == BothArrived(db).others && after.policy == db.policy
            && after.clock == db.clock.(loopCount := db.clock.loopCount + 1, cost := w.cost, tokens := w.tokens)
  {
    hide Books, Passes, QuietWork, Step, MakeCheckKey, KeysOf, Planner.Plan, Sound, AfterTurns, Funded;
    var shared, gained := BothArrived(db), {K("H-001", 0)};
    FirstTaskIsSound(db, limits);
    QuietAllows(w, db.policy);
    FirstPlan(shared.items, w.maxWorkers);
    OneKey(Core(1));
    assert {} + gained == gained;
    LessFunded(db.policy, db.clock);
    ForeignStep(shared, Core(1), 0, gained, w, limits);
    FirstIsZeroed(shared, Step(shared, w, limits).0);
  }

  lemma LessFunded(p: Policy, c: Clock)
    requires Funded(p, c, 2)
    ensures Funded(p, c, 1)
  {
  }

  lemma QuietAllows(w: World, p: Policy)
    requires QuietWork(w, p)
    ensures w.maxWorkers >= 1
  {
  }

  lemma FirstIsZeroed(db: Db, after: Db)
    requires db.items == [Core(2), Evidence()] && Zeroed(db, after, "H-001")
    ensures |after.items| == 2 && after.items[1] == Evidence()
    ensures var item := after.items[0];
            item.id == "H-001" && item.checks == 2 && item.mode == ModeAll && item.gapScore == 0.0 && item.status == VALIDATED_SATISFIED
  {
    DifferentIds();
    assert db.items[0] == Core(2) && db.items[1] == Evidence();
  }

  lemma SecondLoop(db: Db, w: World, limits: Stagnation.Limits)
    requires Books(db) && Funded(db.policy, db.clock, 1) && QuietWork(w, db.policy) && |db.items| == 2
    requires db.items[0].id == "H-001" && db.items[0].gapScore == 0.0 && db.items[1] == Evidence()
    requires BestKeys(db) == {K("H-001", 0)} && "H-002" in db.others && db.others["H-002"] == Evidence()
    requires Passes(w, {K("H-001", 0), K("H-002", 0)})
    ensures var (after, outcome) := Step(db, w, limits);
            && outcome == Continue && |after.items| == 2 && after.items[0] == db.items[0] && after.items[1].gapScore == 0.0
            && BestKeys(after) == {K("H-001", 0), K("H-002", 0)} && after.policy == db.policy
            && after.clock == db.clock.(loopCount := db.clock.loopCount + 1, cost := w.cost, tokens := w.tokens)
  {
    var gained := {K("H-002", 0)};
    DifferentIds();
    if K("H-001", 0) == K("H-002", 0) { CheckKeyInjective("H-001", 0, "H-002", 0); }
    SecondPlan(db.items, w.maxWorkers);
    OneKey(Evidence());
    assert BestKeys(db) + gained == {K("H-001", 0), K("H-002", 0)};
    hide Books, Passes, QuietWork, Step, MakeCheckKey, KeysOf, Planner.Plan;
    ForeignStep(db, Evidence(), 1, gained, w, limits);
  }

  /** Two `new` commands in one database. The first task has two checks under `H-001`, the second one; both
      have their `H-002`. The first task's run takes a loop for `H-001`, a loop for `H-002`, and stops DONE:
      the checks that passed are the second task's, and `H-001:1` was never accepted. */
  lemma {:induction false} SecondTaskFinishesTheFirst(db: Db, worlds: seq<World>, limits: Stagnation.Limits)
    requires FirstTask(db) && Funded(db.policy, db.clock, 2) && db.policy.completionMode == STOP_ON_DONE
    requires |worlds| == 3 && QuietWork(worlds[0], db.policy) && QuietWork(worlds[1], db.policy)
    requires Passes(worlds[0], {K("H-001", 0)}) && Passes(worlds[1], {K("H-001", 0), K("H-002", 0)})
    ensures Sound(db)
    ensures var shared := AfterTurns(db, [Elsewhere(Core(1)), Elsewhere(Evidence())], limits);
            var (last, reason) := Runs.Run(shared, worlds, limits);
            && reason == DONE && BestKeys(last) == {K("H-001", 0), K("H-002", 0)} && K("H-001", 1) !in BestKeys(last)
            && |last.items| == 2 && last.items[0].id == "H-001" && last.items[0].checks == 2
            && !Runs.Finished(last.items[0], BestKeys(last))
  {
    FirstTaskIsSound(db, limits);
    var shared := BothArrived(db);
    FirstLoop(db, worlds[0], limits);
    var one := Step(shared, worlds[0], limits).0;
    hide Books, Passes, Step, MakeCheckKey, KeysOf, Sound, AfterTurns;
    SecondLoop(one, worlds[1], limits);
    var two := Step(one, worlds[1], limits).0;
    BothZeroUnmet(two);
    DoneLedgerStops(two, worlds[2], limits);
    ThreeSteps(shared, worlds, limits);
  }

  lemma {:induction false} ThreeSteps(db: Db, worlds: seq<World>, limits: Stagnation.Limits)
    requires |worlds| == 3
    ensures var (a, oa) := Step(db, worlds[0], limits);
            var (b, ob) := Step(a, worlds[1], limits);
            var (c, oc) := Step(b, worlds[2], limits);
            oa == Continue && ob == Continue && oc.Stop? ==> Runs.Run(db, worlds, limits) == (c, oc.reason)
  {
    hide Step;
    var a := Step(db, worlds[0], limits).0;
    var b := Step(a, worlds[1], limits).0;
    var rest := worlds[1..];
    assert rest[0] == worlds[1] && rest[1..][0] == worlds[2];
    if Step(db, worlds[0], limits).1 == Continue && Step(a, worlds[1], limits).1 == Continue {
      assert Runs.Run(db, worlds, limits) == Runs.Run(a, rest, limits);
      assert Runs.Run(a, rest, limits) == Runs.Run(b, rest[1..], limits);
    }
  }

  lemma BothZeroUnmet(db: Db)
    requires |db.items| == 2 && db.items[0].id == "H-001" && db.items[0].checks == 2 && db.items[0].mode == ModeAll
    requires db.items[0].gapScore == 0.0 && db.items[0].status == VALIDATED_SATISFIED && db.items[1].gapScore == 0.0
    requires BestKeys(db) == {K("H-001", 0), K("H-002", 0)}
    ensures IsDone(db.items) && K("H-001", 1) !in BestKeys(db) && !Runs.Finished(db.items[0], BestKeys(db))
  {
    DifferentIds();
    if K("H-001", 1) == K("H-002", 0) { CheckKeyInjective("H-001", 1, "H-002", 0); }
    if K("H-001", 1) == K("H-001", 0) { CheckKeyInjective("H-001", 1, "H-001", 0); }
    assert K(db.items[0].id, 1) in KeysOf(db.items[0]);
    hide MakeCheckKey, KeysOf;
  }

  lemma DoneLedgerStops(db: Db, w: World, limits: Stagnation.Limits)
    requires IsDone(db.items) && db.policy.completionMode == STOP_ON_DONE && db.policy.decayType == LOOP_COUNT && !db.clock.frozen
    requires db.clock.cost < db.policy.maxCost && db.clock.tokens < db.policy.maxTokens
    ensures Step(db, w, limits) == (db, Stop(DONE))
  {
    hide WorkPressure, IsDone;
  }

  // ---- over a loop and over runs -------------------------------------------------------------------

  /** Another task's item of the id, finished or not begun: its gap is never the one our keys give. */
  function Stranger(db: Db, id: string): HungerItem {
    var open := HungerItem(id, 1.0, 1.0, OPEN, 1, ModeAll, 0, None, [], 0, 0, None);
    if MakeCheckKey(id, 0) in BestKeys(db) then open else open.(gapScore := 0.0, status := VALIDATED_SATISFIED)
  }

  lemma StrangersGap(db: Db, id: string)
    ensures HungerUpdate.GapOf(Stranger(db, id), BestKeys(db)) != Stranger(db, id).gapScore
  {
    var row, k := Stranger(db, id), MakeCheckKey(id, 0);
    assert KeysOf(row) == {k} by { assert MakeCheckKey(row.id, 0) in KeysOf(row); }
    if k in BestKeys(db) {
      assert KeysOf(row) * BestKeys(db) == {k};
      HungerUpdate.WholeShare(1);
    } else {
      UntouchedGap(row, BestKeys(db));
    }
  }

  /** A pass whose worker reports a new item under the id and then a blocker on it. */
  function BlockingWorld(w: World, id: string): World {
    w.(worker := WorkerRun.Finished, proposals := [], acceptedProposals := 0, requiresHuman := true,
       handoffs := [Discovery(HungerItem(id, 1.0, 1.0, OPEN, 1, ModeAll, 0, None, [], 0, 0, None)), Blocker(id)])
  }

  /** Up to the plan a loop does not look at other tasks' rows, and leaves them newer than ours. */
  lemma {:induction false} AppendCommutes(db: Db, row: HungerItem, more: seq<HungerItem>)
    requires Ours(db, row.id)
    ensures Append(Arrived(db, row), more) == Arrived(Append(db, more), row) && Ours(Append(db, more), row.id)
    decreases |more|
  {
    if more != [] {
      if IsFresh(db.items, more[0]) {
        NewItemCommutes(db, row, more[0]);
        AppendCommutes(WithNewItem(db, more[0]), row, more[1..]);
      } else {
        AppendCommutes(db, row, more[1..]);
      }
    }
  }

  lemma NewItemCommutes(db: Db, row: HungerItem, item: HungerItem)
    requires Ours(db, row.id) && IsFresh(db.items, item)
    ensures WithNewItem(Arrived(db, row), item) == Arrived(WithNewItem(db, item), row) && Ours(WithNewItem(db, item), row.id)
  {
    HasIdAppend(db.items, item, row.id);
    assert !HasId(db.items, item.id);
    assert StillNewer(Arrived(db, row), item.id) == StillNewer(db, item.id)[row.id := row];
  }

  lemma DecideCommutes(db: Db, row: HungerItem, w: World)
    requires Ours(db, row.id) && Decide(db, w).1 == Continue
    ensures Decide(Arrived(db, row), w) == (Arrived(Decide(db, w).0, row), Continue) && Ours(Decide(db, w).0, row.id)
  {
    AppendCommutes(db, row, w.refinement);
    hide Append, BaseSnapshot, Ours;
  }

  /** The rows a loop has when its workers start, and the best keys it goes by. */
  ghost predicate SharedBy(a: Db, b: Db, row: HungerItem) {
    RowsOf(b) == RowsOf(Arrived(a, row)) && BestKeys(b) == BestKeys(a) && Ours(a, row.id)
  }

  lemma PlanLoopShares(db: Db, row: HungerItem, w: World)
    requires Ours(db, row.id)
    ensures var (a, plan, _) := PlanLoop(db, w);
            var (b, same, _) := PlanLoop(Arrived(db, row), w);
            same == plan && SharedBy(a, b, row) && BestKeys(a) == BestKeys(db)
  {
    PlanLoopRows(db, w);
    PlanLoopRows(Arrived(db, row), w);
    SameBest(db, row);
    hide PlanLoop, Planner.Plan;
  }

  lemma PlanLoopRows(db: Db, w: World)
    ensures var (a, plan, _) := PlanLoop(db, w);
            RowsOf(a) == RowsOf(db) && BestKeys(a) == BestKeys(db)
            && plan == Planner.Plan(db.items, w.maxWorkers)
  {
    hide Continued, Planner.Plan;
    ContinuedFrame(Counted(db), db.lastLoopId + 1, Planner.Plan(db.items, w.maxWorkers).Some?, w.sourceAvailable);
  }

  /** Whether a loop begins, and with which ledger, does not depend on other tasks' rows. */
  lemma BeginShares(db: Db, row: HungerItem, w: World, limits: Stagnation.Limits)
    requires Ours(db, row.id) && Begin(db, w, limits).Begun?
    ensures var a, b := Begin(db, w, limits), Begin(Arrived(db, row), w, limits);
            b.Begun? && SharedBy(a.db, b.db, row) && BestKeys(a.db) == BestKeys(db)
  {
    DecideCommutes(db, row, w);
    DecideAdvances(db, w);
    hide Decide, SharedBy, Advanced, PlanLoop, Planner.Plan;
    PlanLoopShares(Decide(db, w).0, row, w);
  }

  lemma {:induction false} DiscoveryIsThere(db: Db, item: HungerItem, row: HungerItem)
    requires Ours(db, item.id) && item.status == OPEN && item.gapScore == 1.0
    requires item.id in db.others && db.others[item.id] == row
    ensures var found := Append(db, [item]);
            && HasId(found.items, item.id) && item.id in found.others && found.others[item.id] == row
            && BestKeys(found) == BestKeys(db)
  {
    HasIdAppend(db.items, item, item.id);
    assert [item][1..] == [];
    var next := if IsFresh(db.items, item) then WithNewItem(db, item) else db;
    assert Append(db, [item]) == Append(next, []) == next;
    if !HasId(db.items, item.id) { assert IsFresh(db.items, item); }
  }

  /** The blocker writes the stranger's row over the ledger's entry. */
  lemma BlockerCopiesStranger(db: Db, id: string, row: HungerItem, loopId: nat, w: World)
    requires Ours(db, id) && row.id == id && row.status != CLOSED && row.mode == ModeAll
    requires id in db.others && db.others[id] == row
    requires row.gapScore != HungerUpdate.GapOf(row, BestKeys(db))
    ensures var r := Work(db, loopId, BlockingWorld(w, id));
            r.WorkerHalted? && !Coupled(r.db)
  {
    var item := HungerItem(id, 1.0, 1.0, OPEN, 1, ModeAll, 0, None, [], 0, 0, None);
    var spent := Spent(db, BlockingWorld(w, id));
    assert Ours(spent, id);
    BothTaken(spent, item, row, loopId);
    WorkOfBlocking(db, id, loopId, w);
    var marked := TakenAll(spent, loopId, [Discovery(item), Blocker(id)]).0;
    hide TakenAll, HungerUpdate.GapOf, Ours, Work, Coupled;
    SameRuleSameGap(row, row.(status := BLOCKED), BestKeys(db), BestKeys(marked));
    StaleEntry(marked, row.(status := BLOCKED));
  }

  lemma {:induction false} WorkOfBlocking(db: Db, id: string, loopId: nat, w: World)
    requires TakenAll(Spent(db, BlockingWorld(w, id)), loopId, BlockingWorld(w, id).handoffs).1
    ensures Work(db, loopId, BlockingWorld(w, id)) ==
            WorkerHalted(TakenAll(Spent(db, BlockingWorld(w, id)), loopId, BlockingWorld(w, id).handoffs).0, Stop(HUMAN_REQUIRED))
  {
    hide TakenAll;
    var taken := TakenAll(Spent(db, BlockingWorld(w, id)), loopId, BlockingWorld(w, id).handoffs).0;
    assert Append(taken, []) == taken;
  }

  lemma StaleEntry(db: Db, item: HungerItem)
    requires item in db.items && item.status == BLOCKED && item.gapScore != HungerUpdate.GapOf(item, BestKeys(db))
    ensures !Coupled(db)
  {
    hide HungerUpdate.GapOf;
  }

  lemma {:induction false} BothTaken(db: Db, item: HungerItem, row: HungerItem, loopId: nat)
    requires Ours(db, item.id) && item.status == OPEN && item.gapScore == 1.0
    requires item.id in db.others && db.others[item.id] == row && row.id == item.id && row.status != CLOSED
    ensures var (marked, ok) := TakenAll(db, loopId, [Discovery(item), Blocker(item.id)]);
            ok && BestKeys(marked) == BestKeys(db) && row.(status := BLOCKED) in marked.items
  {
    var found := Append(db, [item]);
    DiscoveryIsThere(db, item, row);
    var marked := Mark(found, item.id);
    var hs := [Discovery(item), Blocker(item.id)];
    hide Append;
    assert hs[1..] == [Blocker(item.id)] && hs[1..][1..] == [];
    assert Taken(db, loopId, hs[0]) == Some(found);
    assert Taken(found, loopId, Blocker(item.id)) == Some(marked);
    assert TakenAll(found, loopId, [Blocker(item.id)]) == TakenAll(marked, loopId, []) == (marked, true);
    var i :| 0 <= i < |found.items| && found.items[i].id == item.id;
    assert marked.items[i] == row.(status := BLOCKED);
  }

  /** As long as the task can still loop: whatever another task's newest row of an id says, every loop
      keeps ledger and best in agreement exactly when the id is not ours. */
  lemma LoopAgreesIff(db: Db, id: string, begins: World, limits: Stagnation.Limits)
    requires Sound(db) && Begin(db, begins, limits).Begun?
    ensures (forall row: HungerItem, w :: row.id == id ==> Coupled(Step(Arrived(db, row), w, limits).0)) <==> !Ours(db, id)
  {
    if Ours(db, id) {
      StrangerSpoils(db, id, begins, limits);
    } else {
      forall row: HungerItem, w | row.id == id ensures Coupled(Step(Arrived(db, row), w, limits).0) {
        ElsewhereKept(db, row);
        StepKeepsSound(Arrived(db, row), w, limits);
      }
    }
  }

  lemma StrangerSpoils(db: Db, id: string, begins: World, limits: Stagnation.Limits)
    requires Ours(db, id) && Begin(db, begins, limits).Begun?
    ensures Stranger(db, id).id == id && !Coupled(Step(Arrived(db, Stranger(db, id)), BlockingWorld(begins, id), limits).0)
  {
    var row, w := Stranger(db, id), BlockingWorld(begins, id);
    StrangersGap(db, id);
    BeginIgnoresWorkers(db, begins, w, limits);
    BeginShares(db, row, w, limits);
    var b := Begin(Arrived(db, row), w, limits);
    OursIsShared(Begin(db, w, limits).db, b.db, row);
    hide Begin, Work, Coupled, Stranger, HungerUpdate.GapOf, Ours, SharedBy;
    BlockerCopiesStranger(b.db, id, row, b.loopId, begins);
  }

  lemma OursIsShared(a: Db, b: Db, row: HungerItem)
    requires SharedBy(a, b, row)
    ensures Ours(b, row.id) && row.id in b.others && b.others[row.id] == row && BestKeys(b) == BestKeys(a)
  {
    assert RowsOf(b).ledger == a.items && RowsOf(b).copies == a.copies && RowsOf(b).others == a.others[row.id := row];
  }

  lemma BeginIgnoresWorkers(db: Db, a: World, b: World, limits: Stagnation.Limits)
    requires b.previousPhase == a.previousPhase && b.now == a.now && b.refinement == a.refinement
    requires b.maxWorkers == a.maxWorkers && b.sourceAvailable == a.sourceAvailable
    ensures Begin(db, b, limits) == Begin(db, a, limits)
  {
    hide BaseSnapshot, Append, Planner.Plan, Continued, EmptyPlan;
  }

  lemma {:induction false} TwoTurns(db: Db, row: HungerItem, w: World, limits: Stagnation.Limits)
    ensures AfterTurns(db, [Elsewhere(row), Loop(w)], limits) == Step(Arrived(db, row), w, limits).0
  {
    var turns := [Elsewhere(row), Loop(w)];
    assert turns[1..] == [Loop(w)] && [Loop(w)][1..] == [];
    hide Step;
    var next := Arrived(db, row);
    assert AfterTurns(next, [Loop(w)], limits) == AfterTurns(AfterTurn(next, Loop(w), limits), [], limits);
  }

  /** Over runs: an undisturbed run keeps the agreement, and at any point where the task can still loop
      the next row of another task leaves it standing, whatever the row and the loop after it, exactly
      when its id is not ours. */
  lemma {:induction false} RunAgreesIff(db: Db, turns: seq<Turn>, id: string, begins: World, limits: Stagnation.Limits)
    requires Sound(db) && Undisturbed(db, turns, limits) && Begin(AfterTurns(db, turns, limits), begins, limits).Begun?
    ensures var last := AfterTurns(db, turns, limits);
            && Coupled(last)
            && ((forall row: HungerItem, w :: row.id == id ==>
                   Coupled(AfterTurns(last, [Elsewhere(row), Loop(w)], limits)))
                <==> !Ours(last, id))
  {
    RunsKeepSound(db, turns, limits);
    var last := AfterTurns(db, turns, limits);
    LoopAgreesIff(last, id, begins, limits);
    hide Step, Begin, Ours, Undisturbed, Advanced, Coupled, AfterTurns, Stranger, BlockingWorld;
    if Ours(last, id) {
      var row, w := Stranger(last, id), BlockingWorld(begins, id);
      StrangerSpoils(last, id, begins, limits);
      TwoTurns(last, row, w, limits);
      assert !Coupled(AfterTurns(last, [Elsewhere(row), Loop(w)], limits));
    } else {
      forall row: HungerItem, w | row.id == id ensures Coupled(AfterTurns(last, [Elsewhere(row), Loop(w)], limits)) {
        TwoTurns(last, row, w, limits);
        assert Coupled(Step(Arrived(last, row), w, limits).0);
      }
    }
  }
}
