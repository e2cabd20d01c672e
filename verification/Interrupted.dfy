// A loop killed between its two transactions: the commit is durable, the ledger update and the trace are not.
module Interrupted {
  import opened Domain
  import opened CheckKeys
  import opened Ordering
  import opened Repository
  import opened RefactorTransactions
  import opened HungerEngine
  import opened Orchestrator
  import opened Runs
  import CommitManager
  import HungerUpdate
  import Planner
  import Stagnation
  import SharedRows
  import Traces

  /** The state the next process finds. */
  function Killed(db: Db, loopId: nat, rep: Report, w: World): Db {
    CommitManager.CommittedDb(db, CandidateOf(loopId, w), rep, [])
  }

  /** The loop's report was committed and would have been applied to the item at `i`. */
  ghost predicate Committing(db: Db, loopId: nat, i: nat, rep: Report, w: World) {
    && i < |db.items| && db.items[i].status != CLOSED && Usable(rep, db, db.items[i].id)
    && rep.regressed == [] && rep.newly != []
  }

  // ---- the agreement right after the kill ---------------------------------------------------------

  lemma NewKeysAreItsOwn(db: Db, loopId: nat, i: nat, rep: Report, w: World)
    requires DistinctIds(db.items) && Committing(db, loopId, i, rep, w)
    ensures Elements(rep.newly) <= KeysOf(db.items[i]) && Elements(rep.newly) != {}
    ensures rep.current == BestKeys(db) + Elements(rep.newly) && Elements(rep.newly) !! BestKeys(db)
    ensures forall j :: 0 <= j < |db.items| && j != i ==> KeysOf(db.items[j]) * rep.current == KeysOf(db.items[j]) * BestKeys(db)
  {
    GatedAgainst(rep, db, db.items[i].id);
    forall k | k in rep.newly ensures k in KeysOf(db.items[i]) { NewKeyIsItsOwn(rep, db, db.items[i].id, k, i); }
    hide Usable, Gated;
    assert rep.newly[0] in Elements(rep.newly);
    assert Elements(rep.regressed) == {};
    forall j | 0 <= j < |db.items| && j != i
      ensures KeysOf(db.items[j]) * rep.current == KeysOf(db.items[j]) * BestKeys(db)
    {
      OtherKeysStay(db.items[i], db.items[j], BestKeys(db), Elements(rep.newly));
    }
  }

  lemma OtherKeysStay(own: HungerItem, other: HungerItem, before: set<string>, gained: set<string>)
    requires own.id != other.id && gained <= KeysOf(own)
    ensures KeysOf(other) * (before + gained) == KeysOf(other) * before
  {
    forall k | k in KeysOf(other) && k in gained ensures false { SharedKeyMeansSameId(own, other, k); }
  }

  /** More keys move an open gap, whatever its rule: no rounding hides them. */
  lemma OpenGapMoves(item: HungerItem, before: set<string>, gained: set<string>)
    requires gained <= KeysOf(item) && gained != {} && gained !! before
    ensures HungerUpdate.GapOf(item, before + gained) == HungerUpdate.GapOf(item, before)
            <==> HungerUpdate.GapOf(item, before) == 0.0
  {
    var keys, n := KeysOf(item), HungerUpdate.TotalChecks(item);
    var had := keys * before;
    assert keys * (before + gained) == had + gained && had !! gained;
    HungerUpdate.KeyCount(item.id, item.checks);
    assert |keys| == item.checks;
    HungerUpdate.SubsetSize(had + gained, keys);
    assert |had + gained| == |had| + |gained| && |gained| > 0;
    assert item.checks > 0;
    HungerUpdate.ShareAdds(|had|, |gained|, n);
    HungerUpdate.ShareAdds(|had| + |gained|, n - |had| - |gained|, n);
    HungerUpdate.WholeShare(n);
  }

  lemma KillKeepsBooks(db: Db, loopId: nat, i: nat, rep: Report, w: World)
    requires Books(db) && Committing(db, loopId, i, rep, w)
    ensures Books(Killed(db, loopId, rep, w)) && (Clear(db) ==> Clear(Killed(db, loopId, rep, w)))
  {
    var whole, killed := CommittedAndUpdated(db, loopId, rep, w), Killed(db, loopId, rep, w);
    assert HasId(db.items, db.items[i].id);
    CommitKeepsBooks(db, loopId, rep, db.items[i].id, w);
    UpdateKeepsIds(db.items, rep);
    SameIdsFacts(db.items, whole.items);
    assert killed == whole.(items := db.items);
    RowsFrame(whole, killed);
    assert forall id :: Ours(killed, id) == Ours(db, id);
    hide Books, Usable, Ours;
  }

  /** The kill costs the agreement exactly when the loop's item had something left to do, as every planned
      item has. */
  lemma KillAgreesIff(db: Db, loopId: nat, i: nat, rep: Report, w: World)
    requires Sound(db) && Committing(db, loopId, i, rep, w)
    ensures Books(Killed(db, loopId, rep, w)) && Clear(Killed(db, loopId, rep, w))
    ensures Coupled(Killed(db, loopId, rep, w)) <==> db.items[i].gapScore == 0.0
  {
    KillKeepsBooks(db, loopId, i, rep, w);
    NewKeysAreItsOwn(db, loopId, i, rep, w);
    OpenGapMoves(db.items[i], BestKeys(db), Elements(rep.newly));
    hide Books, Clear, HungerUpdate.GapOf, Usable, CommitManager.Credits, CommitManager.RowsFor, KeysOwned;
    OneItemBehind(db, Killed(db, loopId, rep, w), i);
  }

  /** A ledger unchanged while best gains keys of one item alone. */
  lemma OneItemBehind(db: Db, after: Db, i: nat)
    requires Coupled(db) && i < |db.items| && db.items[i].status != CLOSED && after.items == db.items
    requires forall j :: 0 <= j < |db.items| && j != i ==>
               KeysOf(db.items[j]) * BestKeys(after) == KeysOf(db.items[j]) * BestKeys(db)
    ensures Coupled(after) <==>
            HungerUpdate.GapOf(db.items[i], BestKeys(after)) == HungerUpdate.GapOf(db.items[i], BestKeys(db))
  {
    hide HungerUpdate.GapOf;
    forall j | 0 <= j < |db.items| && j != i
      ensures HungerUpdate.GapOf(db.items[j], BestKeys(after)) == HungerUpdate.GapOf(db.items[j], BestKeys(db))
    {
      SameKeysSameGap(db.items[j], BestKeys(db), BestKeys(after));
    }
  }

  lemma SameKeysSameGap(item: HungerItem, before: set<string>, after: set<string>)
    requires KeysOf(item) * after == KeysOf(item) * before
    ensures HungerUpdate.GapOf(item, after) == HungerUpdate.GapOf(item, before)
  {
  }

  /** No trace tells of the keys the kill left in best. */
  lemma KillLosesTheTrace(db: Db, loopId: nat, i: nat, rep: Report, w: World)
    requires Books(db) && Committing(db, loopId, i, rep, w) && Traces.Told(db)
    ensures Traces.NewlyOf(Killed(db, loopId, rep, w).traces) + Elements(rep.newly) == BestKeys(Killed(db, loopId, rep, w))
    ensures Traces.NewlyOf(Killed(db, loopId, rep, w).traces) !! Elements(rep.newly)
  {
    NewKeysAreItsOwn(db, loopId, i, rep, w);
    hide Books, Usable;
  }

  // ---- what later loops can still mend -------------------------------------------------------------

  /** An open item with a gap, all of whose keys are accepted already. */
  ghost predicate Stranded(db: Db, i: nat, gap: real) {
    && i < |db.items| && db.items[i].status !in {CLOSED, VALIDATED_SATISFIED} && db.items[i].gapScore == gap > 0.0
    && KeysOf(db.items[i]) <= BestKeys(db)
  }

  /** The kill strands the loop's item exactly when the lost report passed the last of its checks. */
  lemma KillStrandsIff(db: Db, loopId: nat, i: nat, rep: Report, w: World)
    requires Committing(db, loopId, i, rep, w) && db.items[i].gapScore > 0.0 && db.items[i].status != VALIDATED_SATISFIED
    ensures Stranded(Killed(db, loopId, rep, w), i, db.items[i].gapScore) <==> KeysOf(db.items[i]) <= rep.current
  {
  }

  /** Otherwise a later report can mend it: the gap is right again once the item's rule is met. */
  lemma LaterReportMends(db: Db, i: nat, rep: Report)
    requires i < |db.items| && ':' !in db.items[i].id && Usable(rep, db, db.items[i].id) && rep.newly != []
    requires Met(db.items[i], rep.current) && DistinctIds(db.items)
    ensures var after := HungerUpdate.Touched(db.items[i], rep);
            after.gapScore == 0.0 && after.gapScore == HungerUpdate.GapOf(after, rep.current)
  {
    var item, k := db.items[i], rep.newly[0];
    KeysParse(db, rep, item.id);
    NewKeyIsItsOwn(rep, db, item.id, k, i);
    SharedRows.KeyIsCounted(rep.newly, k, item.id);
    TouchedKeepsIdentity(item, rep);
    hide HungerUpdate.Touched;
    if item.mode == ModeAll {
      HungerUpdate.AllKeys(KeysOf(item), rep.current);
      HungerUpdate.KeyCount(item.id, item.checks);
      HungerUpdate.WholeShare(HungerUpdate.TotalChecks(item));
    }
  }

  lemma SameWorkStrands(a: Db, b: Db, i: nat, gap: real)
    requires Stranded(a, i, gap) && i < |b.items| && SameWork(a.items[i], b.items[i]) && BestKeys(a) <= BestKeys(b)
    ensures Stranded(b, i, gap)
  {
    SameWorkSameGap(a.items[i], b.items[i], {});
  }

  lemma BeginKeepsItem(db: Db, w: World, limits: Stagnation.Limits, i: nat)
    requires i < |db.items|
    ensures var after := Begin(db, w, limits).db;
            i < |after.items| && after.items[i] == db.items[i] && after.best == db.best
  {
    BeginAdvances(db, w, limits);
    DecideKeepsItem(db, w, i);
    var d := Decide(db, w).0;
    PlanLoopKept(d, w);
    hide Decide, PlanLoop, Advanced, Kept;
  }

  lemma DecideKeepsItem(db: Db, w: World, i: nat)
    requires i < |db.items|
    ensures i < |Decide(db, w).0.items| && Decide(db, w).0.items[i] == db.items[i]
  {
    hide BaseSnapshot, Append;
    AppendFrame(db, w.refinement);
  }

  lemma {:induction false} HandoffsKeepWork(db: Db, loopId: int, handoffs: seq<Handoff>, target: string, i: nat)
    requires Books(db) && Clear(db) && TargetOpen(db, target) && i < |db.items|
    ensures var after := TakenAll(db, loopId, handoffs).0;
            i < |after.items| && SameWork(db.items[i], after.items[i])
    decreases |handoffs|
  {
    if handoffs != [] && Taken(db, loopId, handoffs[0]).Some? {
      var next := Taken(db, loopId, handoffs[0]).value;
      HandoffKeepsWork(db, loopId, handoffs[0], target, i);
      TakenKept(db, loopId, handoffs[0], target);
      hide Books, Clear, Taken, TargetOpen;
      HandoffsKeepWork(next, loopId, handoffs[1..], target, i);
    }
  }

  lemma HandoffKeepsWork(db: Db, loopId: int, h: Handoff, target: string, i: nat)
    requires Books(db) && Clear(db) && i < |db.items| && Taken(db, loopId, h).Some?
    ensures var after := Taken(db, loopId, h).value;
            i < |after.items| && SameWork(db.items[i], after.items[i])
  {
    match h {
      case Blocker(id) => if Find(RowsOf(db), id).value.status != CLOSED { MarkIsOwnWork(db, id); }
      case Discovery(item) => AppendFrame(db, [item]);
      case OpenRefactor(declared, snapshotOk) => OpenIsSound(db, loopId, declared, snapshotOk);
      case CloseRefactor(restoreOk) => SettlementKeepsBest(db, restoreOk);
    }
  }

  lemma WorkKeepsWork(db: Db, loopId: nat, w: World, target: string, i: nat)
    requires Books(db) && Clear(db) && TargetOpen(db, target) && i < |db.items|
    ensures var after := Work(db, loopId, w).db;
            i < |after.items| && SameWork(db.items[i], after.items[i])
  {
    hide TakenAll, Append, Books, Clear, TargetOpen;
    var spent := Spent(db, w);
    Frame(db, spent);
    TargetFrame(db, spent, target);
    if w.worker.Finished? {
      HandoffsKeepWork(spent, loopId, w.handoffs, target, i);
      AppendFrame(TakenAll(spent, loopId, w.handoffs).0, w.proposals);
    }
  }

  lemma FinishKeepsWork(db: Db, loopId: nat, eff: Report, committed: bool, active: Option<Transaction>,
                        w: World, limits: Stagnation.Limits, i: nat)
    requires i < |db.items|
    ensures var after := Finish(db, loopId, eff, committed, active, w, limits).0;
            i < |after.items| && SameWork(db.items[i], after.items[i])
  {
    FinishItems(db, loopId, eff, committed, active, w, limits);
    Stagnation.JudgeKeepsGaps(db.items[i], eff, committed, active, loopId, db.policy, limits);
    hide Finish;
  }

  lemma NewKeyIsItsOwn(rep: Report, db: Db, target: string, k: string, i: nat)
    requires DistinctIds(db.items) && Usable(rep, db, target) && k in rep.newly && i < |db.items| && db.items[i].id == target
    ensures k in KeysOf(db.items[i]) && k !in BestKeys(db)
  {
    assert k in Elements(rep.newly);
  }

  /** New keys are never accepted already, so a stranded item gets none. */
  lemma StrandedIsUntouched(db: Db, rep: Report, target: string, i: nat, gap: real)
    requires Books(db) && Stranded(db, i, gap) && Usable(rep, db, target) && ':' !in target
    ensures HungerUpdate.Touched(db.items[i], rep) == db.items[i]
  {
    var id := db.items[i].id;
    if CountFor(rep.newly, id) > 0 {
      var k := SomeCounted(rep.newly, id);
      KeysParse(db, rep, target);
      NewKeyIsItsOwn(rep, db, target, k, i);
      assert false;
    }
  }

  lemma SettleKeepsWork(db: Db, loopId: nat, target: string, rep: Report, w: World, limits: Stagnation.Limits, i: nat, gap: real)
    requires Books(db) && TargetOpen(db, target) && Usable(rep, db, target) && Stranded(db, i, gap)
    ensures var after := Settle(db, loopId, rep, w, limits).0;
            i < |after.items| && SameWork(db.items[i], after.items[i])
  {
    hide Settle, Finish, Books, Usable, TargetOpen, Stranded, DecisionOn, CommittedAndUpdated, SameWork, Gated;
    StrandedIsOpen(db, i, gap);
    UsableIsGated(rep, db, target);
    BooksParts(db);
    TargetIsReadable(db, target);
    SettleCases(db, loopId, target, rep, w, limits);
    var d := DecisionOn(db, loopId, rep, w);
    if d.Raised? {
      SameWorkReflexive(db.items[i]);
    } else if d.committed {
      CommitSparesStranded(db, loopId, target, rep, w, i, gap);
      FinishKeepsWork(CommittedAndUpdated(db, loopId, rep, w), loopId, rep, true, ActiveOf(db), w, limits, i);
    } else {
      FinishKeepsWork(CommitManager.RejectedDb(db, CandidateOf(loopId, w)), loopId, Effective(rep, d), false, ActiveOf(db), w, limits, i);
    }
  }

  lemma StrandedIsOpen(db: Db, i: nat, gap: real)
    requires Stranded(db, i, gap)
    ensures i < |db.items|
  {
  }

  lemma UsableIsGated(rep: Report, db: Db, target: string)
    requires Usable(rep, db, target)
    ensures Gated(rep, db, target)
  {
  }

  lemma SameWorkReflexive(item: HungerItem)
    ensures SameWork(item, item)
  {
  }

  lemma CommitSparesStranded(db: Db, loopId: nat, target: string, rep: Report, w: World, i: nat, gap: real)
    requires Books(db) && Usable(rep, db, target) && Stranded(db, i, gap) && ':' !in target
    ensures var after := CommittedAndUpdated(db, loopId, rep, w);
            |after.items| == |db.items| && after.items[i] == db.items[i]
  {
    StrandedIsUntouched(db, rep, target, i, gap);
    hide Books, Usable, HungerUpdate.Touched;
  }

  lemma StepKeepsStranded(db: Db, w: World, limits: Stagnation.Limits, i: nat, gap: real)
    requires Books(db) && Clear(db) && Stranded(db, i, gap)
    ensures Stranded(Step(db, w, limits).0, i, gap)
  {
    StepAdvances(db, w, limits);
    BeginKept(db, w, limits);
    BeginKeepsItem(db, w, limits, i);
    var b := Begin(db, w, limits);
    SameWorkStrands(db, b.db, i, gap);
    if b.Begun? {
      WorkKept(b.db, b.loopId, w, b.target);
      WorkKeepsWork(b.db, b.loopId, w, b.target, i);
      WorkGrows(b.db, b.loopId, w, b.target);
      var r := Work(b.db, b.loopId, w);
      SameWorkStrands(b.db, r.db, i, gap);
      if r.Ready? { ValidateKeepsStranded(r.db, b.loopId, b.target, b.continued, w, limits, i, gap); }
    }
  }

  lemma ValidateKeepsStranded(db: Db, loopId: nat, target: string, continued: bool, w: World, limits: Stagnation.Limits, i: nat, gap: real)
    requires Books(db) && Clear(db) && TargetOpen(db, target) && Stranded(db, i, gap) && loopId <= db.lastLoopId
    ensures Stranded(Orchestrator.Validate(db, loopId, target, continued, w, limits).0, i, gap)
  {
    TargetIsReadable(db, target);
    assert Ours(db, target);
    ReportIsUsable(db, loopId, target, continued, w);
    var rep := ReportOf(db, loopId, target, continued, w);
    hide ReportOf, Settle, Books, Clear, Redundant;
    if Redundant(db, continued, w) || !w.validationSafetyStop {
      SettleKeepsWork(db, loopId, target, rep, w, limits, i, gap);
      SettleAdvances(db, loopId, target, rep, w, limits);
      SameWorkStrands(db, Settle(db, loopId, rep, w, limits).0, i, gap);
    }
  }

  lemma TurnKeepsStranded(db: Db, t: Turn, limits: Stagnation.Limits, i: nat, gap: real)
    requires Books(db) && Clear(db) && Stranded(db, i, gap) && (t.Elsewhere? ==> !Ours(db, t.row.id))
    ensures var after := AfterTurn(db, t, limits);
            Books(after) && Clear(after) && Stranded(after, i, gap)
  {
    if t.Loop? {
      StepKeepsStranded(db, t.world, limits, i, gap);
      StepKeepsSound(db, t.world, limits);
    } else {
      if t.Elsewhere? { ElsewhereKept(db, t.row); } else { TurnKept(db, t, limits); }
      hide Step, Books;
      var after := AfterTurn(db, t, limits);
      assert SameWork(db.items[i], after.items[i]);
      SameWorkStrands(db, after, i, gap);
    }
  }

  /** A stranded item is never finished: its gap stays as it is in every undisturbed run, whatever workers
      and operators do, and no loop of the run stops DONE. */
  lemma {:induction false} StrandedForGood(db: Db, turns: seq<Turn>, w: World, limits: Stagnation.Limits, i: nat, gap: real)
    requires Books(db) && Clear(db) && Stranded(db, i, gap) && Undisturbed(db, turns, limits)
    ensures var last := AfterTurns(db, turns, limits);
            Stranded(last, i, gap) && Step(last, w, limits).1 != Stop(DONE)
    decreases |turns|
  {
    if turns == [] {
      StrandedNeverDone(db, w, limits, i, gap);
    } else {
      TurnKeepsStranded(db, turns[0], limits, i, gap);
      hide Books, Clear, Stranded, AfterTurn, Step, Ours;
      StrandedForGood(AfterTurn(db, turns[0], limits), turns[1..], w, limits, i, gap);
    }
  }

  lemma StrandedNeverDone(db: Db, w: World, limits: Stagnation.Limits, i: nat, gap: real)
    requires Books(db) && Clear(db) && Stranded(db, i, gap)
    ensures Step(db, w, limits).1 != Stop(DONE)
  {
    StepKeepsStranded(db, w, limits, i, gap);
    hide Step, Books, Clear;
    assert Unfinished(Step(db, w, limits).0.items[i]);
    if Step(db, w, limits).1 == Stop(DONE) { OnlyDecideStopsDone(db, w, limits); }
  }
}
