// Discovery credits over whole runs: who is credited for an accepted check.
module CreditRuns {
  import opened Domain
  import opened CheckKeys
  import opened Ordering
  import opened Repository
  import opened RefactorTransactions
  import opened Continuation
  import opened Orchestrator
  import opened Runs
  import CommitManager
  import HungerEngine
  import HungerUpdate
  import Planner
  import Stagnation

  /** The log credits the key to this proposer. */
  ghost predicate CreditedTo(events: seq<Event>, k: string, proposer: string) {
    exists e :: e in events && e.DiscoveryCredit? && e.checkKey == k && e.proposer == proposer
  }

  /** Accepted keys name ledger items, and exactly the accepted keys of worker-made items are credited, to their worker. */
  ghost predicate CreditsRight(db: Db) {
    && (forall k :: k in db.accepted ==> HasId(db.items, ItemIdOf(k)))
    && (forall k, proposer :: CreditedTo(db.events, k, proposer) <==>
          k in db.accepted && CommitManager.ProposedBy(db.items, k, proposer))
  }

  ghost predicate SourcesKept(a: seq<HungerItem>, b: seq<HungerItem>) {
    |a| <= |b| && forall i :: 0 <= i < |a| ==> b[i].id == a[i].id && b[i].generatedBy == a[i].generatedBy
  }

  /** Nothing is accepted or credited, and no item changes hands. */
  ghost predicate Quiet(a: Db, b: Db) {
    && SourcesKept(a.items, b.items) && b.accepted.Keys == a.accepted.Keys
    && forall k, proposer :: CreditedTo(b.events, k, proposer) <==> CreditedTo(a.events, k, proposer)
  }

  lemma QuietTransitive(a: Db, b: Db, c: Db)
    requires Quiet(a, b) && Quiet(b, c)
    ensures Quiet(a, c)
  {
    hide CreditedTo;
    forall i | 0 <= i < |a.items| ensures c.items[i].id == a.items[i].id && c.items[i].generatedBy == a.items[i].generatedBy {
      assert c.items[i].id == b.items[i].id;
    }
  }

  lemma QuietStore(a: Db, b: Db)
    requires SourcesKept(a.items, b.items) && b.accepted == a.accepted && b.events == a.events
    ensures Quiet(a, b)
  {
  }

  lemma {:induction false} SameProposers(a: seq<HungerItem>, b: seq<HungerItem>, k: string, proposer: string)
    requires SourcesKept(a, b) && DistinctIds(b) && HasId(a, ItemIdOf(k))
    ensures CommitManager.ProposedBy(b, k, proposer) <==> CommitManager.ProposedBy(a, k, proposer)
    ensures HasId(b, ItemIdOf(k))
  {
    var i :| 0 <= i < |a| && a[i].id == ItemIdOf(k);
    assert b[i].id == a[i].id;
    if CommitManager.ProposedBy(b, k, proposer) {
      var j :| 0 <= j < |b| && b[j].id == ItemIdOf(k) && b[j].generatedBy == Some("worker:" + proposer);
      assert j == i;
    }
    if CommitManager.ProposedBy(a, k, proposer) {
      var j :| 0 <= j < |a| && a[j].id == ItemIdOf(k) && a[j].generatedBy == Some("worker:" + proposer);
      assert b[j].id == ItemIdOf(k) && b[j].generatedBy == Some("worker:" + proposer);
    }
  }

  lemma QuietKeepsRight(a: Db, b: Db)
    requires CreditsRight(a) && Quiet(a, b) && DistinctIds(b.items)
    ensures CreditsRight(b)
  {
    forall k | k in a.accepted
      ensures HasId(b.items, ItemIdOf(k))
      ensures forall p :: CommitManager.ProposedBy(b.items, k, p) <==> CommitManager.ProposedBy(a.items, k, p)
    {
      forall p ensures CommitManager.ProposedBy(b.items, k, p) <==> CommitManager.ProposedBy(a.items, k, p) {
        SameProposers(a.items, b.items, k, p);
      }
      SameProposers(a.items, b.items, k, "");
    }
    hide CommitManager.ProposedBy, CreditedTo, HasId, DistinctIds, SourcesKept;
  }

  // ---- the quiet stages of a loop ----------------------------------------------------------------

  lemma {:induction false} ContinuedIsQuiet(db: Db, loopId: int, hasAssignments: bool, sourceAvailable: bool)
    ensures Quiet(db, Continued(db, loopId, hasAssignments, sourceAvailable).0)
  {
    var chain := ChainAt(db.events, loopId - 1);
    ChainLoggedIs(db.events, loopId - 1, chain);
    SeedsExactly(db, loopId, hasAssignments, sourceAvailable, chain);
    var after := Continued(db, loopId, hasAssignments, sourceAvailable).0;
    hide Continued, ChainLogged, CameBack, Sanctioned, ChainAt;
    if MayCarryOn(db, loopId, hasAssignments) {
      assert exists e :: after == db.(events := db.events + [e]) && !e.DiscoveryCredit?;
      var e :| after == db.(events := db.events + [e]) && !e.DiscoveryCredit?;
      NoCreditAdded(db.events, e);
    }
  }

  lemma NoCreditAdded(events: seq<Event>, e: Event)
    requires !e.DiscoveryCredit?
    ensures forall k, p :: CreditedTo(events + [e], k, p) <==> CreditedTo(events, k, p)
  {
  }

  lemma BeginIsQuiet(db: Db, w: World, limits: Stagnation.Limits)
    ensures Quiet(db, Begin(db, w, limits).db)
  {
    hide HungerEngine.BaseSnapshot, Append, Planner.Plan, Continued, CreditedTo;
    AppendFrame(db, w.refinement);
    var d := Decide(db, w).0;
    QuietStore(db, d);
    hide Decide;
    var counted := Counted(d);
    QuietStore(d, counted);
    ContinuedIsQuiet(counted, d.lastLoopId + 1, Planner.Plan(d.items, w.maxWorkers).Some?, w.sourceAvailable);
    var planned := PlanLoop(d, w).0;
    QuietStore(Continued(counted, d.lastLoopId + 1, Planner.Plan(d.items, w.maxWorkers).Some?, w.sourceAvailable).0, planned);
    QuietTransitive(db, d, counted);
    QuietTransitive(db, counted, Continued(counted, d.lastLoopId + 1, Planner.Plan(d.items, w.maxWorkers).Some?, w.sourceAvailable).0);
    QuietTransitive(db, Continued(counted, d.lastLoopId + 1, Planner.Plan(d.items, w.maxWorkers).Some?, w.sourceAvailable).0, planned);
    hide PlanLoop;
    QuietStore(planned, EmptyPlan(planned, planned.lastLoopId, limits).0);
    QuietTransitive(db, planned, EmptyPlan(planned, planned.lastLoopId, limits).0);
  }

  lemma ReplacedKeepsSources(items: seq<HungerItem>, row: HungerItem)
    requires forall i :: 0 <= i < |items| && items[i].id == row.id ==> items[i].generatedBy == row.generatedBy
    ensures SourcesKept(items, Replaced(items, row))
  {
  }

  lemma BlockerIsQuiet(db: Db, loopId: int, id: string)
    requires Keyed(RowsOf(db)) && DistinctIds(db.items) && Clear(db) && Taken(db, loopId, Blocker(id)).Some?
    ensures Quiet(db, Taken(db, loopId, Blocker(id)).value)
  {
    FindFacts(RowsOf(db), id);
    FoundIsOwn(db, id);
    var after := Taken(db, loopId, Blocker(id)).value;
    var row := Find(RowsOf(db), id).value.(status := BLOCKED);
    hide Find, Keyed, Clear, StillNewer, DistinctIds, Quiet;
    if after != db { ReplacedKeepsSources(db.items, row); }
    hide Replaced;
    QuietStore(db, after);
  }

  lemma TakenIsQuiet(db: Db, loopId: int, h: Handoff)
    requires Books(db) && Clear(db) && Taken(db, loopId, h).Some?
    ensures Quiet(db, Taken(db, loopId, h).value)
  {
    var after := Taken(db, loopId, h).value;
    BooksParts(db);
    assert Keyed(RowsOf(db));
    hide Quiet, Books, Clear, DistinctIds, ReadableIds, Keyed, TxnSound;
    match h {
      case Blocker(id) => BlockerIsQuiet(db, loopId, id);
      case Discovery(item) =>
        AppendFrame(db, [item]);
        hide Append;
        QuietStore(db, after);
      case OpenRefactor(declared, snapshotOk) =>
        OpenIsSound(db, loopId, declared, snapshotOk);
        hide OpenTxn;
        QuietStore(db, after);
      case CloseRefactor(restoreOk) =>
        CloseFrame(db, restoreOk);
        hide CloseTxn;
        QuietStore(db, after);
    }
  }

  lemma {:induction false} TakenAllIsQuiet(db: Db, loopId: int, handoffs: seq<Handoff>, target: string)
    requires Books(db) && Clear(db) && TargetOpen(db, target)
    ensures Quiet(db, TakenAll(db, loopId, handoffs).0)
    decreases |handoffs|
  {
    if handoffs == [] || Taken(db, loopId, handoffs[0]).None? {
      QuietStore(db, db);
    } else {
      var next := Taken(db, loopId, handoffs[0]).value;
      TakenIsQuiet(db, loopId, handoffs[0]);
      TakenKept(db, loopId, handoffs[0], target);
      assert Books(next) && Clear(next);
      hide Books, Clear, TargetOpen, Taken, Kept, Quiet;
      TakenAllIsQuiet(next, loopId, handoffs[1..], target);
      QuietTransitive(db, next, TakenAll(db, loopId, handoffs).0);
    }
  }

  lemma WorkIsQuiet(db: Db, loopId: nat, w: World, target: string)
    requires Books(db) && Clear(db) && TargetOpen(db, target)
    ensures Quiet(db, Work(db, loopId, w).db)
  {
    var spent := Spent(db, w);
    Frame(db, spent);
    TargetFrame(db, spent, target);
    QuietStore(db, spent);
    assert Books(spent) && Clear(spent);
    TakenAllIsQuiet(spent, loopId, w.handoffs, target);
    hide Books, Clear, TargetOpen, TakenAll, Kept, Quiet;
    var taken := TakenAll(spent, loopId, w.handoffs).0;
    QuietStore(spent, WithTrace(spent, ErrorTrace(loopId)));
    QuietTransitive(db, spent, WithTrace(spent, ErrorTrace(loopId)));
    QuietTransitive(db, spent, taken);
    QuietStore(taken, WithTrace(taken, ErrorTrace(loopId)));
    QuietTransitive(db, taken, WithTrace(taken, ErrorTrace(loopId)));
    ProposedFrame(taken, w);
    var after := Proposed(taken, w);
    hide Proposed;
    QuietStore(taken, after);
    QuietTransitive(db, taken, after);
    QuietStore(after, after.(candidates := after.candidates[CandidateId(loopId) := Pending]));
    QuietTransitive(db, after, after.(candidates := after.candidates[CandidateId(loopId) := Pending]));
  }

  lemma FinishIsQuiet(db: Db, loopId: nat, eff: Report, committed: bool, active: Option<Transaction>, w: World, limits: Stagnation.Limits)
    ensures Quiet(db, Finish(db, loopId, eff, committed, active, w, limits).0)
  {
    var after := Finish(db, loopId, eff, committed, active, w, limits).0;
    FinishItems(db, loopId, eff, committed, active, w, limits);
    FinishStore(db, loopId, eff, committed, active, w, limits);
    hide Finish;
    QuietStore(db, after);
  }

  lemma FinishStore(db: Db, loopId: nat, eff: Report, committed: bool, active: Option<Transaction>, w: World, limits: Stagnation.Limits)
    ensures var after := Finish(db, loopId, eff, committed, active, w, limits).0;
            after.accepted == db.accepted && after.events == db.events
  {
    hide Stagnation.Judged, AutoOpenKeys, OpenTxn, SettleIfDue, PreviousCandidateTrace;
    var judged := Stagnation.Updated(db, eff, committed, active, loopId, limits).0;
    var keys := AutoOpenKeys(judged.policy, eff, PreviousCandidateTrace(judged, loopId));
    if keys.Some? { OpenKeepsStore(judged, loopId, keys.value, w.txnFilesOk); }
    SettlementKeepsStore(AutoOpened(judged, loopId, eff, committed, w), loopId, w.txnFilesOk);
  }

  lemma OpenKeepsStore(db: Db, loopId: int, declared: seq<string>, filesOk: bool)
    ensures var after := OpenTxn(db, loopId, declared, filesOk); after.accepted == db.accepted && after.events == db.events
  {
    hide CanOpen;
  }

  lemma SettlementKeepsStore(db: Db, loopId: int, restoreOk: bool)
    ensures var after := SettleIfDue(db, loopId, restoreOk); after.accepted == db.accepted && after.events == db.events
  {
    CloseFrame(db, restoreOk);
    hide CloseTxn;
  }

  // ---- the commit ------------------------------------------------------------------------------------

  /** A commit credits exactly the checks it accepts for the first time, to the workers that proposed their items. */
  lemma CommitCredits(db: Db, loopId: nat, rep: Report, w: World, k: string, proposer: string)
    requires DistinctIds(db.items)
    ensures CreditedTo(CommittedAndUpdated(db, loopId, rep, w).events, k, proposer) <==>
            || CreditedTo(db.events, k, proposer)
            || (k in rep.newly && k !in db.accepted && CommitManager.ProposedBy(db.items, k, proposer))
  {
    var credits := CommitManager.Credits(db.items, rep.newly, db.accepted.Keys, loopId);
    CommitManager.CreditsExactly(db.items, rep.newly, db.accepted.Keys, loopId);
    var after := CommittedAndUpdated(db, loopId, rep, w);
    assert after.events == db.events + credits;
    hide CommitManager.Credits, CommitManager.ProposedBy, HungerUpdate.UpdatedItems, CommittedAndUpdated, DistinctIds;
    if k in rep.newly && k !in db.accepted && CommitManager.ProposedBy(db.items, k, proposer) {
      var e := DiscoveryCredit(proposer, k, loopId);
      assert e in credits && e in after.events;
    }
    if CreditedTo(db.events, k, proposer) {
      var e :| e in db.events && e.DiscoveryCredit? && e.checkKey == k && e.proposer == proposer;
      assert e in after.events;
    }
  }

  lemma CommitKeepsRight(db: Db, loopId: nat, rep: Report, target: string, w: World)
    requires CreditsRight(db) && DistinctIds(db.items) && HasId(db.items, target)
    requires ':' !in target && Gated(rep, db, target)
    ensures CreditsRight(CommittedAndUpdated(db, loopId, rep, w))
  {
    var after := CommittedAndUpdated(db, loopId, rep, w);
    KeysParse(db, rep, target);
    UpdateKeepsSources(db.items, rep);
    assert after.accepted.Keys == db.accepted.Keys + Elements(rep.newly);
    assert after.items == HungerUpdate.UpdatedItems(db.items, rep);
    hide Gated, CommittedAndUpdated, HungerUpdate.UpdatedItems, CheckKeys.Parses;
    forall k | k in after.accepted
      ensures HasId(after.items, ItemIdOf(k))
      ensures forall p :: CommitManager.ProposedBy(after.items, k, p) <==> CommitManager.ProposedBy(db.items, k, p)
    {
      assert k in db.accepted || k in rep.newly;
      forall p ensures CommitManager.ProposedBy(after.items, k, p) <==> CommitManager.ProposedBy(db.items, k, p) {
        SameProposers(db.items, after.items, k, p);
      }
      SameProposers(db.items, after.items, k, "");
    }
    hide HasId, CommitManager.ProposedBy, CreditedTo, SourcesKept;
    forall k, p ensures CreditedTo(after.events, k, p) <==> k in after.accepted && CommitManager.ProposedBy(after.items, k, p) {
      CommitCredits(db, loopId, rep, w, k, p);
    }
  }

  lemma UpdateKeepsSources(items: seq<HungerItem>, rep: Report)
    requires DistinctIds(items)
    ensures SourcesKept(items, HungerUpdate.UpdatedItems(items, rep)) && DistinctIds(HungerUpdate.UpdatedItems(items, rep))
  {
    hide CountFor;
  }

  lemma SettleKeepsRight(db: Db, loopId: nat, target: string, rep: Report, w: World, limits: Stagnation.Limits)
    requires Books(db) && TargetOpen(db, target) && Gated(rep, db, target) && CreditsRight(db)
    requires Books(Settle(db, loopId, rep, w, limits).0)
    ensures CreditsRight(Settle(db, loopId, rep, w, limits).0)
  {
    BooksParts(db);
    var after := Settle(db, loopId, rep, w, limits).0;
    BooksParts(after);
    TargetIsReadable(db, target);
    SettleCases(db, loopId, target, rep, w, limits);
    hide Settle, Finish, Books, Gated, TargetOpen, DecisionOn, CommittedAndUpdated, CreditsRight, Quiet;
    var d := DecisionOn(db, loopId, rep, w);
    if d.Raised? {
      QuietStore(db, WithTrace(db, ErrorTrace(loopId)));
      QuietKeepsRight(db, after);
    } else if d.committed {
      CommitKeepsRight(db, loopId, rep, target, w);
      FinishIsQuiet(CommittedAndUpdated(db, loopId, rep, w), loopId, rep, true, ActiveOf(db), w, limits);
      QuietKeepsRight(CommittedAndUpdated(db, loopId, rep, w), after);
    } else {
      RejectedIsQuiet(db, loopId, Effective(rep, d), w, limits);
      QuietKeepsRight(db, after);
    }
  }

  lemma RejectedIsQuiet(db: Db, loopId: nat, eff: Report, w: World, limits: Stagnation.Limits)
    ensures Quiet(db, Finish(CommitManager.RejectedDb(db, CandidateOf(loopId, w)), loopId, eff, false, ActiveOf(db), w, limits).0)
  {
    hide Finish, Quiet;
    var rejected := CommitManager.RejectedDb(db, CandidateOf(loopId, w));
    QuietStore(db, rejected);
    FinishIsQuiet(rejected, loopId, eff, false, ActiveOf(db), w, limits);
    QuietTransitive(db, rejected, Finish(rejected, loopId, eff, false, ActiveOf(db), w, limits).0);
  }

  // ---- loops, turns and runs ---------------------------------------------------------------------------

  lemma StepKeepsRight(db: Db, w: World, limits: Stagnation.Limits)
    requires Sound(db) && CreditsRight(db)
    ensures CreditsRight(Step(db, w, limits).0)
  {
    BeginKept(db, w, limits);
    BeginIsQuiet(db, w, limits);
    StepKeepsSound(db, w, limits);
    var b := Begin(db, w, limits);
    BooksParts(b.db);
    hide Begin, Quiet, CreditsRight, Agreed;
    QuietKeepsRight(db, b.db);
    if b.Begun? {
      WorkKept(b.db, b.loopId, w, b.target);
      WorkIsQuiet(b.db, b.loopId, w, b.target);
      var r := Work(b.db, b.loopId, w);
      BooksParts(r.db);
      hide Books, Clear, Work;
      QuietKeepsRight(b.db, r.db);
      if r.Ready? {
        hide Settle, ReportOf, Gated, TargetOpen, Redundant;
        ReadyKeepsRight(r.db, b.loopId, b.target, b.continued, w, limits);
      }
    }
  }

  lemma ReadyKeepsRight(db: Db, loopId: nat, target: string, continued: bool, w: World, limits: Stagnation.Limits)
    requires Books(db) && TargetOpen(db, target) && CreditsRight(db)
    ensures CreditsRight(Orchestrator.Validate(db, loopId, target, continued, w, limits).0)
  {
    BooksParts(db);
    assert Keyed(RowsOf(db));
    ReportIsGated(db, loopId, target, continued, w);
    var rep := ReportOf(db, loopId, target, continued, w);
    SettleKept(db, loopId, target, rep, w, limits);
    SettleKeepsRight(db, loopId, target, rep, w, limits);
    hide Settle, ReportOf, CreditsRight, Books, Gated, TargetOpen, Redundant;
  }

  lemma TurnKeepsRight(db: Db, t: Turn, limits: Stagnation.Limits)
    requires Sound(db) && CreditsRight(db)
    ensures CreditsRight(AfterTurn(db, t, limits))
  {
    hide Sound, CreditsRight, Step;
    if t.Loop? {
      StepKeepsRight(db, t.world, limits);
    } else {
      var after := AfterTurn(db, t, limits);
      assert DistinctIds(after.items) by {
        TurnKeepsBooksOf(db, t, limits);
      }
      QuietStore(db, after);
      QuietKeepsRight(db, after);
    }
  }

  lemma TurnKeepsBooksOf(db: Db, t: Turn, limits: Stagnation.Limits)
    requires Sound(db)
    ensures DistinctIds(AfterTurn(db, t, limits).items)
  {
    TurnKeepsBooks(db, t, limits);
    BooksParts(AfterTurn(db, t, limits));
    hide Books, AfterTurn;
  }

  /** Over every undisturbed run exactly the accepted checks of worker-made items are credited, each to the worker that
      proposed the item and in exactly one event. */
  lemma {:induction false} CreditsOverRuns(db: Db, turns: seq<Turn>, limits: Stagnation.Limits)
    requires Sound(db) && CreditsRight(db) && Undisturbed(db, turns, limits)
    ensures var after := AfterTurns(db, turns, limits);
            && (forall k, proposer :: CreditedTo(after.events, k, proposer) <==>
                  k in after.accepted && CommitManager.ProposedBy(after.items, k, proposer))
            && (forall i, j :: 0 <= i < j < |after.events| && after.events[i].DiscoveryCredit? && after.events[j].DiscoveryCredit? ==>
                  after.events[i].checkKey != after.events[j].checkKey)
  {
    RunsKeepRight(db, turns, limits);
    var after := AfterTurns(db, turns, limits);
    hide AfterTurns, Undisturbed, Clear, Agreed;
    OnceEach(after.events);
  }

  lemma {:induction false} RunsKeepRight(db: Db, turns: seq<Turn>, limits: Stagnation.Limits)
    requires Sound(db) && CreditsRight(db) && Undisturbed(db, turns, limits)
    ensures Sound(AfterTurns(db, turns, limits)) && CreditsRight(AfterTurns(db, turns, limits))
    decreases |turns|
  {
    hide Sound, AfterTurn, CreditsRight;
    if turns != [] {
      TurnKeepsSound(db, turns[0], limits);
      TurnKeepsRight(db, turns[0], limits);
      RunsKeepRight(AfterTurn(db, turns[0], limits), turns[1..], limits);
    }
  }

  lemma {:induction false} OnceEach(events: seq<Event>)
    requires Distinct(CreditedKeys(events))
    ensures forall i, j :: 0 <= i < j < |events| && events[i].DiscoveryCredit? && events[j].DiscoveryCredit? ==>
              events[i].checkKey != events[j].checkKey
  {
    if events != [] {
      var init, n := events[..|events| - 1], |events| - 1;
      assert CreditedKeys(events) == CreditedKeys(init) + if events[n].DiscoveryCredit? then [events[n].checkKey] else [];
      assert Distinct(CreditedKeys(init)) by {
        assert forall i :: 0 <= i < |CreditedKeys(init)| ==> CreditedKeys(events)[i] == CreditedKeys(init)[i];
      }
      OnceEach(init);
      if events[n].DiscoveryCredit? {
        forall i | 0 <= i < n && events[i].DiscoveryCredit? ensures events[i].checkKey != events[n].checkKey {
          var p := CreditPlace(init, i);
          assert CreditedKeys(events)[p] == init[i].checkKey && CreditedKeys(events)[|CreditedKeys(init)|] == events[n].checkKey;
        }
      }
      forall i, j | 0 <= i < j < n && events[i].DiscoveryCredit? && events[j].DiscoveryCredit?
        ensures events[i].checkKey != events[j].checkKey
      {
        assert init[i] == events[i] && init[j] == events[j];
      }
    }
  }

  lemma {:induction false} CreditPlace(events: seq<Event>, i: nat) returns (p: nat)
    requires i < |events| && events[i].DiscoveryCredit?
    ensures p < |CreditedKeys(events)| && CreditedKeys(events)[p] == events[i].checkKey
  {
    var init := events[..|events| - 1];
    if i < |init| {
      p := CreditPlace(init, i);
    } else {
      p := |CreditedKeys(init)|;
    }
  }

  /** A new task owes no credit. */
  lemma NewTaskOwesNothing(db: Db)
    requires db.accepted == map[] && db.events == []
    ensures CreditsRight(db)
  {
  }
}
