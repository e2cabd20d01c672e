// The rules a loop goes by before it validates, and the operator's commands, read off the fields of the state.
module LoopRules {
  import opened Domain
  import opened Ordering
  import opened Repository
  import opened RefactorTransactions
  import opened HungerEngine
  import opened Orchestrator
  import opened Runs
  import opened CheckKeys
  import CommitManager
  import Planner
  import Stagnation

  // ---- new items ---------------------------------------------------------------------------------

  /** An item as a compiler makes it. */
  predicate Compiled(item: HungerItem) {
    item.status == OPEN && item.gapScore == 1.0 && ':' !in item.id
  }

  /** The `n`th new item is taken up: it is compiled, and neither the ledger nor an earlier one has its id. */
  ghost predicate TakenUp(items: seq<HungerItem>, more: seq<HungerItem>, n: nat)
    requires n < |more|
  {
    && Compiled(more[n]) && (forall i :: 0 <= i < |items| ==> items[i].id != more[n].id)
    && forall j :: 0 <= j < n && Compiled(more[j]) ==> more[j].id != more[n].id
  }

  /** New items go to the end of the ledger: exactly the first compiled one of every id it does not hold. */
  lemma {:induction false} AppendExactly(db: Db, more: seq<HungerItem>)
    ensures var after := Append(db, more);
            && db.items <= after.items
            && forall x :: x in after.items[|db.items|..] <==> exists n :: 0 <= n < |more| && more[n] == x && TakenUp(db.items, more, n)
    decreases |more|
  {
    if more != [] {
      var head, rest := more[0], more[1..];
      var next := if IsFresh(db.items, head) then WithNewItem(db, head) else db;
      AppendExactly(next, rest);
      var after := Append(db, more);
      assert after == Append(next, rest);
      assert TakenUp(db.items, more, 0) <==> IsFresh(db.items, head);
      forall n | 0 <= n < |rest| ensures rest[n] == more[n + 1] && (TakenUp(next.items, rest, n) <==> TakenUp(db.items, more, n + 1)) {
        LaterTakenUp(db.items, more, n);
      }
      AddedTail(db.items, next.items, after.items);
      hide TakenUp, IsFresh, WithNewItem, Append;
      forall x ensures x in after.items[|db.items|..] <==> exists n :: 0 <= n < |more| && more[n] == x && TakenUp(db.items, more, n) {
        OneMoreTakenUp(db.items, next.items, more, x);
      }
    }
  }

  lemma OneMoreTakenUp(items: seq<HungerItem>, now: seq<HungerItem>, more: seq<HungerItem>, x: HungerItem)
    requires more != []
    requires forall n :: 0 <= n < |more| - 1 ==> (TakenUp(now, more[1..], n) <==> TakenUp(items, more, n + 1))
    ensures (exists n :: 0 <= n < |more| && more[n] == x && TakenUp(items, more, n))
            <==> (more[0] == x && TakenUp(items, more, 0))
                 || exists n :: 0 <= n < |more| - 1 && more[1..][n] == x && TakenUp(now, more[1..], n)
  {
    hide TakenUp;
    var rest := more[1..];
    if n :| 0 <= n < |more| && more[n] == x && TakenUp(items, more, n) && n > 0 {
      assert rest[n - 1] == x && TakenUp(now, rest, n - 1);
    }
    if n :| 0 <= n < |rest| && rest[n] == x && TakenUp(now, rest, n) {
      assert more[n + 1] == x && TakenUp(items, more, n + 1);
    }
  }

  lemma LaterTakenUp(items: seq<HungerItem>, more: seq<HungerItem>, n: nat)
    requires n + 1 < |more|
    ensures TakenUp(if IsFresh(items, more[0]) then items + [more[0]] else items, more[1..], n) <==> TakenUp(items, more, n + 1)
  {
    var rest := more[1..];
    var now := if IsFresh(items, more[0]) then items + [more[0]] else items;
    assert rest[n] == more[n + 1] && forall j :: 0 <= j < n ==> rest[j] == more[j + 1];
    if TakenUp(now, rest, n) {
      forall i | 0 <= i < |items| ensures items[i].id != more[n + 1].id { assert now[i] == items[i]; }
      forall j | 0 <= j < n + 1 && Compiled(more[j]) ensures more[j].id != more[n + 1].id {
        if j == 0 {
          if IsFresh(items, more[0]) { assert now[|items|] == more[0]; }
        } else {
          assert rest[j - 1] == more[j];
        }
      }
    }
    if TakenUp(items, more, n + 1) {
      forall i | 0 <= i < |now| ensures now[i].id != rest[n].id {
        if i == |items| { assert now[i] == more[0] && Compiled(more[0]); }
      }
    }
  }

  lemma AddedTail(a: seq<HungerItem>, b: seq<HungerItem>, c: seq<HungerItem>)
    requires a <= b <= c && (b == a || (|b| == |a| + 1))
    ensures forall x :: x in c[|a|..] <==> (b != a && x == b[|a|]) || x in c[|b|..]
  {
    if b != a { assert c[|a|..] == [b[|a|]] + c[|b|..]; }
  }

  /** A new item is found from then on, unless another task's row is newer than the row this task already had of its id. */
  lemma NewItemIsFound(db: Db, item: HungerItem)
    requires IsFresh(db.items, item)
    ensures var after := WithNewItem(db, item);
            && (forall id :: id != item.id ==> Find(RowsOf(after), id) == Find(RowsOf(db), id))
            && Find(RowsOf(after), item.id)
               == (if item.id in db.others && item.id in db.copies then Some(db.others[item.id]) else Some(item))
            && item.id !in after.copies
  {
    var more := db.items + [item];
    assert more[..|more| - 1] == db.items;
    assert !HasId(db.items, item.id);
  }

  // ---- whether a loop begins -----------------------------------------------------------------------

  ghost predicate GapLeft(items: seq<HungerItem>) {
    exists item :: item in items && item.status !in {CLOSED, VALIDATED_SATISFIED} && item.gapScore > 0.0
  }

  ghost predicate CanMove(items: seq<HungerItem>) {
    exists item :: item in items && item.status in {OPEN, WORKING, PAUSED} && item.gapScore > 0.0
  }

  /** Nobody paused the task and both ceilings leave room. */
  predicate MayRun(p: Policy, c: Clock) {
    !c.frozen && c.cost < p.maxCost && c.tokens < p.maxTokens
  }

  /** The refinement compiler has something new. */
  ghost predicate Refines(db: Db, w: World) {
    exists n :: 0 <= n < |w.refinement| && TakenUp(db.items, w.refinement, n)
  }

  lemma {:induction false} RefinesIff(db: Db, w: World)
    ensures Append(db, w.refinement).items != db.items <==> Refines(db, w)
    ensures Refines(db, w) ==> CanMove(Append(db, w.refinement).items)
  {
    AppendExactly(db, w.refinement);
    var after := Append(db, w.refinement);
    hide Append;
    if Refines(db, w) {
      var n :| 0 <= n < |w.refinement| && TakenUp(db.items, w.refinement, n);
      assert w.refinement[n] in after.items[|db.items|..];
      assert w.refinement[n] in after.items && w.refinement[n].status == OPEN;
    }
    if after.items != db.items {
      var x := after.items[|db.items|];
      assert x in after.items[|db.items|..];
    }
  }

  /** How a loop starts, in full. Without a pause and under both ceilings it goes on exactly if some item can move and
      budget is left; with everything done, only under SPEND_BUDGET, with budget left and something to refine. */
  lemma {:induction false} DecideExactly(db: Db, w: World)
    requires RawBudget(db.policy, db.clock, w.now).Some?
    ensures
      var budget := BaseSnapshot(db.policy, db.clock, db.items, w.previousPhase, w.now).value.driveBudget;
      Decide(db, w) ==
      if db.clock.frozen then (db, Stop(HUMAN_PAUSED))
      else if !MayRun(db.policy, db.clock) then (db, Stop(SAFETY_STOP))
      else if GapLeft(db.items) then
        (db, if !CanMove(db.items) then Stop(STOP_BLOCKED) else if budget <= 0.0 then Stop(HUNGER_EXPIRED) else Continue)
      else if db.policy.completionMode == STOP_ON_DONE then (db, Stop(DONE))
      else if budget <= 0.0 then (db, Stop(BUDGET_EXHAUSTED))
      else if Refines(db, w) then (Append(db, w.refinement), Continue)
      else (db, Stop(DONE))
  {
    var budget := BaseSnapshot(db.policy, db.clock, db.items, w.previousPhase, w.now).value.driveBudget;
    var refined := Append(db, w.refinement);
    StopsExactly(db.policy, db.clock, db.items, budget);
    StopsExactly(db.policy, db.clock, refined.items, budget);
    RefinesIff(db, w);
    hide RawBudget, WorkPressure, PhaseWithHysteresis, Append, StopFor, Refines;
    CanMoveHasGap(db.items);
    CanMoveHasGap(refined.items);
    assert StopFor(db.policy, db.clock, db.items, budget) == BaseSnapshot(db.policy, db.clock, db.items, w.previousPhase, w.now).value.stopReason;
    assert BaseSnapshot(db.policy, db.clock, refined.items, w.previousPhase, w.now).value.stopReason == StopFor(db.policy, db.clock, refined.items, budget);
    hide BaseSnapshot;
  }

  lemma CanMoveHasGap(items: seq<HungerItem>)
    ensures CanMove(items) ==> GapLeft(items)
  {
  }

  /** A spent ceiling stops the task before anything is written. */
  lemma SpentCeilingStops(db: Db, w: World, limits: Stagnation.Limits)
    requires RawBudget(db.policy, db.clock, w.now).Some? && !db.clock.frozen
    requires db.clock.cost >= db.policy.maxCost || db.clock.tokens >= db.policy.maxTokens
    ensures Step(db, w, limits) == (db, Stop(SAFETY_STOP))
  {
    hide Step, RawBudget, BaseSnapshot, GapLeft, CanMove, Refines;
    DecideExactly(db, w);
    HaltedAtOnce(db, w, limits);
  }

  /** A loop is only begun with room under both ceilings, and with budget left. */
  lemma BegunUnderCeilings(db: Db, w: World, limits: Stagnation.Limits)
    requires Begin(db, w, limits).Begun?
    ensures db.clock.cost < db.policy.maxCost && db.clock.tokens < db.policy.maxTokens && !db.clock.frozen
    ensures RawBudget(db.policy, db.clock, w.now).Some? && RawBudget(db.policy, db.clock, w.now).value > 0.0
  {
    if RawBudget(db.policy, db.clock, w.now).Some? { DecideExactly(db, w); }
    hide PlanLoop, RawBudget, WorkPressure, StopFor, GapLeft, CanMove, Refines, Append;
    assert BaseSnapshot(db.policy, db.clock, db.items, w.previousPhase, w.now).Some? ==>
             BaseSnapshot(db.policy, db.clock, db.items, w.previousPhase, w.now).value.driveBudget
             == RMax(0.0, RMin(db.policy.hMax, RawBudget(db.policy, db.clock, w.now).value));
  }

  /** Costs are checked between loops: a run overshoots a ceiling by the last loop's spending at most. */
  lemma {:induction false} OvershootIsOneLoop(db: Db, worlds: seq<World>, k: nat, limits: Stagnation.Limits)
    requires k < |worlds| && AfterLoops(db, worlds, k + 1, limits).1
    ensures AfterLoops(db, worlds, k, limits).0.clock.cost < AfterLoops(db, worlds, k, limits).0.policy.maxCost
    ensures AfterLoops(db, worlds, k, limits).0.clock.tokens < AfterLoops(db, worlds, k, limits).0.policy.maxTokens
    decreases k
  {
    hide Step;
    var (after, outcome) := Step(db, worlds[0], limits);
    assert outcome == Continue && AfterLoops(after, worlds[1..], k, limits).1;
    if k == 0 {
      GoesOnUnderCeilings(db, worlds[0], limits);
    } else {
      assert AfterLoops(db, worlds, k, limits) == AfterLoops(after, worlds[1..], k - 1, limits);
      OvershootIsOneLoop(after, worlds[1..], k - 1, limits);
    }
  }

  lemma GoesOnUnderCeilings(db: Db, w: World, limits: Stagnation.Limits)
    requires Step(db, w, limits).1 == Continue
    ensures db.clock.cost < db.policy.maxCost && db.clock.tokens < db.policy.maxTokens
  {
    assert Decide(db, w).1 == Continue by { hide Decide, PlanLoop, EmptyPlan, Work, Settle, ReportOf; }
    if RawBudget(db.policy, db.clock, w.now).Some? { DecideExactly(db, w); }
    hide RawBudget, WorkPressure, StopFor, GapLeft, CanMove, Refines, Append, Begin, Step;
  }

  // ---- the worker pass -----------------------------------------------------------------------------

  /** Where a pass ends the loop: stopped or crashed workers, a handoff that raises, a call for a human. Only a crash
      leaves a trace, of an error; a pass that goes through leaves a pending candidate, and spending is recorded always. */
  lemma {:induction false} PassExactly(db: Db, loopId: nat, w: World, target: string)
    requires Books(db) && TargetOpen(db, target)
    ensures
      var r := Work(db, loopId, w);
      var through := w.worker == Finished && TakenAll(Spent(db, w), loopId, w.handoffs).1;
      && r.db.clock == db.clock.(cost := w.cost, tokens := w.tokens)
      && (w.worker == SafetyStopped ==> r == WorkerHalted(db.(clock := r.db.clock), Stop(SAFETY_STOP)))
      && (w.worker != SafetyStopped && !through ==>
            && r.WorkerHalted? && r.outcome == Stop(ERROR)
            && r.db.traces == db.traces[loopId := Trace(loopId, None, false, [], [], Some(ERROR))])
      && (through ==>
            && r.db.traces == db.traces && r.db.streak == (if w.acceptedProposals > 0 then 0 else db.streak)
            && (w.requiresHuman <==> r.WorkerHalted?) && (r.WorkerHalted? ==> r.outcome == Stop(HUMAN_REQUIRED))
            && r.db.candidates == if w.requiresHuman then db.candidates else db.candidates["CAND-" + Decimal(loopId) := Pending])
  {
    var spent := Spent(db, w);
    Frame(db, spent);
    TargetFrame(db, spent, target);
    assert Books(spent);
    hide Books, TargetOpen, TakenAll, Kept, Append, Work, Proposed;
    TakenAllKept(spent, loopId, w.handoffs, target);
    PassStages(db, loopId, w);
  }

  lemma {:induction false} PassStages(db: Db, loopId: nat, w: World)
    requires OnlyRowsAndTxn(Spent(db, w), TakenAll(Spent(db, w), loopId, w.handoffs).0)
    ensures
      var r := Work(db, loopId, w);
      var through := w.worker == Finished && TakenAll(Spent(db, w), loopId, w.handoffs).1;
      && r.db.clock == db.clock.(cost := w.cost, tokens := w.tokens)
      && (w.worker == SafetyStopped ==> r == WorkerHalted(db.(clock := r.db.clock), Stop(SAFETY_STOP)))
      && (w.worker != SafetyStopped && !through ==>
            && r.WorkerHalted? && r.outcome == Stop(ERROR)
            && r.db.traces == db.traces[loopId := Trace(loopId, None, false, [], [], Some(ERROR))])
      && (through ==>
            && r.db.traces == db.traces && r.db.streak == (if w.acceptedProposals > 0 then 0 else db.streak)
            && (w.requiresHuman <==> r.WorkerHalted?) && (r.WorkerHalted? ==> r.outcome == Stop(HUMAN_REQUIRED))
            && r.db.candidates == if w.requiresHuman then db.candidates else db.candidates["CAND-" + Decimal(loopId) := Pending])
  {
    hide TakenAll, Append;
    var taken := TakenAll(Spent(db, w), loopId, w.handoffs).0;
    AppendFrame(taken, w.proposals);
    hide Append;
  }

  /** A blocker blocks the task's own item of that id unless it is closed, and changes nothing else. */
  lemma BlockerExactly(db: Db, loopId: int, id: string)
    requires Sound(db) && HasId(db.items, id)
    ensures
      var r := Taken(db, loopId, Blocker(id));
      && r.Some? && r.value == db.(items := r.value.items) && |r.value.items| == |db.items|
      && forall i :: 0 <= i < |db.items| ==>
           r.value.items[i] == if db.items[i].id == id && db.items[i].status != CLOSED
                               then db.items[i].(status := BLOCKED) else db.items[i]
  {
    var n :| 0 <= n < |db.items| && db.items[n].id == id;
    FoundIsOwn(db, id);
    assert Find(RowsOf(db), id) == Some(db.items[n]);
    hide Find, Clear, Agreed;
  }

  lemma {:induction false} ReplacedFinds(items: seq<HungerItem>, row: HungerItem, id: string)
    ensures Lookup(Replaced(items, row), id) ==
            if id == row.id && HasId(items, id) then Some(row) else Lookup(items, id)
  {
    if items != [] {
      var init, last := items[..|items| - 1], items[|items| - 1];
      assert items == init + [last];
      assert Replaced(items, row)[..|items| - 1] == Replaced(init, row);
      HasIdAppend(init, last, id);
      ReplacedFinds(init, row, id);
    }
  }

  /** A row written back is this task's own, in the ledger or beside it. Its id is found so, unless another task's row is
      still the newer one; every other id is found as before. */
  lemma RowWritesExactly(db: Db, row: HungerItem)
    ensures
      var after := WithRow(db, row);
      && after == db.(items := after.items, others := after.others, copies := after.copies)
      && (forall other :: other != row.id ==> Find(RowsOf(after), other) == Find(RowsOf(db), other))
      && Find(RowsOf(after), row.id)
         == (if row.id in db.others && (HasId(db.items, row.id) || row.id in db.copies) then Some(db.others[row.id]) else Some(row))
      && (if HasId(db.items, row.id) then Lookup(after.items, row.id) == Some(row)
          else after.items == db.items && row.id in after.copies && after.copies[row.id] == row)
  {
    LookupFacts(db.items, row.id);
    forall id ensures Lookup(Replaced(db.items, row), id) ==
                      if id == row.id && HasId(db.items, id) then Some(row) else Lookup(db.items, id)
    {
      ReplacedFinds(db.items, row, id);
    }
    assert !HasId(db.items, row.id) ==> Replaced(db.items, row) == db.items;
    hide Replaced, Lookup, HasId;
  }

  /** Whatever other tasks have written: a blocker raises on an unknown id, leaves a closed row, and writes any other row
      it finds back blocked, as `RowWritesExactly` says. */
  lemma BlockerWritesExactly(db: Db, loopId: int, id: string)
    requires Keyed(RowsOf(db))
    ensures
      var (r, found) := (Taken(db, loopId, Blocker(id)), Find(RowsOf(db), id));
      && (r.None? <==> !HasId(db.items, id) && id !in db.others && id !in db.copies)
      && (r.Some? ==> r.value == if found.value.status == CLOSED then db else WithRow(db, found.value.(status := BLOCKED)))
      && (r.Some? ==> found.value.id == id)
  {
    FindFacts(RowsOf(db), id);
    hide Find, Keyed, WithRow;
  }

  /** The trace auto-open looks at: of the traces before the loop, the latest with a candidate. */
  lemma {:induction false} PreviousTraceIsTheLatest(db: Db, loopId: nat)
    ensures var t := PreviousCandidateTrace(db, loopId);
            && (t.None? <==> forall l :: 0 <= l < loopId && l in db.traces ==> db.traces[l].candidateId == None)
            && (t.Some? ==> exists l :: 0 <= l < loopId && l in db.traces && t == Some(db.traces[l]) && t.value.candidateId != None
                              && forall m :: l < m < loopId && m in db.traces ==> db.traces[m].candidateId == None)
  {
    if loopId > 0 { PreviousTraceIsTheLatest(db, loopId - 1); }
  }

  // ---- the operator's commands -----------------------------------------------------------------------

  /** A frozen task stops at once, whatever it was at, and resuming undoes the freeze. */
  lemma FreezeStops(db: Db, w: World, limits: Stagnation.Limits)
    requires RawBudget(db.policy, db.clock, w.now).Some?
    ensures var frozen := AfterTurn(db, Freeze, limits);
            && Step(frozen, w, limits) == (frozen, Stop(HUMAN_PAUSED))
            && (!db.clock.frozen ==> AfterTurn(frozen, Resume, limits) == db)
            && !AfterTurn(frozen, Resume, limits).clock.frozen
  {
    hide Step, RawBudget, BaseSnapshot;
    var frozen := AfterTurn(db, Freeze, limits);
    FrozenBudget(db, frozen, w.now);
    DecideExactly(frozen, w);
    HaltedAtOnce(frozen, w, limits);
  }

  lemma HaltedAtOnce(db: Db, w: World, limits: Stagnation.Limits)
    requires Decide(db, w).1.Stop?
    ensures Step(db, w, limits) == Decide(db, w)
  {
    hide Decide, PlanLoop, EmptyPlan, Work, Orchestrator.Validate;
  }

  lemma FrozenBudget(a: Db, b: Db, now: real)
    requires b.policy == a.policy && b.clock == a.clock.(frozen := true)
    ensures RawBudget(b.policy, b.clock, now) == RawBudget(a.policy, a.clock, now)
  {
  }

  /** A refill gives back as many loops as asked for, or as were counted, and nothing else. */
  lemma RefillGivesBack(db: Db, loops: nat, limits: Stagnation.Limits)
    requires 0 <= db.clock.loopCount <= db.policy.decayDuration.Floor
    ensures var after := AfterTurn(db, Refill(loops), limits);
            && after == db.(clock := db.clock.(loopCount := after.clock.loopCount))
            && LoopsLeft(after) == LoopsLeft(db) + (if loops < db.clock.loopCount then loops else db.clock.loopCount)
  {
  }

  /** Unblocking opens blocked items with a clean count, so that each has all its failures before it again; other items stay. */
  lemma UnblockExactly(db: Db, id: string, limits: Stagnation.Limits)
    ensures
      var (one, all) := (AfterTurn(db, Unblock(id), limits), AfterTurn(db, UnblockAll, limits));
      && one == db.(items := one.items) && |one.items| == |db.items|
      && all == db.(items := all.items, streak := 0) && |all.items| == |db.items|
      && forall i :: 0 <= i < |db.items| ==>
           var (item, anew) := (db.items[i], db.items[i].(status := OPEN, failures := 0, lastProgressLoop := None));
           && one.items[i] == (if item.status == BLOCKED && item.id == id then anew else item)
           && all.items[i] == (if item.status == BLOCKED then anew else item)
  {
  }

  /** The flags of `run` change the loop budget, the completion mode, whether stagnation counts and the cost ceiling, each
      exactly if it is given. */
  lemma FlagsExactly(db: Db, loops: Option<int>, spend: bool, ignore: bool, ceiling: Option<real>, limits: Stagnation.Limits)
    ensures
      var (after, p) := (AfterTurn(db, Flags(loops, spend, ignore, ceiling), limits), db.policy);
      && after == db.(policy := after.policy)
      && after.policy == p.(decayType := if loops.Some? then LOOP_COUNT else p.decayType,
                            decayDuration := if loops.Some? then loops.value as real else p.decayDuration,
                            completionMode := if spend then SPEND_BUDGET else p.completionMode,
                            respectStagnation := p.respectStagnation && !ignore,
                            maxCost := if ceiling.Some? then ceiling.value else p.maxCost)
  {
  }
}
