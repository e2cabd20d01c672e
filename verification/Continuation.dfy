// loop_orchestrator._maybe_continue_rejected_candidate: carrying a rejected tree into the next loop.
module Continuation {
  import opened Domain
  import opened Repository
  import opened RefactorTransactions

  predicate SeededAt(e: Event, loopId: int) {
    e.ContinuationSeeded? && e.seededLoop == loopId
  }

  /** The last seeding event of a loop, as the event query returns it. */
  function LastSeed(events: seq<Event>, loopId: int): Option<Event> {
    if events == [] then None
    else if SeededAt(events[|events| - 1], loopId) then Some(events[|events| - 1])
    else LastSeed(events[..|events| - 1], loopId)
  }

  function ChainAt(events: seq<Event>, loopId: int): (c: int) {
    match LastSeed(events, loopId)
    case Some(e) => (match e case ContinuationSeeded(_, chain, _) => chain case _ => 0)
    case None => 0
  }

  function RegressedAt(events: seq<Event>, loopId: int): set<string> {
    match LastSeed(events, loopId)
    case Some(e) => (match e case ContinuationSeeded(_, _, keys) => keys case _ => {})
    case None => {}
  }

  function TraceAt(db: Db, loopId: int): Option<Trace> {
    if loopId in db.traces then Some(db.traces[loopId]) else None
  }

  predicate Eligible(db: Db, loopId: int, hasAssignments: bool) {
    var t := TraceAt(db, loopId - 1);
    hasAssignments && t.Some? && t.value.candidateId.Some? && !t.value.committed && t.value.stopReason.None?
  }

  function Repeated(db: Db, loopId: int): set<string>
    requires TraceAt(db, loopId - 1).Some?
  {
    RegressedAt(db.events, loopId - 1) * Elements(TraceAt(db, loopId - 1).value.regressed)
  }

  predicate CoversRepeats(db: Db, repeated: set<string>) {
    repeated != {} && db.policy.refactorEnabled && IsOpen(db) && repeated <= Elements(db.txn.value.declared)
  }

  function Skip(db: Db, loopId: int, sourceAvailable: bool): Option<SkipReason>
    requires TraceAt(db, loopId - 1).Some?
  {
    var repeated := Repeated(db, loopId);
    if !db.policy.continuationEnabled then Some(PolicyDisabled)
    else if repeated != {} && !CoversRepeats(db, repeated) then Some(RepeatedRegression)
    else if ChainAt(db.events, loopId - 1) + 1 > db.policy.continuationMaxChain then Some(MaxChainReached)
    else if !sourceAvailable then Some(SourceUnavailable)
    else None
  }

  /** The event appended, and whether the candidate was seeded. */
  function Continued(db: Db, loopId: int, hasAssignments: bool, sourceAvailable: bool): (Db, bool) {
    if !Eligible(db, loopId, hasAssignments) then (db, false)
    else
      var skip := Skip(db, loopId, sourceAvailable);
      if skip.None? then
        (db.(events := db.events
             + [ContinuationSeeded(loopId, ChainAt(db.events, loopId - 1) + 1,
                                   Elements(TraceAt(db, loopId - 1).value.regressed))]), true)
      else (db.(events := db.events + [ContinuationSkipped(loopId, skip.value)]), false)
  }

  // ---- what the log says -------------------------------------------------------------------

  predicate Seeded(events: seq<Event>, loopId: int) {
    LastSeed(events, loopId).Some?
  }

  /** How many loops in a row, ending at `loopId`, were seeded. */
  function RunLength(events: seq<Event>, loopId: nat): nat {
    if !Seeded(events, loopId) then 0
    else if loopId == 0 then 1
    else 1 + RunLength(events, loopId - 1)
  }

  /** Every seed lies within the loops begun so far and extends the chain of the loop before. */
  ghost predicate ChainsSound(db: Db) {
    && (forall i :: 0 <= i < |db.events| && db.events[i].ContinuationSeeded? ==> 1 <= db.events[i].seededLoop <= db.lastLoopId)
    && (forall l: int :: Seeded(db.events, l) ==>
          ChainAt(db.events, l) == ChainAt(db.events, l - 1) + 1 <= db.policy.continuationMaxChain)
  }

  lemma SeedFacts(db: Db, l: int)
    requires ChainsSound(db) && Seeded(db.events, l)
    ensures ChainAt(db.events, l) == ChainAt(db.events, l - 1) + 1 <= db.policy.continuationMaxChain
  {
  }

  lemma {:induction false} LastSeedFacts(events: seq<Event>, loopId: int)
    ensures Seeded(events, loopId) <==> exists i :: 0 <= i < |events| && SeededAt(events[i], loopId)
    ensures Seeded(events, loopId) ==> SeededAt(LastSeed(events, loopId).value, loopId)
  {
    if events != [] {
      LastSeedFacts(events[..|events| - 1], loopId);
      if i :| 0 <= i < |events| && SeededAt(events[i], loopId) && i < |events| - 1 {
        assert SeededAt(events[..|events| - 1][i], loopId);
      }
    }
  }

  /** Beginning loop `lastLoopId + 1` keeps the chains sound, seeded or not. */
  lemma ContinuedKeepsChains(db: Db, hasAssignments: bool, sourceAvailable: bool)
    requires ChainsSound(db)
    ensures var (after, _) := Continued(db, db.lastLoopId + 1, hasAssignments, sourceAvailable);
            ChainsSound(after.(lastLoopId := db.lastLoopId + 1))
  {
    var next := db.lastLoopId + 1;
    if Eligible(db, next, hasAssignments) {
      var skip := Skip(db, next, sourceAvailable);
      var e := if skip.None?
               then ContinuationSeeded(next, ChainAt(db.events, next - 1) + 1, Elements(TraceAt(db, next - 1).value.regressed))
               else ContinuationSkipped(next, skip.value);
      assert skip.None? ==> ChainAt(db.events, next - 1) + 1 <= db.policy.continuationMaxChain;
      hide ChainAt, ChainsSound, Skip, Elements, TraceAt, Eligible;
      EventKeepsChains(db, e);
    } else {
      NoEventKeepsChains(db);
    }
  }

  lemma NoEventKeepsChains(db: Db)
    requires ChainsSound(db)
    ensures ChainsSound(db.(lastLoopId := db.lastLoopId + 1))
  {
  }

  lemma EventKeepsChains(db: Db, e: Event)
    requires ChainsSound(db)
    requires e.ContinuationSeeded? ==> e.seededLoop == db.lastLoopId + 1
    requires e.ContinuationSeeded? ==> e.chainLength == ChainAt(db.events, db.lastLoopId) + 1 <= db.policy.continuationMaxChain
    ensures ChainsSound(db.(events := db.events + [e], lastLoopId := db.lastLoopId + 1))
  {
    var events := db.events + [e];
    NothingSeededYet(db, db.lastLoopId + 1);
    NothingSeededYet(db, db.lastLoopId + 2);
    forall l: int | Seeded(events, l)
      ensures ChainAt(events, l) == ChainAt(events, l - 1) + 1 <= db.policy.continuationMaxChain
    {
      OneMoreEvent(db.events, e, l);
      OneMoreEvent(db.events, e, l - 1);
      if Seeded(db.events, l) { SeedFacts(db, l); }
    }
  }

  lemma {:induction false} OneMoreEvent(events: seq<Event>, e: Event, loopId: int)
    ensures LastSeed(events + [e], loopId) == if SeededAt(e, loopId) then Some(e) else LastSeed(events, loopId)
  {
    assert (events + [e])[..|events|] == events;
  }

  lemma NothingSeededYet(db: Db, loopId: int)
    requires ChainsSound(db) && loopId > db.lastLoopId
    ensures !Seeded(db.events, loopId)
  {
    LastSeedFacts(db.events, loopId);
  }

  // ---- when a loop is seeded, read off the log ---------------------------------------------------

  /** The last seed event of the loop. */
  ghost predicate SeedOf(events: seq<Event>, loopId: int, chain: int, keys: set<string>) {
    exists i :: 0 <= i < |events| && events[i] == ContinuationSeeded(loopId, chain, keys)
                && forall j :: i < j < |events| ==> !(events[j].ContinuationSeeded? && events[j].seededLoop == loopId)
  }

  /** What the log says of the loop's place in a chain: that of its last seed event, or 0 if it has none. */
  ghost predicate ChainLogged(events: seq<Event>, loopId: int, chain: int) {
    || (exists keys :: SeedOf(events, loopId, chain, keys))
    || (chain == 0 && forall j :: 0 <= j < |events| ==> !(events[j].ContinuationSeeded? && events[j].seededLoop == loopId))
  }

  /** The loop was seeded with the key regressed, and its trace lists the key as regressed again. */
  ghost predicate CameBack(db: Db, loopId: int, k: string) {
    && (exists chain, keys :: SeedOf(db.events, loopId, chain, keys) && k in keys)
    && loopId in db.traces && k in db.traces[loopId].regressed
  }

  /** An open transaction under an enabling policy declares the key. */
  ghost predicate Sanctioned(db: Db, k: string) {
    db.policy.refactorEnabled && db.txn.Some? && db.txn.value.status == TxnOpen && k in db.txn.value.declared
  }

  lemma {:induction false} SeedOfLast(events: seq<Event>, loopId: int, chain: int, keys: set<string>)
    ensures SeedOf(events, loopId, chain, keys) <==> LastSeed(events, loopId) == Some(ContinuationSeeded(loopId, chain, keys))
  {
    if events != [] {
      var init, n := events[..|events| - 1], |events| - 1;
      SeedOfLast(init, loopId, chain, keys);
      assert forall j :: 0 <= j < n ==> events[j] == init[j];
      if SeededAt(events[n], loopId) {
        if events[n] == ContinuationSeeded(loopId, chain, keys) { assert SeedOf(events, loopId, chain, keys); }
      } else if SeedOf(init, loopId, chain, keys) {
        var i :| 0 <= i < n && init[i] == ContinuationSeeded(loopId, chain, keys)
                 && forall j :: i < j < n ==> !(init[j].ContinuationSeeded? && init[j].seededLoop == loopId);
        assert events[i] == init[i];
      }
    }
  }

  lemma LastSeedOf(events: seq<Event>, loopId: int) returns (chain: int, keys: set<string>)
    requires Seeded(events, loopId)
    ensures LastSeed(events, loopId) == Some(ContinuationSeeded(loopId, chain, keys)) && SeedOf(events, loopId, chain, keys)
  {
    LastSeedFacts(events, loopId);
    var e := LastSeed(events, loopId).value;
    chain, keys := e.chainLength, e.regressedKeys;
    SeedOfLast(events, loopId, chain, keys);
  }

  lemma ChainLoggedIs(events: seq<Event>, loopId: int, chain: int)
    ensures ChainLogged(events, loopId, chain) <==> chain == ChainAt(events, loopId)
  {
    LastSeedFacts(events, loopId);
    if Seeded(events, loopId) {
      var c, keys := LastSeedOf(events, loopId);
    }
    if keys :| SeedOf(events, loopId, chain, keys) { SeedOfLast(events, loopId, chain, keys); }
  }

  lemma CameBackIs(db: Db, loopId: int, k: string)
    requires TraceAt(db, loopId - 1).Some?
    ensures CameBack(db, loopId - 1, k) <==> k in Repeated(db, loopId)
  {
    if Seeded(db.events, loopId - 1) {
      var c, keys := LastSeedOf(db.events, loopId - 1);
    }
    var before := loopId - 1;
    if chain, keys :| SeedOf(db.events, before, chain, keys) && k in keys { SeedOfLast(db.events, before, chain, keys); }
  }

  /** The loop has work and the trace before it is of a candidate that was turned down. */
  ghost predicate MayCarryOn(db: Db, loopId: int, hasAssignments: bool) {
    && hasAssignments && loopId - 1 in db.traces
    && var t := db.traces[loopId - 1]; t.candidateId.Some? && !t.committed && t.stopReason.None?
  }

  /** A rejected candidate is carried on exactly if the policy allows it, every regression that came back is
      declared by an open transaction, the chain has room and the tree is there; the seed event says what it is
      carried on with, and otherwise an event says which of these is missing, the first in this order. */
  lemma SeedsExactly(db: Db, loopId: int, hasAssignments: bool, sourceAvailable: bool, chain: int)
    requires ChainLogged(db.events, loopId - 1, chain)
    ensures
      var (after, seeded) := Continued(db, loopId, hasAssignments, sourceAvailable);
      var allowed := db.policy.continuationEnabled;
      var clean := forall k :: CameBack(db, loopId - 1, k) ==> Sanctioned(db, k);
      var room := chain < db.policy.continuationMaxChain;
      && (!MayCarryOn(db, loopId, hasAssignments) ==> (after, seeded) == (db, false))
      && (MayCarryOn(db, loopId, hasAssignments) ==>
            && (seeded <==> allowed && clean && room && sourceAvailable)
            && after == db.(events := db.events + [
                 if seeded then ContinuationSeeded(loopId, chain + 1, Elements(db.traces[loopId - 1].regressed))
                 else ContinuationSkipped(loopId, if !allowed then PolicyDisabled else if !clean then RepeatedRegression
                                                  else if !room then MaxChainReached else SourceUnavailable)]))
  {
    ChainLoggedIs(db.events, loopId - 1, chain);
    if MayCarryOn(db, loopId, hasAssignments) {
      var repeated := Repeated(db, loopId);
      forall k ensures CameBack(db, loopId - 1, k) <==> k in repeated { CameBackIs(db, loopId, k); }
      hide ChainAt, ChainLogged, CameBack, Repeated;
      assert (forall k :: k in repeated ==> Sanctioned(db, k)) <==> repeated == {} || CoversRepeats(db, repeated);
    }
  }

  /** A repeated regression rides along only when an open transaction declares every repeated key. */
  lemma RepeatsAreSanctioned(db: Db, loopId: int, hasAssignments: bool, sourceAvailable: bool)
    requires Continued(db, loopId, hasAssignments, sourceAvailable).1
    ensures loopId - 1 in db.traces && !db.traces[loopId - 1].committed
    ensures forall k :: CameBack(db, loopId - 1, k) ==> Sanctioned(db, k)
  {
    ChainLoggedIs(db.events, loopId - 1, ChainAt(db.events, loopId - 1));
    SeedsExactly(db, loopId, hasAssignments, sourceAvailable, ChainAt(db.events, loopId - 1));
  }

  /** The recorded chain length is the number of consecutive seeded loops. */
  lemma {:induction false} ChainIsRunLength(db: Db, loopId: nat)
    requires ChainsSound(db)
    ensures ChainAt(db.events, loopId) == RunLength(db.events, loopId)
  {
    LastSeedFacts(db.events, loopId);
    LastSeedFacts(db.events, loopId - 1);
    if Seeded(db.events, loopId) && loopId > 0 {
      ChainIsRunLength(db, loopId - 1);
    }
  }

  /** Any `max + 1` consecutive loops include one that started from best. */
  lemma SomeLoopStartsFromBest(db: Db, first: nat)
    requires ChainsSound(db) && db.policy.continuationMaxChain >= 0
    ensures exists l :: first <= l <= first + db.policy.continuationMaxChain && !Seeded(db.events, l)
  {
    var last := first + db.policy.continuationMaxChain;
    if forall l :: first <= l <= last ==> Seeded(db.events, l) {
      LongRun(db.events, first, last);
      ChainIsRunLength(db, last);
      assert Seeded(db.events, last);
      SeedFacts(db, last);
      assert false;
    }
  }

  lemma {:induction false} LongRun(events: seq<Event>, first: nat, last: nat)
    requires first <= last && forall l :: first <= l <= last ==> Seeded(events, l)
    ensures RunLength(events, last) >= last - first + 1
    decreases last
  {
    if first < last { LongRun(events, first, last - 1); }
  }
}
