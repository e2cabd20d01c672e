// stagnation_detector.StagnationDetector.update
module Stagnation {
  import opened Domain
  import opened CheckKeys
  import opened Repository
  import opened RefactorTransactions

  datatype Limits = Limits(maxItemFailures: int, maxNoProgress: int)

  predicate Progressed(rep: Report, committed: bool, id: string) {
    committed && exists k :: k in rep.newly && ItemIdOf(k) == id
  }

  function RegressedOf(rep: Report, id: string): set<string> {
    set k | k in rep.regressed && ItemIdOf(k) == id
  }

  /** Every regressed key of the item is declared by the active transaction. */
  predicate Exempted(rep: Report, active: Option<Transaction>, id: string) {
    && active.Some? && active.value.declared != []
    && RegressedOf(rep, id) != {} && RegressedOf(rep, id) <= Elements(active.value.declared)
  }

  function Judge(item: HungerItem, rep: Report, committed: bool, active: Option<Transaction>, loopId: int,
                 policy: Policy, limits: Limits): HungerItem
  {
    if item.id !in rep.attempted || item.status in {CLOSED, VALIDATED_SATISFIED} then item
    else
      var judged :=
        if Progressed(rep, committed, item.id) then item.(failures := 0, lastProgressLoop := Some(loopId))
        else if Exempted(rep, active, item.id) then item
        else item.(failures := item.failures + 1);
      if policy.respectStagnation && judged.failures >= limits.maxItemFailures
      then judged.(status := BLOCKED) else judged
  }

  function Judged(db: Db, rep: Report, committed: bool, active: Option<Transaction>, loopId: int, limits: Limits)
    : seq<HungerItem>
  {
    seq(|db.items|, i requires 0 <= i < |db.items| =>
      Judge(db.items[i], rep, committed, active, loopId, db.policy, limits))
  }

  /** The database afterwards, and whether the global fuse blew. */
  function Updated(db: Db, rep: Report, committed: bool, active: Option<Transaction>, loopId: int, limits: Limits)
    : (Db, bool)
  {
    var streak := if committed && rep.hasRealProgress then 0 else db.streak + 1;
    (db.(items := Judged(db, rep, committed, active, loopId, limits), streak := streak),
     !(committed && rep.hasRealProgress) && db.policy.respectStagnation && streak >= limits.maxNoProgress)
  }

  /** Stagnation never touches a gap, an id, or an item that was not attempted; and it can
      block an item but not reopen one. */
  lemma JudgeKeepsGaps(item: HungerItem, rep: Report, committed: bool, active: Option<Transaction>, loopId: int,
                       policy: Policy, limits: Limits)
    ensures var after := Judge(item, rep, committed, active, loopId, policy, limits);
            && after.gapScore == item.gapScore && after.id == item.id && after.checks == item.checks
            && after.mode == item.mode
            && (after.status == item.status || after.status == BLOCKED)
            && (item.status in {CLOSED, VALIDATED_SATISFIED} ==> after == item)
            && (item.id !in rep.attempted ==> after == item)
  {
  }

  /** A committed report newly passes a check of the item. */
  ghost predicate Gained(rep: Report, committed: bool, id: string) {
    committed && exists k :: k in rep.newly && ItemIdOf(k) == id
  }

  /** Checks of the item regressed, and every one of them was declared. */
  ghost predicate Declared(rep: Report, active: Option<Transaction>, id: string) {
    && (exists k :: k in rep.regressed && ItemIdOf(k) == id)
    && active.Some? && forall k :: k in rep.regressed && ItemIdOf(k) == id ==> k in active.value.declared
  }

  lemma FuseRules(rep: Report, committed: bool, active: Option<Transaction>, id: string)
    ensures Progressed(rep, committed, id) <==> Gained(rep, committed, id)
    ensures Exempted(rep, active, id) <==> Declared(rep, active, id)
  {
    if k :| k in rep.regressed && ItemIdOf(k) == id { assert k in RegressedOf(rep, id); }
    if active.Some? && RegressedOf(rep, id) <= Elements(active.value.declared) {
      forall k | k in rep.regressed && ItemIdOf(k) == id ensures k in active.value.declared { assert k in RegressedOf(rep, id); }
    }
  }

  /** What a loop does to an item: it counts a failure against an open item it attempted, unless a check of the item
      was gained or all its regressions were declared; gaining one starts the count anew, and reaching the limit blocks. */
  lemma JudgedExactly(item: HungerItem, rep: Report, committed: bool, active: Option<Transaction>, loopId: int,
                      policy: Policy, limits: Limits)
    ensures
      var after := Judge(item, rep, committed, active, loopId, policy, limits);
      var tried := item.id in rep.attempted && item.status !in {CLOSED, VALIDATED_SATISFIED};
      var gained, declared := Gained(rep, committed, item.id), Declared(rep, active, item.id);
      && after.failures == (if !tried || (!gained && declared) then item.failures else if gained then 0 else item.failures + 1)
      && after.lastProgressLoop == (if tried && gained then Some(loopId) else item.lastProgressLoop)
      && after.status == (if tried && policy.respectStagnation && after.failures >= limits.maxItemFailures then BLOCKED else item.status)
      && after == item.(failures := after.failures, lastProgressLoop := after.lastProgressLoop, status := after.status)
  {
    FuseRules(rep, committed, active, item.id);
    hide Progressed, Exempted, Gained, Declared;
  }

  /** What one loop reported on. */
  datatype Attempt = Attempt(rep: Report, committed: bool, active: Option<Transaction>, loopId: int)

  function AfterAttempts(item: HungerItem, attempts: seq<Attempt>, policy: Policy, limits: Limits): HungerItem {
    if attempts == [] then item
    else
      var last := attempts[|attempts| - 1];
      Judge(AfterAttempts(item, attempts[..|attempts| - 1], policy, limits), last.rep, last.committed, last.active,
            last.loopId, policy, limits)
  }

  /** The loop tried the item, moved none of its checks, and no transaction excuses it. */
  ghost predicate Fruitless(id: string, a: Attempt) {
    id in a.rep.attempted && !Gained(a.rep, a.committed, id) && !Declared(a.rep, a.active, id)
  }

  /** The item fuse, over any row of fruitless loops: every one is counted, and the item is blocked
      exactly from the loop that reaches the limit on, and never where stagnation is ignored. */
  lemma {:induction false} BlockedExactlyAtTheLimit(item: HungerItem, attempts: seq<Attempt>, policy: Policy, limits: Limits)
    requires item.status in {OPEN, WORKING, PAUSED} && forall i :: 0 <= i < |attempts| ==> Fruitless(item.id, attempts[i])
    ensures var after := AfterAttempts(item, attempts, policy, limits);
            && after.failures == item.failures + |attempts| && after.id == item.id
            && (after.status == BLOCKED <==>
                  policy.respectStagnation && attempts != [] && item.failures + |attempts| >= limits.maxItemFailures)
            && (after.status == BLOCKED || after.status == item.status)
  {
    if attempts != [] {
      BlockedExactlyAtTheLimit(item, attempts[..|attempts| - 1], policy, limits);
      var last := attempts[|attempts| - 1];
      assert Fruitless(item.id, last);
      FuseRules(last.rep, last.committed, last.active, item.id);
      hide Progressed, Exempted, Gained, Declared;
    }
  }

  function AfterLoops(db: Db, attempts: seq<Attempt>, limits: Limits): Db {
    if attempts == [] then db
    else
      var last := attempts[|attempts| - 1];
      Updated(AfterLoops(db, attempts[..|attempts| - 1], limits), last.rep, last.committed, last.active, last.loopId, limits).0
  }

  predicate CommittedProgress(a: Attempt) {
    a.committed && a.rep.hasRealProgress
  }

  /** The global fuse, over any loops: the streak counts the loops since the last committed
      progress, and the next loop blows the fuse exactly when it brings none and completes the limit. */
  lemma {:induction false} GlobalFuse(db: Db, attempts: seq<Attempt>, since: nat, next: Attempt, limits: Limits)
    requires since <= |attempts| && (since > 0 ==> CommittedProgress(attempts[since - 1]))
    requires forall i :: since <= i < |attempts| ==> !CommittedProgress(attempts[i])
    requires since == 0 ==> db.streak == 0
    ensures var now := AfterLoops(db, attempts, limits);
            && now.streak == |attempts| - since && now.policy == db.policy
            && (Updated(now, next.rep, next.committed, next.active, next.loopId, limits).1 <==>
                  !CommittedProgress(next) && db.policy.respectStagnation && |attempts| - since + 1 >= limits.maxNoProgress)
  {
    if since < |attempts| {
      assert !CommittedProgress(attempts[|attempts| - 1]);
      GlobalFuse(db, attempts[..|attempts| - 1], since, next, limits);
    } else if attempts != [] {
      PolicyStays(db, attempts, limits);
    }
  }

  lemma {:induction false} PolicyStays(db: Db, attempts: seq<Attempt>, limits: Limits)
    ensures AfterLoops(db, attempts, limits).policy == db.policy
  {
    if attempts != [] { PolicyStays(db, attempts[..|attempts| - 1], limits); }
  }
}
