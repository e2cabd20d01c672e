// refactor_transaction_manager: the bounded exception to I-3, as repository transitions.
module RefactorTransactions {
  import opened Domain
  import opened Ordering
  import opened Repository

  predicate IsOpen(db: Db) {
    db.txn.Some? && db.txn.value.status == TxnOpen
  }

  /** `get_active_transaction` */
  function ActiveOf(db: Db): Option<Transaction> {
    if db.policy.refactorEnabled && IsOpen(db) then db.txn else None
  }

  predicate CanOpen(db: Db, declared: seq<string>) {
    && db.policy.refactorEnabled && db.policy.refactorDeadlineLoops > 0 && !IsOpen(db)
    && declared != [] && |Elements(declared)| == |declared| && |declared| <= db.policy.maxDeclared
    && db.best.Some? && Elements(declared) <= db.best.value.accepted
  }

  /** `open`, with a snapshot that succeeds or fails with `filesOk`. */
  function OpenTxn(db: Db, loopId: int, declared: seq<string>, filesOk: bool): Db {
    if CanOpen(db, declared) && filesOk
    then db.(txn := Some(Transaction(true, TxnOpen, declared, db.best.value, loopId + db.policy.refactorDeadlineLoops)))
    else db
  }

  function WithStatus(db: Db, status: TxnStatus): Db
    requires db.txn.Some?
  {
    db.(txn := Some(db.txn.value.(status := status)))
  }

  /** `close`: success needs the declared keys back and a strict superset of the baseline;
      anything else restores the baseline row (unless restoring the files fails). */
  function CloseTxn(db: Db, restoreOk: bool): Db {
    if !db.policy.refactorEnabled || !IsOpen(db) then db
    else
      var t := db.txn.value;
      if db.best.Some? && Elements(t.declared) <= db.best.value.accepted && t.baseline.accepted < db.best.value.accepted
      then WithStatus(db, ClosedSuccess)
      else if restoreOk then WithStatus(db, RolledBack).(best := Some(t.baseline))
      else db
  }

  /** `settle_if_due` */
  function SettleIfDue(db: Db, loopId: int, restoreOk: bool): Db {
    if db.policy.refactorEnabled && IsOpen(db) && loopId >= db.txn.value.deadlineLoop then CloseTxn(db, restoreOk) else db
  }

  const AUTO_OPEN_NET_RATIO := 3

  /** `_auto_open_declared_keys` */
  function AutoOpenKeys(policy: Policy, rep: Report, previous: Option<Trace>): Option<seq<string>> {
    var regressed := Elements(rep.regressed);
    var newly := |Elements(rep.newly)|;
    if !(policy.refactorEnabled && policy.autoOpenEnabled) then None
    else if regressed == {} || |regressed| > policy.maxDeclared then None
    else if previous.None? || previous.value.committed then None
    else if !(regressed <= Elements(previous.value.regressed)) then None
    else if newly < policy.autoOpenMinNewly || newly < AUTO_OPEN_NET_RATIO * |regressed| then None
    else Some(Sort(StrLe, Dedup(rep.regressed)))
  }

  /** A transaction opens exactly on one to `maxDeclared` different accepted keys, with none open, a deadline to give
      and a snapshot taken; it remembers the best row, and is due that many loops later. */
  lemma OpensExactly(db: Db, loopId: int, declared: seq<string>, filesOk: bool)
    requires !IsOpen(db)
    ensures
      var after := OpenTxn(db, loopId, declared, filesOk);
      && (IsOpen(after) <==>
            && db.policy.refactorEnabled && db.policy.refactorDeadlineLoops > 0 && filesOk
            && 0 < |declared| <= db.policy.maxDeclared && Distinct(declared)
            && db.best.Some? && forall k :: k in declared ==> k in db.best.value.accepted)
      && (IsOpen(after) ==>
            && after == db.(txn := after.txn) && after.txn.value.declared == declared && after.txn.value.sameTask
            && Some(after.txn.value.baseline) == db.best
            && after.txn.value.deadlineLoop == loopId + db.policy.refactorDeadlineLoops)
      && (!IsOpen(after) ==> after == db)
  {
    DistinctIffFull(declared);
  }

  lemma OpensNoSecond(db: Db, loopId: int, declared: seq<string>, filesOk: bool)
    requires IsOpen(db)
    ensures OpenTxn(db, loopId, declared, filesOk) == db
  {
  }

  lemma {:induction false} DistinctIffFull(s: seq<string>)
    ensures |Elements(s)| <= |s| && (|Elements(s)| == |s| <==> Distinct(s))
  {
    if s != [] {
      var init, last := s[..|s| - 1], s[|s| - 1];
      DistinctIffFull(init);
      assert s == init + [last];
      assert Elements(s) == Elements(init) + {last};
      if last in init {
        assert Elements(s) == Elements(init);
        assert !Distinct(s);
      } else {
        assert Distinct(s) <==> Distinct(init);
      }
    }
  }

  /** An open transaction closes with success exactly if every declared key is back and best holds all of the
      baseline and more; otherwise the baseline comes back with the files, and without them it stays open. */
  lemma ClosesExactly(db: Db, restoreOk: bool)
    requires IsOpen(db) && db.policy.refactorEnabled
    ensures
      var (after, t) := (CloseTxn(db, restoreOk), db.txn.value);
      var earned := && db.best.Some? && db.best.value.accepted != t.baseline.accepted
                    && (forall k :: k in t.declared || k in t.baseline.accepted ==> k in db.best.value.accepted);
      && (after.txn == Some(t.(status := ClosedSuccess)) <==> earned)
      && (after.txn == Some(t.(status := RolledBack)) <==> !earned && restoreOk)
      && (IsOpen(after) <==> !earned && !restoreOk)
      && after.best == if earned || !restoreOk then db.best else Some(t.baseline)
  {
    if db.best.Some? {
      var now := db.best.value.accepted;
      assert db.txn.value.baseline.accepted < now <==>
             now != db.txn.value.baseline.accepted && forall k :: k in db.txn.value.baseline.accepted ==> k in now;
    }
  }

  /** From the deadline on a loop that ends closes the transaction, and none before. */
  lemma SettlesExactly(db: Db, loopId: int, restoreOk: bool)
    ensures SettleIfDue(db, loopId, restoreOk) ==
            if IsOpen(db) && loopId < db.txn.value.deadlineLoop then db else CloseTxn(db, restoreOk)
  {
    if db.policy.refactorEnabled && IsOpen(db) { hide CloseTxn; }
  }

  /** The trigger, spelled out: at most `maxDeclared` keys regressed, each of them in the rejected trace before too, and
      at least three checks and the policy's floor newly pass for them. What it asks for are those keys, in order. */
  lemma AutoOpensExactly(policy: Policy, rep: Report, previous: Option<Trace>)
    ensures
      var keys := AutoOpenKeys(policy, rep, previous);
      var (lost, gained) := (|Elements(rep.regressed)|, |Elements(rep.newly)|);
      && (keys.Some? <==>
            && policy.refactorEnabled && policy.autoOpenEnabled && 1 <= lost <= policy.maxDeclared
            && previous.Some? && !previous.value.committed
            && (forall k :: k in rep.regressed ==> k in previous.value.regressed)
            && gained >= policy.autoOpenMinNewly && gained >= 3 * lost)
      && (keys.Some? ==>
            && Elements(keys.value) == Elements(rep.regressed) && |keys.value| == lost
            && Sorted(StrLe, keys.value))
  {
    if previous.Some? {
      SubsetByMember(rep.regressed, previous.value.regressed);
    }
    var keys := AutoOpenKeys(policy, rep, previous);
    if keys.Some? {
      var once := Dedup(rep.regressed);
      DedupFacts(rep.regressed);
      StrLeIsOrder();
      SortSorts(StrLe, once);
      SortMembers(StrLe, once);
      DistinctIffFull(once);
      assert Elements(once) == Elements(rep.regressed);
      assert Elements(keys.value) == Elements(once);
    }
  }

  lemma SubsetByMember(a: seq<string>, b: seq<string>)
    ensures Elements(a) <= Elements(b) <==> forall k :: k in a ==> k in b
  {
    if Elements(a) <= Elements(b) {
      forall k | k in a ensures k in b { assert k in Elements(a); }
    }
  }

  lemma StrLeIsOrder()
    ensures TotalPreorder(StrLe)
  {
    forall a, b ensures StrLe(a, b) || StrLe(b, a) { StrLeTotal(a, b); }
    forall a, b, c | StrLe(a, b) && StrLe(b, c) ensures StrLe(a, c) { StrLeTransitive(a, b, c); }
  }

  /** The orchestrator hands over the report with its newly passed keys already cleared, so the
      trigger can never fire, whatever regressed and whatever the previous trace says. */
  lemma AutoOpenNeverFires(policy: Policy, rep: Report, previous: Option<Trace>)
    requires rep.newly == []
    ensures AutoOpenKeys(policy, rep, previous) == None
  {
    assert Elements(rep.newly) == {};
    assert Elements(rep.regressed) != {} ==> |Elements(rep.regressed)| > 0;
  }

  /** While a transaction is open, best has only grown since the baseline, and is the very
      baseline row as long as it has not. */
  ghost predicate TxnSound(db: Db) {
    IsOpen(db) ==>
      && db.best.Some?
      && Elements(db.txn.value.declared) <= db.txn.value.baseline.accepted
      && db.txn.value.baseline.accepted <= db.best.value.accepted
      && (db.txn.value.baseline.accepted == db.best.value.accepted ==> db.best.value == db.txn.value.baseline)
  }

  /** Settlement of a sound transaction never changes best: a success keeps it, and a
      rollback restores the row that is already there. */
  lemma SettlementKeepsBest(db: Db, restoreOk: bool)
    requires TxnSound(db)
    ensures CloseTxn(db, restoreOk).best == db.best && TxnSound(CloseTxn(db, restoreOk))
    ensures CloseTxn(db, restoreOk) == db.(txn := CloseTxn(db, restoreOk).txn)
  {
    if IsOpen(db) {
      var t, accepted := db.txn.value, db.best.value.accepted;
      SubsetIsTransitive(Elements(t.declared), t.baseline.accepted, accepted);
      if !(t.baseline.accepted < accepted) { assert db.best == Some(t.baseline); }
    }
  }

  /** Settlement writes the transaction and the best row and nothing else. */
  lemma CloseFrame(db: Db, restoreOk: bool)
    ensures CloseTxn(db, restoreOk) == db.(txn := CloseTxn(db, restoreOk).txn, best := CloseTxn(db, restoreOk).best)
  {
    var after := CloseTxn(db, restoreOk);
    if db.policy.refactorEnabled && IsOpen(db) {
      assert after == WithStatus(db, ClosedSuccess) || after == WithStatus(db, RolledBack).(best := Some(db.txn.value.baseline))
             || after == db;
      hide CloseTxn;
    }
  }

  lemma SubsetIsTransitive(a: set<string>, b: set<string>, c: set<string>)
    requires a <= b <= c
    ensures a <= c && (b < c || b == c)
  {
  }

  lemma OpenIsSound(db: Db, loopId: int, declared: seq<string>, filesOk: bool)
    requires TxnSound(db)
    ensures TxnSound(OpenTxn(db, loopId, declared, filesOk))
    ensures OpenTxn(db, loopId, declared, filesOk) == db.(txn := OpenTxn(db, loopId, declared, filesOk).txn)
  {
  }
}
