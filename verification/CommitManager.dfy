// commit_manager.CommitManager: check-level promotion (invariant I-3) in one transaction.
module CommitManager {
  import opened Domain
  import opened CheckKeys
  import opened Ordering
  import opened Repository

  datatype Reason =
    CheckProgress | MissionStateRegenerationFailed | VerdictFail | NoNewCheckProgress
    | RegressedChecksDetected | MissingEvidence | Unknown

  datatype Decision = Decided(committed: bool, reason: Reason, verdict: Verdict) | Raised

  /** What the file-system side of a commit does. */
  datatype Files = FilesOk | PromoteRaises | RegenerateRaises | ManifestRaises

  // ---- the gate (expressions in the source) ---------------------------------------------

  predicate ActiveTransaction(policy: Policy, txn: Option<Transaction>) {
    txn.Some? && txn.value.status == TxnOpen && txn.value.sameTask && policy.refactorEnabled
  }

  predicate Undeclared(rep: Report, policy: Policy, txn: Option<Transaction>) {
    rep.regressed != []
    && (!ActiveTransaction(policy, txn) || Elements(rep.regressed) - Elements(txn.value.declared) != {})
  }

  predicate CanCommit(rep: Report, policy: Policy, txn: Option<Transaction>) {
    rep.verdict in {PASS, PARTIAL} && rep.newly != [] && !rep.missingEvidence && !Undeclared(rep, policy, txn)
  }

  function RejectReason(rep: Report, policy: Policy, txn: Option<Transaction>): Reason {
    if rep.verdict == FAIL then VerdictFail
    else if rep.newly == [] then NoNewCheckProgress
    else if Undeclared(rep, policy, txn) then RegressedChecksDetected
    else if rep.missingEvidence then MissingEvidence
    else Unknown
  }

  // ---- specification -------------------------------------------------------------------------

  function BestFor(cand: Candidate, rep: Report): BestState {
    BestState(cand.id, rep.evidenceIds, rep.id, cand.loopId, rep.current)
  }

  function EvidenceFor(results: seq<CheckResult>, key: string): Option<string> {
    if results == [] then None
    else if results[|results| - 1].key == key then results[|results| - 1].evidence
    else EvidenceFor(results[..|results| - 1], key)
  }

  function RowFor(cand: Candidate, rep: Report, key: string): AcceptedRow {
    AcceptedRow(ItemIdOf(key), IndexPart(key), cand.loopId, rep.id, EvidenceFor(rep.results, key))
  }

  function RowsFor(cand: Candidate, rep: Report, keys: seq<string>): map<string, AcceptedRow> {
    map k | k in keys :: RowFor(cand, rep, k)
  }

  predicate WorkerMade(items: seq<HungerItem>, key: string) {
    var item := Lookup(items, ItemIdOf(key));
    item.Some? && item.value.generatedBy.Some? && "worker:" <= item.value.generatedBy.value
  }

  function CreditFor(items: seq<HungerItem>, key: string, loop: int): Event
    requires WorkerMade(items, key)
  {
    DiscoveryCredit(Lookup(items, ItemIdOf(key)).value.generatedBy.value[7..], key, loop)
  }

  /** One credit per first-time key of a worker-made item. */
  function Credits(items: seq<HungerItem>, newly: seq<string>, preAccepted: set<string>, loop: int): seq<Event> {
    if newly == [] then []
    else
      var init, key := newly[..|newly| - 1], newly[|newly| - 1];
      Credits(items, init, preAccepted, loop)
      + if key !in init && key !in preAccepted && WorkerMade(items, key) then [CreditFor(items, key, loop)] else []
  }

  predicate FeaturesCanFinish(features: map<string, FeatureStatus>, ids: seq<string>) {
    forall id :: id in ids ==> id in features && features[id] != FeatureBlocked
  }

  function FinishFeatures(features: map<string, FeatureStatus>, ids: seq<string>): map<string, FeatureStatus> {
    features + map id | id in ids :: FeatureDone
  }

  function CommittedDb(db: Db, cand: Candidate, rep: Report, completed: seq<string>): Db {
    db.(best := Some(BestFor(cand, rep)),
        candidates := SetStatus(db.candidates, cand.id, Committed),
        accepted := db.accepted + RowsFor(cand, rep, rep.newly),
        events := db.events + Credits(db.items, rep.newly, db.accepted.Keys, cand.loopId),
        features := FinishFeatures(db.features, completed))
  }

  function RejectedDb(db: Db, cand: Candidate): Db {
    db.(candidates := SetStatus(db.candidates, cand.id, Rejected))
  }

  /** An exception that is not a failed regeneration leaves the method after the rollback. */
  predicate CommitRaises(db: Db, rep: Report, completed: seq<string>, files: Files) {
    || files == PromoteRaises
    || (exists k :: k in rep.newly && !Parses(k))
    || !FeaturesCanFinish(db.features, completed)
    || (db.hasMission && files == ManifestRaises)
  }

  function Applied(db: Db, cand: Candidate, rep: Report, completed: seq<string>,
                   txn: Option<Transaction>, files: Files): (Db, Decision)
  {
    if !CanCommit(rep, db.policy, txn) then
      (RejectedDb(db, cand), Decided(false, RejectReason(rep, db.policy, txn), rep.verdict))
    else if CommitRaises(db, rep, completed, files) then (db, Raised)
    else if db.hasMission && files == RegenerateRaises then
      (RejectedDb(db, cand).(events := db.events + [RegenerationFailed(cand.id, cand.loopId)]),
       Decided(false, MissionStateRegenerationFailed, FAIL))
    else (CommittedDb(db, cand, rep, completed), Decided(true, CheckProgress, rep.verdict))
  }

  /** `promote_candidate_to_best` is a rename on disk: no rollback undoes it. */
  function TreeAfter(tree: Option<string>, db: Db, cand: Candidate, rep: Report, txn: Option<Transaction>, files: Files)
    : Option<string>
  {
    if CanCommit(rep, db.policy, txn) && files != PromoteRaises then Some(cand.id) else tree
  }

  // ---- the code ----------------------------------------------------------------------------------

  lemma RowsForOneMore(base: map<string, AcceptedRow>, cand: Candidate, rep: Report, keys: seq<string>, key: string)
    ensures base + RowsFor(cand, rep, keys + [key]) ==
            (base + RowsFor(cand, rep, keys))[key := RowFor(cand, rep, key)]
  {
  }

  lemma FinishOneMore(base: map<string, FeatureStatus>, ids: seq<string>, id: string)
    ensures FinishFeatures(base, ids + [id]) == FinishFeatures(base, ids)[id := FeatureDone]
  {
  }

  class Workspace {
    /** The candidate whose files are live under best/files. */
    var bestTree: Option<string>

    constructor (tree: Option<string>)
      ensures bestTree == tree
    {
      bestTree := tree;
    }
  }

  class Manager {
    const repo: SQLiteRepository
    const workspace: Workspace

    constructor (repo: SQLiteRepository, workspace: Workspace)
      ensures this.repo == repo && this.workspace == workspace
    {
      this.repo := repo;
      this.workspace := workspace;
    }

    /** `_emit_discovery_credits` */
    method EmitDiscoveryCredits(loop: int, newly: seq<string>, preAccepted: set<string>)
      modifies repo`db
      ensures repo.db == old(repo.db).(events := old(repo.db.events)
                                       + Credits(old(repo.db.items), newly, preAccepted, loop))
    {
      var items := repo.db.items;
      var seen: set<string> := {};
      for i := 0 to |newly|
        invariant seen == Elements(newly[..i])
        invariant repo.db == old(repo.db).(events := old(repo.db.events)
                                           + Credits(items, newly[..i], preAccepted, loop))
      {
        var key := newly[i];
        assert newly[..i + 1][..i] == newly[..i] && newly[..i + 1] == newly[..i] + [key];
        if key in seen { continue; }
        seen := seen + {key};
        if key in preAccepted { continue; }
        if !WorkerMade(items, key) { continue; }
        repo.db := repo.db.(events := repo.db.events + [CreditFor(items, key, loop)]);
      }
      assert newly[..|newly|] == newly;
    }

    /** The accepted-check rows; a malformed key raises. */
    method SaveAcceptedChecks(cand: Candidate, rep: Report) returns (ok: bool)
      modifies repo`db
      ensures ok == forall k :: k in rep.newly ==> Parses(k)
      ensures ok ==> repo.db == old(repo.db).(accepted := old(repo.db.accepted) + RowsFor(cand, rep, rep.newly))
    {
      ghost var before := repo.db;
      for i := 0 to |rep.newly|
        invariant forall k :: k in rep.newly[..i] ==> Parses(k)
        invariant repo.db == before.(accepted := before.accepted + RowsFor(cand, rep, rep.newly[..i]))
      {
        var key := rep.newly[i];
        assert rep.newly[..i + 1] == rep.newly[..i] + [key];
        if !Parses(key) { return false; }
        RowsForOneMore(before.accepted, cand, rep, rep.newly[..i], key);
        repo.db := repo.db.(accepted := repo.db.accepted[key := RowFor(cand, rep, key)]);
      }
      assert rep.newly[..|rep.newly|] == rep.newly;
      return true;
    }

    /** `update_feature_status(id, "done")` for every completed feature; unknown or blocked ones raise. */
    method FinishAll(completed: seq<string>) returns (ok: bool)
      modifies repo`db
      ensures ok == FeaturesCanFinish(old(repo.db.features), completed)
      ensures ok ==> repo.db == old(repo.db).(features := FinishFeatures(old(repo.db.features), completed))
    {
      var ids := Dedup(completed);
      DedupFacts(completed);
      ghost var before := repo.db;
      for i := 0 to |ids|
        invariant FeaturesCanFinish(before.features, ids[..i])
        invariant repo.db == before.(features := FinishFeatures(before.features, ids[..i]))
      {
        assert ids[..i + 1] == ids[..i] + [ids[i]] && ids[i] !in ids[..i] && ids[i] in completed;
        if ids[i] !in repo.db.features || repo.db.features[ids[i]] == FeatureBlocked { return false; }
        FinishOneMore(before.features, ids[..i], ids[i]);
        repo.db := repo.db.(features := repo.db.features[ids[i] := FeatureDone]);
      }
      assert ids[..|ids|] == ids;
      assert FinishFeatures(before.features, ids) == FinishFeatures(before.features, completed);
      return true;
    }

    /** The statements inside the commit transaction; `Raised` is any exception but a failed regeneration. */
    method CommitBody(cand: Candidate, rep: Report, completed: seq<string>, files: Files)
      returns (raised: bool, regenerationFailed: bool)
      modifies repo`db, workspace
      ensures raised == CommitRaises(old(repo.db), rep, completed, files)
      ensures regenerationFailed == (!raised && old(repo.db.hasMission) && files == RegenerateRaises)
      ensures !raised ==> repo.db == CommittedDb(old(repo.db), cand, rep, completed)
      ensures workspace.bestTree == if files == PromoteRaises then old(workspace.bestTree) else Some(cand.id)
    {
      var preAccepted := repo.db.accepted.Keys;
      if files == PromoteRaises { return true, false; }
      workspace.bestTree := Some(cand.id);
      repo.db := repo.db.(best := Some(BestFor(cand, rep)));
      repo.db := repo.db.(candidates := SetStatus(repo.db.candidates, cand.id, Committed));
      var saved := SaveAcceptedChecks(cand, rep);
      if !saved { return true, false; }
      EmitDiscoveryCredits(cand.loopId, rep.newly, preAccepted);
      var finished := FinishAll(completed);
      if !finished { return true, false; }
      if repo.db.hasMission {
        if files == RegenerateRaises { return false, true; }
        if files == ManifestRaises { return true, false; }
      }
      return false, false;
    }

    /** `CommitManager.apply` */
    method Apply(cand: Candidate, rep: Report, completed: seq<string>, txn: Option<Transaction>, files: Files)
      returns (decision: Decision)
      requires repo.txDepth == 0
      modifies repo, workspace
      ensures repo.txDepth == 0
      ensures (repo.db, decision) == Applied(old(repo.db), cand, rep, completed, txn, files)
      ensures workspace.bestTree == TreeAfter(old(workspace.bestTree), old(repo.db), cand, rep, txn, files)
    {
      if CanCommit(rep, repo.db.policy, txn) {
        repo.Begin();
        var raised, regenerationFailed := CommitBody(cand, rep, completed, files);
        if raised {
          repo.Abort();
          return Raised;
        }
        if regenerationFailed {
          repo.Abort();
          repo.Begin();
          repo.db := RejectedDb(repo.db, cand);
          repo.db := repo.db.(events := repo.db.events + [RegenerationFailed(cand.id, cand.loopId)]);
          repo.End();
          return Decided(false, MissionStateRegenerationFailed, FAIL);
        }
        repo.End();
        return Decided(true, CheckProgress, rep.verdict);
      }
      repo.Begin();
      repo.db := RejectedDb(repo.db, cand);
      repo.End();
      return Decided(false, RejectReason(rep, repo.db.policy, txn), rep.verdict);
    }
  }

  // ---- promises of one apply -----------------------------------------------------------------

  /** Only a commit touches the best row, the accepted rows, the credits and the feature statuses. */
  lemma UncommittedChangesNothing(db: Db, cand: Candidate, rep: Report, completed: seq<string>,
                                  txn: Option<Transaction>, files: Files)
    requires !(Applied(db, cand, rep, completed, txn, files).1.Decided?
               && Applied(db, cand, rep, completed, txn, files).1.committed)
    ensures var after := Applied(db, cand, rep, completed, txn, files).0;
            && after.best == db.best && after.accepted == db.accepted && after.features == db.features
            && after.items == db.items && CreditedKeys(after.events) == CreditedKeys(db.events)
  {
    hide CanCommit, CommitRaises, RejectReason, CommittedDb;
    var e := RegenerationFailed(cand.id, cand.loopId);
    assert (db.events + [e])[..|db.events|] == db.events;
  }

  /** What the commit rule looks at: the verdict, a newly passed check, evidence, and for every regressed check a
      transaction of this task that is open, allowed and declares it. */
  ghost predicate MayCommit(rep: Report, policy: Policy, txn: Option<Transaction>) {
    && rep.verdict != FAIL && (exists k :: k in rep.newly) && !rep.missingEvidence
    && forall k :: k in rep.regressed ==> Tolerated(k, policy, txn)
  }

  ghost predicate Tolerated(k: string, policy: Policy, txn: Option<Transaction>) {
    policy.refactorEnabled && txn.Some? && txn.value.status == TxnOpen && txn.value.sameTask && k in txn.value.declared
  }

  /** A step of the commit fails: the promotion, a key without an index, a completed feature that is unknown or
      blocked, or the manifest of a mission. */
  ghost predicate StepFails(db: Db, rep: Report, completed: seq<string>, files: Files) {
    || files == PromoteRaises
    || (exists k :: k in rep.newly && !(HasColon(k) && IntLiteral(IndexPart(k))))
    || (exists id :: id in completed && (id !in db.features || db.features[id] == FeatureBlocked))
    || (db.hasMission && files == ManifestRaises)
  }

  lemma GateIff(rep: Report, policy: Policy, txn: Option<Transaction>)
    ensures CanCommit(rep, policy, txn) <==> MayCommit(rep, policy, txn)
    ensures Undeclared(rep, policy, txn) <==> exists k :: k in rep.regressed && !Tolerated(k, policy, txn)
  {
    if rep.newly != [] { assert rep.newly[0] in rep.newly; }
    if rep.regressed != [] {
      assert rep.regressed[0] in rep.regressed;
      if ActiveTransaction(policy, txn) {
        var over := Elements(rep.regressed) - Elements(txn.value.declared);
        assert forall k :: k in over <==> k in rep.regressed && k !in txn.value.declared;
        if over != {} {
          var k :| k in over;
          assert !Tolerated(k, policy, txn);
        }
      }
    }
  }

  /** The decision, exactly: what is committed, what raises, and the first rule a rejected report breaks. */
  lemma DecisionExactly(db: Db, cand: Candidate, rep: Report, completed: seq<string>, txn: Option<Transaction>, files: Files)
    ensures
      var d := Applied(db, cand, rep, completed, txn, files).1;
      var may, fails := MayCommit(rep, db.policy, txn), StepFails(db, rep, completed, files);
      var unfinished := db.hasMission && files == RegenerateRaises;
      && (d.Raised? <==> may && fails)
      && (d.Decided? && d.committed <==> may && !fails && !unfinished)
      && (d.Decided? ==> d.verdict == if may && unfinished then FAIL else rep.verdict)
      && (d.Decided? ==>
            d.reason == (if may then (if unfinished then MissionStateRegenerationFailed else CheckProgress)
                         else if rep.verdict == FAIL then VerdictFail
                         else if rep.newly == [] then NoNewCheckProgress
                         else if exists k :: k in rep.regressed && !Tolerated(k, db.policy, txn) then RegressedChecksDetected
                         else MissingEvidence))
  {
    GateIff(rep, db.policy, txn);
    assert StepFails(db, rep, completed, files) <==> CommitRaises(db, rep, completed, files);
    if rep.newly != [] { assert rep.newly[0] in rep.newly; }
    hide StepFails, CommitRaises, Undeclared, CommittedDb, RejectedDb, Tolerated;
  }

  /** A commit writes the best row, a row for every newly passed key, the candidate's status, the completed
      features and events, and nothing else. */
  lemma CommitWritesExactly(db: Db, cand: Candidate, rep: Report, completed: seq<string>, txn: Option<Transaction>, files: Files)
    requires Applied(db, cand, rep, completed, txn, files).1 == Decided(true, CheckProgress, rep.verdict)
    ensures
      var after := Applied(db, cand, rep, completed, txn, files).0;
      && after == db.(best := after.best, candidates := after.candidates, accepted := after.accepted,
                      events := after.events, features := after.features)
      && after.best == Some(BestState(cand.id, rep.evidenceIds, rep.id, cand.loopId, rep.current))
      && (forall id :: id in after.candidates <==> id in db.candidates)
      && (forall id :: id in db.candidates ==> after.candidates[id] == (if id == cand.id then Committed else db.candidates[id]))
      && (forall k :: k in after.accepted <==> k in db.accepted || k in rep.newly)
      && (forall k :: k in db.accepted && k !in rep.newly ==> after.accepted[k] == db.accepted[k])
      && (forall k :: k in rep.newly ==>
            && after.accepted[k].itemId == ItemIdOf(k) && after.accepted[k].indexText == IndexPart(k)
            && after.accepted[k].loop == cand.loopId && after.accepted[k].validationId == rep.id)
      && (forall id :: id in after.features <==> id in db.features)
      && (forall id :: id in db.features ==> after.features[id] == (if id in completed then FeatureDone else db.features[id]))
      && db.events <= after.events
  {
    hide CanCommit, Credits, EvidenceFor, Parses;
    assert FeaturesCanFinish(db.features, completed);
  }

  /** A rejection writes the candidate's status, and an event if the mission's files could not be made again; what
      raises writes nothing. */
  lemma RejectionWritesExactly(db: Db, cand: Candidate, rep: Report, completed: seq<string>, txn: Option<Transaction>, files: Files)
    ensures
      var (after, d) := Applied(db, cand, rep, completed, txn, files);
      && (d.Raised? ==> after == db)
      && (d.Decided? && !d.committed ==>
            && after == db.(candidates := after.candidates, events := after.events)
            && (forall id :: id in after.candidates <==> id in db.candidates)
            && (forall id :: id in db.candidates ==> after.candidates[id] == (if id == cand.id then Rejected else db.candidates[id]))
            && after.events == db.events + if d.reason == MissionStateRegenerationFailed
                                           then [RegenerationFailed(cand.id, cand.loopId)] else [])
  {
    hide CanCommit, CommitRaises, CommittedDb, Undeclared;
  }

  /** I-3: a key leaves the accepted set only under an open transaction that declares it;
      with no active transaction a commit strictly grows the set. */
  lemma CommitKeepsKeys(db: Db, cand: Candidate, rep: Report, completed: seq<string>,
                        txn: Option<Transaction>, files: Files)
    requires ReportsAgainst(rep, BestKeys(db))
    ensures var (after, decision) := Applied(db, cand, rep, completed, txn, files);
            && (forall k :: k in BestKeys(db) && k !in BestKeys(after) ==>
                  ActiveTransaction(db.policy, txn) && k in txn.value.declared)
            && (!ActiveTransaction(db.policy, txn) && decision.Decided? && decision.committed ==>
                  BestKeys(db) < BestKeys(after))
  {
    if CanCommit(rep, db.policy, txn) {
      assert rep.newly[0] in Elements(rep.newly);
      if rep.regressed != [] {
        assert Elements(rep.regressed) - Elements(txn.value.declared) == {};
        forall k | k in Elements(rep.regressed) ensures k in txn.value.declared {
          assert k !in Elements(rep.regressed) - Elements(txn.value.declared);
        }
      } else {
        assert Elements(rep.regressed) == {};
      }
    }
  }

  /** A report that fails on every regression, as the validation gate's does, never draws
      on a transaction's tolerance: the decision is the one made without a transaction. */
  lemma ToleranceNeverUsed(rep: Report, policy: Policy, txn: Option<Transaction>)
    requires rep.regressed != [] ==> rep.verdict == FAIL
    ensures CanCommit(rep, policy, txn) == CanCommit(rep, policy, None)
  {
  }

  /** The live tree and the best row name the same candidate after an apply exactly when no
      promotion was left behind by an attempt that then failed. */
  lemma TreeAgreesIff(tree: Option<string>, db: Db, cand: Candidate, rep: Report, completed: seq<string>,
                      txn: Option<Transaction>, files: Files)
    requires db.best.Some? ==> db.best.value.stateId != cand.id
    requires tree == (if db.best.Some? then Some(db.best.value.stateId) else None)
    ensures
      var after := Applied(db, cand, rep, completed, txn, files).0;
      (TreeAfter(tree, db, cand, rep, txn, files) ==
       if after.best.Some? then Some(after.best.value.stateId) else None)
      <==>
      !(CanCommit(rep, db.policy, txn) && files != PromoteRaises
        && (CommitRaises(db, rep, completed, files) || (db.hasMission && files == RegenerateRaises)))
  {
  }

  /** The first commit of a mission whose services manifest is missing: the files are live, the row is not there. */
  lemma ManifestFailureLeavesFiles(db: Db, cand: Candidate, rep: Report)
    requires db.hasMission && db.best == None && db.policy.refactorEnabled == false
    requires rep.verdict == PASS && rep.newly == ["H-001:0"] && rep.regressed == [] && !rep.missingEvidence
    ensures Applied(db, cand, rep, [], None, ManifestRaises) == (db, Raised)
    ensures TreeAfter(None, db, cand, rep, None, ManifestRaises) == Some(cand.id) && db.best == None
  {
  }

  /** An accepted row names the very check its key was made from, and the evidence of its result. */
  lemma {:induction false} RowNamesItsCheck(cand: Candidate, rep: Report, id: string, index: nat, i: nat)
    requires ':' !in id && i < |rep.results| && rep.results[i].key == MakeCheckKey(id, index)
    requires forall j :: 0 <= j < |rep.results| && j != i ==> rep.results[j].key != MakeCheckKey(id, index)
    ensures RowFor(cand, rep, MakeCheckKey(id, index)) ==
            AcceptedRow(id, Decimal(index), cand.loopId, rep.id, rep.results[i].evidence)
  {
    SplitAtColon(id, Decimal(index));
    EvidenceOfOnlyResult(rep.results, MakeCheckKey(id, index), i);
  }

  lemma {:induction false} EvidenceOfOnlyResult(results: seq<CheckResult>, key: string, i: nat)
    requires i < |results| && results[i].key == key
    requires forall j :: 0 <= j < |results| && j != i ==> results[j].key != key
    ensures EvidenceFor(results, key) == results[i].evidence
  {
    if i < |results| - 1 { EvidenceOfOnlyResult(results[..|results| - 1], key, i); }
  }

  // ---- credits ------------------------------------------------------------------------------

  lemma {:induction false} CreditedAppends(a: seq<Event>, b: seq<Event>)
    ensures CreditedKeys(a + b) == CreditedKeys(a) + CreditedKeys(b)
  {
    if b == [] {
      assert a + b == a;
    } else {
      CreditedAppends(a, b[..|b| - 1]);
      assert (a + b)[..|a + b| - 1] == a + b[..|b| - 1];
    }
  }

  lemma {:induction false} CreditsFacts(items: seq<HungerItem>, newly: seq<string>, preAccepted: set<string>, loop: int)
    ensures var keys := CreditedKeys(Credits(items, newly, preAccepted, loop));
            Distinct(keys) && forall k :: k in keys ==> k in newly && k !in preAccepted
  {
    if newly != [] {
      var init, key := newly[..|newly| - 1], newly[|newly| - 1];
      CreditsFacts(items, init, preAccepted, loop);
      assert newly == init + [key];
      var before := Credits(items, init, preAccepted, loop);
      if key !in init && key !in preAccepted && WorkerMade(items, key) {
        var credit := CreditFor(items, key, loop);
        assert (before + [credit])[..|before|] == before;
        assert key !in CreditedKeys(before);
      } else {
        assert before + [] == before;
      }
    }
  }

  /** The ledger's item of that key was proposed by this worker. */
  ghost predicate ProposedBy(items: seq<HungerItem>, key: string, proposer: string) {
    exists i :: 0 <= i < |items| && items[i].id == ItemIdOf(key) && items[i].generatedBy == Some("worker:" + proposer)
  }

  lemma WorkerMadeIff(items: seq<HungerItem>, key: string)
    requires DistinctIds(items)
    ensures forall proposer :: ProposedBy(items, key, proposer) <==>
              WorkerMade(items, key) && CreditFor(items, key, 0).proposer == proposer
  {
    LookupFacts(items, ItemIdOf(key));
    forall proposer ensures ProposedBy(items, key, proposer) <==>
                            WorkerMade(items, key) && CreditFor(items, key, 0).proposer == proposer
    {
      var full := "worker:" + proposer;
      assert full[7..] == proposer && "worker:" <= full;
      if WorkerMade(items, key) {
        var made := Lookup(items, ItemIdOf(key)).value.generatedBy.value;
        assert made == "worker:" + made[7..];
        assert full == made ==> made[7..] == proposer;
      }
    }
  }

  /** A commit credits exactly the newly passed keys that never had an accepted row and whose ledger item a worker
      proposed, each to that worker and with the candidate's loop. */
  lemma {:induction false} CreditsExactly(items: seq<HungerItem>, newly: seq<string>, preAccepted: set<string>, loop: int)
    requires DistinctIds(items)
    ensures forall e :: e in Credits(items, newly, preAccepted, loop) <==>
              && e.DiscoveryCredit? && e.creditLoop == loop && e.checkKey in newly && e.checkKey !in preAccepted
              && ProposedBy(items, e.checkKey, e.proposer)
  {
    if newly != [] {
      var init, key := newly[..|newly| - 1], newly[|newly| - 1];
      assert newly == init + [key];
      CreditsExactly(items, init, preAccepted, loop);
      WorkerMadeIff(items, key);
      hide ProposedBy, WorkerMade, Lookup;
      if WorkerMade(items, key) { SameProposer(items, key, loop); }
    }
  }

  lemma SameProposer(items: seq<HungerItem>, key: string, loop: int)
    requires WorkerMade(items, key)
    ensures CreditFor(items, key, loop) == DiscoveryCredit(CreditFor(items, key, 0).proposer, key, loop)
  {
  }

  /** Rows cover the best keys, and every key is credited at most once and only after acceptance. */
  ghost predicate Accounted(db: Db) {
    && BestKeys(db) <= db.accepted.Keys
    && Distinct(CreditedKeys(db.events))
    && forall k :: k in CreditedKeys(db.events) ==> k in db.accepted
  }

  lemma DistinctAppend<T>(a: seq<T>, b: seq<T>)
    requires Distinct(a) && Distinct(b) && forall x :: x in b ==> x !in a
    ensures Distinct(a + b)
  {
    var s := a + b;
    forall i, j | 0 <= i < j < |s| ensures s[i] != s[j] {
      if i < |a| <= j { assert s[j] in b && s[i] in a; }
    }
  }

  lemma CommitKeepsAccounted(db: Db, cand: Candidate, rep: Report, completed: seq<string>)
    requires Accounted(db) && ReportsAgainst(rep, BestKeys(db))
    ensures Accounted(CommittedDb(db, cand, rep, completed))
  {
    var after := CommittedDb(db, cand, rep, completed);
    var credits := Credits(db.items, rep.newly, db.accepted.Keys, cand.loopId);
    CreditedAppends(db.events, credits);
    CreditsFacts(db.items, rep.newly, db.accepted.Keys, cand.loopId);
    DistinctAppend(CreditedKeys(db.events), CreditedKeys(credits));
    assert after.accepted.Keys == db.accepted.Keys + Elements(rep.newly);
    forall k | k in CreditedKeys(after.events) ensures k in after.accepted {
      assert k in CreditedKeys(db.events) || k in rep.newly;
    }
  }

  lemma ApplyKeepsAccounted(db: Db, cand: Candidate, rep: Report, completed: seq<string>,
                            txn: Option<Transaction>, files: Files)
    requires Accounted(db) && ReportsAgainst(rep, BestKeys(db))
    ensures Accounted(Applied(db, cand, rep, completed, txn, files).0)
    ensures db.accepted.Keys <= Applied(db, cand, rep, completed, txn, files).0.accepted.Keys
  {
    var decision := Applied(db, cand, rep, completed, txn, files).1;
    if decision.Decided? && decision.committed {
      CommitKeepsAccounted(db, cand, rep, completed);
    } else {
      UncommittedChangesNothing(db, cand, rep, completed, txn, files);
    }
  }

  // ---- promises over any sequence of applies -----------------------------------------------------

  datatype Call = Call(cand: Candidate, rep: Report, completed: seq<string>, txn: Option<Transaction>, files: Files)

  function AppliedCall(db: Db, c: Call): (Db, Decision) {
    Applied(db, c.cand, c.rep, c.completed, c.txn, c.files)
  }

  function AfterCalls(db: Db, calls: seq<Call>): Db
    decreases |calls|
  {
    if calls == [] then db else AfterCalls(AppliedCall(db, calls[0]).0, calls[1..])
  }

  /** Every report in the sequence was made against the best state it meets. */
  ghost predicate WellReported(db: Db, calls: seq<Call>)
    decreases |calls|
  {
    calls != [] ==> ReportsAgainst(calls[0].rep, BestKeys(db)) && WellReported(AppliedCall(db, calls[0]).0, calls[1..])
  }

  function Commits(db: Db, calls: seq<Call>): nat
    decreases |calls|
  {
    if calls == [] then 0
    else
      var (after, d) := AppliedCall(db, calls[0]);
      (if d.Decided? && d.committed then 1 else 0) + Commits(after, calls[1..])
  }

  /** Calls follow one another, and every one of them counts if it commits. */
  lemma {:induction false} CallsFollow(db: Db, calls: seq<Call>, c: Call)
    ensures AfterCalls(db, calls + [c]) == AppliedCall(AfterCalls(db, calls), c).0
    ensures var d := AppliedCall(AfterCalls(db, calls), c).1;
            Commits(db, calls + [c]) == Commits(db, calls) + if d.Decided? && d.committed then 1 else 0
    decreases |calls|
  {
    hide AppliedCall;
    var all := calls + [c];
    if calls == [] {
      assert all[0] == c && all[1..] == [];
    } else {
      assert all[0] == calls[0] && all[1..] == calls[1..] + [c];
      CallsFollow(AppliedCall(db, calls[0]).0, calls[1..], c);
    }
  }

  predicate Declares(db: Db, c: Call, k: string) {
    ActiveTransaction(db.policy, c.txn) && k in c.txn.value.declared
  }

  /** I-3 over any sequence of commits. */
  lemma {:induction false} KeysLeaveOnlyWhenDeclared(db: Db, calls: seq<Call>, k: string)
    requires WellReported(db, calls) && k in BestKeys(db)
    ensures k in BestKeys(AfterCalls(db, calls)) || exists i :: 0 <= i < |calls| && Declares(db, calls[i], k)
    decreases |calls|
  {
    if calls != [] {
      var c := calls[0];
      CommitKeepsKeys(db, c.cand, c.rep, c.completed, c.txn, c.files);
      ApplyKeepsPolicy(db, c);
      hide Applied, ReportsAgainst, ActiveTransaction;
      var after := AppliedCall(db, c).0;
      if k !in BestKeys(after) {
        assert Declares(db, calls[0], k);
      } else {
        KeysLeaveOnlyWhenDeclared(after, calls[1..], k);
        if i :| 0 <= i < |calls| - 1 && Declares(after, calls[1..][i], k) {
          assert Declares(db, calls[i + 1], k);
        }
      }
    }
  }

  lemma ApplyKeepsPolicy(db: Db, c: Call)
    ensures AppliedCall(db, c).0.policy == db.policy
  {
    hide CanCommit, CommitRaises;
  }

  lemma CallGrows(db: Db, c: Call)
    requires ReportsAgainst(c.rep, BestKeys(db)) && !ActiveTransaction(db.policy, c.txn)
    ensures var (after, d) := AppliedCall(db, c);
            && BestKeys(db) <= BestKeys(after) && after.policy == db.policy
            && |BestKeys(after)| >= |BestKeys(db)| + (if d.Decided? && d.committed then 1 else 0)
  {
    CommitKeepsKeys(db, c.cand, c.rep, c.completed, c.txn, c.files);
    var (after, d) := AppliedCall(db, c);
    if d.Decided? && d.committed { ProperSubsetIsSmaller(BestKeys(db), BestKeys(after)); }
    else { UncommittedChangesNothing(db, c.cand, c.rep, c.completed, c.txn, c.files); }
  }

  /** With no active transaction, every commit adds at least one accepted key and loses none. */
  lemma {:induction false} CommitsGrowTheSet(db: Db, calls: seq<Call>)
    requires WellReported(db, calls)
    requires forall i :: 0 <= i < |calls| ==> !ActiveTransaction(db.policy, calls[i].txn)
    ensures BestKeys(db) <= BestKeys(AfterCalls(db, calls))
    ensures |BestKeys(AfterCalls(db, calls))| >= |BestKeys(db)| + Commits(db, calls)
    decreases |calls|
  {
    if calls != [] {
      CallGrows(db, calls[0]);
      CommitsGrowTheSet(AppliedCall(db, calls[0]).0, calls[1..]);
    }
  }

  lemma ProperSubsetIsSmaller<T>(a: set<T>, b: set<T>)
    requires a < b
    ensures |a| < |b|
  {
    assert b == a + (b - a) && a !! (b - a);
    assert b - a != {};
  }

  /** Coverage and at-most-once credit, whatever is committed, rejected or rolled back. */
  lemma {:induction false} CallsKeepAccounted(db: Db, calls: seq<Call>)
    requires WellReported(db, calls) && Accounted(db)
    ensures Accounted(AfterCalls(db, calls))
    decreases |calls|
  {
    if calls != [] {
      var c := calls[0];
      ApplyKeepsAccounted(db, c.cand, c.rep, c.completed, c.txn, c.files);
      CallsKeepAccounted(AppliedCall(db, c).0, calls[1..]);
    }
  }
}
