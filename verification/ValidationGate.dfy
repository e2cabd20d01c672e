// validation_gate.ValidationGate: which checks run, and what the report says.
module ValidationGate {
  import opened Domain
  import opened CheckKeys
  import opened Ordering

  datatype Run = Run(passed: bool, evidence: Option<string>)

  /** The acceptance runner, seen from outside: check key and attempt number (0 is the
      first run, 1.. are confirmation reruns) to outcome. */
  type Runner = (string, nat) -> Run

  // ---- specification: one function per phase ----------------------------------------------

  function Outcome(item: HungerItem, index: nat, previously: set<string>, runner: Runner): CheckResult {
    var key := MakeCheckKey(item.id, index);
    var run := runner(key, 0);
    CheckResult(item.id, index, key, run.passed, key in previously,
                run.passed && key !in previously, key in previously && !run.passed, run.evidence)
  }

  /** Results of the item's first `n` checks that were (or were not) passing before. */
  function ItemResults(item: HungerItem, n: nat, was: bool, previously: set<string>, runner: Runner): seq<CheckResult> {
    if n == 0 then []
    else
      ItemResults(item, n - 1, was, previously, runner)
      + if (MakeCheckKey(item.id, n - 1) in previously) == was
        then [Outcome(item, n - 1, previously, runner)] else []
  }

  function Collect(items: seq<HungerItem>, was: bool, previously: set<string>, runner: Runner): seq<CheckResult> {
    if items == [] then []
    else
      var last := items[|items| - 1];
      Collect(items[..|items| - 1], was, previously, runner)
      + ItemResults(last, last.checks, was, previously, runner)
  }

  /** `repo.get_hunger_items`: found across all tasks. */
  function ItemsByIds(rows: ItemRows, ids: seq<string>): seq<HungerItem> {
    if ids == [] then []
    else
      var found := Find(rows, ids[|ids| - 1]);
      ItemsByIds(rows, ids[..|ids| - 1]) + if found.Some? then [found.value] else []
  }

  /** `_dedupe_items`: the first item of every id. */
  function DedupById(items: seq<HungerItem>): seq<HungerItem> {
    if items == [] then []
    else
      var init := DedupById(items[..|items| - 1]);
      if HasId(init, items[|items| - 1].id) then init else init + [items[|items| - 1]]
  }

  /** `repo.get_items_for_check_keys`: this task's items alone. */
  function ItemsForKeys(items: seq<HungerItem>, keys: set<string>): seq<HungerItem> {
    Filter((item: HungerItem) => exists k :: k in keys && ItemIdOf(k) == item.id, items)
  }

  predicate ConfirmsPass(key: string, reruns: int, runner: Runner) {
    reruns > 0 && forall r :: 1 <= r <= reruns ==> runner(key, r).passed
  }

  function EvidenceList(evidence: Option<string>): seq<string> {
    if evidence.Some? && evidence.value != "" then [evidence.value] else []
  }

  /** Evidence of the reruns from `from` on, up to and including the first failing one. */
  function RerunEvidence(key: string, from: nat, reruns: int, runner: Runner): seq<string>
    decreases reruns - from
  {
    if from > reruns then []
    else
      var run := runner(key, from);
      EvidenceList(run.evidence)
      + if run.passed then RerunEvidence(key, from + 1, reruns, runner) else []
  }

  /** A regression survives only if some confirmation rerun fails too; one withdrawn names the last
      evidence its reruns left. */
  function Confirmed(r: CheckResult, reruns: int, runner: Runner): CheckResult {
    if r.regressed && ConfirmsPass(r.key, reruns, runner)
    then r.(passed := true, regressed := false, evidence := LastOr(RerunEvidence(r.key, 1, reruns, runner), r.evidence))
    else r
  }

  function LastOr(ids: seq<string>, first: Option<string>): Option<string> {
    if ids == [] then first else Some(ids[|ids| - 1])
  }

  function ConfirmAll(results: seq<CheckResult>, reruns: int, runner: Runner): seq<CheckResult> {
    seq(|results|, i requires 0 <= i < |results| => Confirmed(results[i], reruns, runner))
  }

  predicate AnyNewly(results: seq<CheckResult>) {
    exists i :: 0 <= i < |results| && results[i].newly
  }

  /** Phase 1 runs the targets' failing checks; phase 2 the previously passing ones. */
  function RawResults(rows: ItemRows, targetIds: seq<string>, previously: set<string>,
                      policy: Policy, runner: Runner): seq<CheckResult> {
    var targets := ItemsByIds(rows, targetIds);
    var attempts := Collect(targets, false, previously, runner);
    if AnyNewly(attempts) || attempts == [] || policy.continuationEnabled
    then attempts + Collect(DedupById(targets + ItemsForKeys(rows.ledger, previously)), true, previously, runner)
    else attempts
  }

  function Results(rows: ItemRows, targetIds: seq<string>, previously: set<string>,
                   policy: Policy, runner: Runner): seq<CheckResult> {
    ConfirmAll(RawResults(rows, targetIds, previously, policy, runner), policy.regressionConfirmReruns, runner)
  }

  function RunEvidence(results: seq<CheckResult>): seq<string> {
    if results == [] then []
    else
      RunEvidence(results[..|results| - 1]) + EvidenceList(results[|results| - 1].evidence)
  }

  function ConfirmEvidence(results: seq<CheckResult>, reruns: int, runner: Runner): seq<string> {
    if results == [] then []
    else
      var last := results[|results| - 1];
      ConfirmEvidence(results[..|results| - 1], reruns, runner)
      + if last.regressed then RerunEvidence(last.key, 1, reruns, runner) else []
  }

  function KeysWhere(results: seq<CheckResult>, p: CheckResult -> bool): seq<string> {
    if results == [] then []
    else KeysWhere(results[..|results| - 1], p)
         + if p(results[|results| - 1]) then [results[|results| - 1].key] else []
  }

  function IsNewly(): CheckResult -> bool { (r: CheckResult) => r.newly }
  function IsRegressed(): CheckResult -> bool { (r: CheckResult) => r.regressed }

  function CurrentlyPassed(results: seq<CheckResult>, previously: set<string>): set<string> {
    (set r | r in results && r.passed :: r.key) + (previously - set r | r in results :: r.key)
  }

  /** `_aggregate_item_satisfaction` for one target item. */
  predicate Satisfies(item: HungerItem, results: seq<CheckResult>) {
    && (exists r :: r in results && r.itemId == item.id)
    && (match item.mode
        case ModeAll => forall r :: r in results && r.itemId == item.id ==> r.passed
        case ModeAny => exists r :: r in results && r.itemId == item.id && r.passed)
  }

  function SatisfiedIn(results: seq<CheckResult>, yes: bool): HungerItem -> bool {
    (item: HungerItem) => Satisfies(item, results) == yes
  }

  function IdsOf(items: seq<HungerItem>): seq<string> {
    seq(|items|, i requires 0 <= i < |items| => items[i].id)
  }

  function DecideVerdict(newly: seq<string>, regressed: seq<string>, missing: bool,
                         satisfied: seq<string>, unsatisfied: seq<string>): Verdict {
    if regressed != [] then FAIL
    else if missing then FAIL
    else if satisfied != [] && unsatisfied == [] then PASS
    else if newly != [] then PARTIAL
    else FAIL
  }

  function GateReport(rows: ItemRows, candidate: Candidate, targetIds: seq<string>,
                      previously: set<string>, policy: Policy, runner: Runner): Report {
    var raw := RawResults(rows, targetIds, previously, policy, runner);
    var results := ConfirmAll(raw, policy.regressionConfirmReruns, runner);
    var evidenceIds := candidate.evidenceIds + RunEvidence(raw)
                       + ConfirmEvidence(raw, policy.regressionConfirmReruns, runner);
    var targets := ItemsByIds(rows, targetIds);
    var satisfied := IdsOf(Filter(SatisfiedIn(results, true), targets));
    var unsatisfied := IdsOf(Filter(SatisfiedIn(results, false), targets));
    var newly := KeysWhere(results, IsNewly());
    var regressed := KeysWhere(results, IsRegressed());
    var missing := evidenceIds == [];
    Report("VAL-" + candidate.id, candidate.loopId, candidate.id,
           DecideVerdict(newly, regressed, missing, satisfied, unsatisfied), targetIds, results,
           CurrentlyPassed(results, previously), newly, regressed, satisfied, unsatisfied,
           Dedup(evidenceIds), missing, newly != [])
  }

  // ---- what the results contain ---------------------------------------------------------

  lemma {:induction false} ItemResultsMembers(item: HungerItem, n: nat, was: bool, previously: set<string>,
                                              runner: Runner, r: CheckResult)
    ensures r in ItemResults(item, n, was, previously, runner) <==>
            exists i :: 0 <= i < n && (MakeCheckKey(item.id, i) in previously) == was
                        && r == Outcome(item, i, previously, runner)
  {
    if n > 0 {
      ItemResultsMembers(item, n - 1, was, previously, runner, r);
      if (MakeCheckKey(item.id, n - 1) in previously) == was && r == Outcome(item, n - 1, previously, runner) {
        var s := ItemResults(item, n, was, previously, runner);
        assert s[|s| - 1] == r;
      }
    }
  }

  ghost predicate ResultOf(r: CheckResult, items: seq<HungerItem>, was: bool, previously: set<string>, runner: Runner) {
    exists item, i :: item in items && 0 <= i < item.checks && (MakeCheckKey(item.id, i) in previously) == was
                      && r == Outcome(item, i, previously, runner)
  }

  lemma {:induction false} CollectMembers(items: seq<HungerItem>, was: bool, previously: set<string>,
                                          runner: Runner, r: CheckResult)
    ensures r in Collect(items, was, previously, runner) <==> ResultOf(r, items, was, previously, runner)
  {
    if items != [] {
      var init, last := items[..|items| - 1], items[|items| - 1];
      assert items == init + [last];
      CollectMembers(init, was, previously, runner, r);
      ItemResultsMembers(last, last.checks, was, previously, runner, r);
    }
  }

  ghost predicate DistinctKeys(results: seq<CheckResult>) {
    forall i, j :: 0 <= i < j < |results| ==> results[i].key != results[j].key
  }

  lemma {:induction false} ItemResultsDistinct(item: HungerItem, n: nat, was: bool, previously: set<string>, runner: Runner)
    ensures DistinctKeys(ItemResults(item, n, was, previously, runner))
  {
    if n > 0 {
      ItemResultsDistinct(item, n - 1, was, previously, runner);
      var s := ItemResults(item, n - 1, was, previously, runner);
      forall j | 0 <= j < |s| ensures s[j].key != MakeCheckKey(item.id, n - 1) {
        ItemResultsMembers(item, n - 1, was, previously, runner, s[j]);
        if s[j].key == MakeCheckKey(item.id, n - 1) {
          CheckKeyInjective(item.id, s[j].index, item.id, n - 1);
        }
      }
    }
  }

  lemma {:induction false} CollectDistinct(items: seq<HungerItem>, was: bool, previously: set<string>, runner: Runner)
    requires DistinctIds(items)
    ensures DistinctKeys(Collect(items, was, previously, runner))
  {
    if items != [] {
      var init, last := items[..|items| - 1], items[|items| - 1];
      CollectDistinct(init, was, previously, runner);
      ItemResultsDistinct(last, last.checks, was, previously, runner);
      var s, t := Collect(init, was, previously, runner), ItemResults(last, last.checks, was, previously, runner);
      forall i, j | 0 <= i < |s| && 0 <= j < |t| ensures s[i].key != t[j].key {
        CollectMembers(init, was, previously, runner, s[i]);
        ItemResultsMembers(last, last.checks, was, previously, runner, t[j]);
        if s[i].key == t[j].key {
          CheckKeyInjective(s[i].itemId, s[i].index, last.id, t[j].index);
        }
      }
    }
  }

  lemma {:induction false} ItemsByIdsFacts(rows: ItemRows, ids: seq<string>)
    requires Keyed(rows)
    ensures forall t :: t in ItemsByIds(rows, ids) <==> t.id in ids && Find(rows, t.id) == Some(t)
    ensures Distinct(ids) ==> DistinctIds(ItemsByIds(rows, ids))
  {
    if ids != [] {
      var init, last := ids[..|ids| - 1], ids[|ids| - 1];
      ItemsByIdsFacts(rows, init);
      FindFacts(rows, last);
      assert ids == init + [last];
      if Distinct(ids) {
        assert last !in init;
        var s := ItemsByIds(rows, init);
        assert forall i :: 0 <= i < |s| ==> s[i] in s && s[i].id in init;
      }
    }
  }

  lemma {:induction false} DedupKeepsDistinctIds(a: seq<HungerItem>)
    requires DistinctIds(a)
    ensures DedupById(a) == a
  {
    if a != [] {
      DedupKeepsDistinctIds(a[..|a| - 1]);
      assert !HasId(a[..|a| - 1], a[|a| - 1].id);
    }
  }

  /** The first of two lists with distinct ids comes through whole, the second where it adds ids. */
  lemma {:induction false} DedupByIdFacts(a: seq<HungerItem>, b: seq<HungerItem>)
    requires DistinctIds(a)
    ensures a <= DedupById(a + b) && DistinctIds(DedupById(a + b))
    ensures forall t :: t in DedupById(a + b) ==> t in a || (t in b && !HasId(a, t.id))
  {
    if b == [] {
      assert a + b == a;
      DedupKeepsDistinctIds(a);
    } else {
      var s, last := a + b, b[|b| - 1];
      assert s[..|s| - 1] == a + b[..|b| - 1] && s[|s| - 1] == last;
      DedupByIdFacts(a, b[..|b| - 1]);
      var init := DedupById(s[..|s| - 1]);
      if HasId(a, last.id) {
        var i :| 0 <= i < |a| && a[i].id == last.id;
        assert init[i].id == last.id;
      }
    }
  }

  lemma {:induction false} KeysWhereFacts(results: seq<CheckResult>, p: CheckResult -> bool)
    ensures forall k :: k in KeysWhere(results, p) <==> exists r :: r in results && p(r) && r.key == k
    ensures DistinctKeys(results) ==> Distinct(KeysWhere(results, p))
  {
    if results != [] {
      var init, last := results[..|results| - 1], results[|results| - 1];
      assert results == init + [last];
      KeysWhereFacts(init, p);
      if DistinctKeys(results) {
        assert DistinctKeys(init);
        assert last.key !in KeysWhere(init, p);
      }
    }
  }

  // ---- the report contract ------------------------------------------------------------------

  /** Where the gate takes a check from: a target's from whatever row is found, any other from the ledger. */
  ghost predicate Consulted(item: HungerItem, rows: ItemRows, targetIds: seq<string>) {
    if item.id in targetIds then Find(rows, item.id) == Some(item) else item in rows.ledger
  }

  lemma ConsultedOnce(rows: ItemRows, targetIds: seq<string>, a: HungerItem, b: HungerItem)
    requires DistinctIds(rows.ledger) && Consulted(a, rows, targetIds) && Consulted(b, rows, targetIds) && a.id == b.id
    ensures a == b
  {
    if a.id !in targetIds {
      var i :| 0 <= i < |rows.ledger| && rows.ledger[i] == a;
      var j :| 0 <= j < |rows.ledger| && rows.ledger[j] == b;
    }
  }

  /** Every result, confirmed or not, is the outcome of a real check of a consulted item. */
  ghost predicate Honest(r: CheckResult, rows: ItemRows, targetIds: seq<string>, previously: set<string>) {
    && (exists item :: Consulted(item, rows, targetIds) && item.id == r.itemId && r.index < item.checks
                       && r.key == MakeCheckKey(item.id, r.index))
    && r.previously == (r.key in previously)
    && r.newly == (r.passed && r.key !in previously)
    && r.regressed == (!r.passed && r.key in previously)
    && (r.key !in previously ==> r.itemId in targetIds)
  }

  lemma {:induction false} CollectedIsHonest(items: seq<HungerItem>, rows: ItemRows, targetIds: seq<string>, was: bool,
                          previously: set<string>, runner: Runner)
    requires forall t :: t in items ==> Consulted(t, rows, targetIds) && (was || t.id in targetIds)
    ensures forall r :: r in Collect(items, was, previously, runner) ==>
              (r.key in previously) == was && Honest(r, rows, targetIds, previously)
  {
    forall r | r in Collect(items, was, previously, runner)
      ensures (r.key in previously) == was && Honest(r, rows, targetIds, previously)
    {
      CollectMembers(items, was, previously, runner, r);
    }
  }

  lemma ConfirmedIsHonest(raw: seq<CheckResult>, rows: ItemRows, targetIds: seq<string>, previously: set<string>,
                          reruns: int, runner: Runner)
    requires DistinctKeys(raw) && forall r :: r in raw ==> Honest(r, rows, targetIds, previously)
    ensures var results := ConfirmAll(raw, reruns, runner);
            DistinctKeys(results) && forall r :: r in results ==> Honest(r, rows, targetIds, previously)
  {
    var results := ConfirmAll(raw, reruns, runner);
    assert forall i :: 0 <= i < |raw| ==> results[i].key == raw[i].key;
    forall r | r in results ensures Honest(r, rows, targetIds, previously) {
      var i :| 0 <= i < |results| && results[i] == r;
      assert raw[i] in raw;
    }
  }

  lemma ResultsAreHonest(rows: ItemRows, targetIds: seq<string>, previously: set<string>,
                         policy: Policy, runner: Runner)
    requires Keyed(rows) && DistinctIds(rows.ledger) && Distinct(targetIds)
    ensures var results := Results(rows, targetIds, previously, policy, runner);
            && DistinctKeys(results)
            && forall r :: r in results ==> Honest(r, rows, targetIds, previously)
  {
    hide Honest, Collect, ConfirmAll;
    var targets := ItemsByIds(rows, targetIds);
    var attempts := Collect(targets, false, previously, runner);
    var again := DedupById(targets + ItemsForKeys(rows.ledger, previously));
    var rerun := Collect(again, true, previously, runner);
    RegressionItems(rows, targetIds, previously);
    ItemsByIdsFacts(rows, targetIds);
    CollectDistinct(targets, false, previously, runner);
    CollectDistinct(again, true, previously, runner);
    CollectedIsHonest(targets, rows, targetIds, false, previously, runner);
    CollectedIsHonest(again, rows, targetIds, true, previously, runner);
    assert forall i, j :: 0 <= i < |attempts| && 0 <= j < |rerun| ==>
      attempts[i] in attempts && rerun[j] in rerun && attempts[i].key != rerun[j].key;
    hide ItemsByIds, DedupById, ItemsForKeys;
    ConfirmedIsHonest(RawResults(rows, targetIds, previously, policy, runner), rows, targetIds, previously,
                      policy.regressionConfirmReruns, runner);
  }

  lemma {:induction false} RegressionItems(rows: ItemRows, targetIds: seq<string>, previously: set<string>)
    requires Keyed(rows) && DistinctIds(rows.ledger) && Distinct(targetIds)
    ensures var again := DedupById(ItemsByIds(rows, targetIds) + ItemsForKeys(rows.ledger, previously));
            && DistinctIds(again) && (forall t :: t in again ==> Consulted(t, rows, targetIds))
            && (forall t :: t in ItemsByIds(rows, targetIds) ==> t in again)
  {
    var targets := ItemsByIds(rows, targetIds);
    ItemsByIdsFacts(rows, targetIds);
    FilterMembers((item: HungerItem) => exists k :: k in previously && ItemIdOf(k) == item.id, rows.ledger);
    DedupByIdFacts(targets, ItemsForKeys(rows.ledger, previously));
    forall t | t in DedupById(targets + ItemsForKeys(rows.ledger, previously)) ensures Consulted(t, rows, targetIds) {
      if t !in targets && t.id in targetIds { LedgerIdIsFound(rows, targetIds, t); }
    }
  }

  /** A ledger item named as a target always finds some row, so it is in the list already. */
  lemma {:induction false} LedgerIdIsFound(rows: ItemRows, targetIds: seq<string>, t: HungerItem)
    requires Keyed(rows) && t in rows.ledger && t.id in targetIds
    ensures HasId(ItemsByIds(rows, targetIds), t.id)
  {
    var k :| 0 <= k < |rows.ledger| && rows.ledger[k] == t;
    FindFacts(rows, t.id);
    ItemsByIdsFacts(rows, targetIds);
    assert Find(rows, t.id).value in ItemsByIds(rows, targetIds);
  }

  lemma {:induction false} CurrentIsSum(results: seq<CheckResult>, previously: set<string>)
    requires DistinctKeys(results)
    requires forall r :: r in results ==> r.newly == (r.passed && r.key !in previously)
                                          && r.regressed == (!r.passed && r.key in previously)
    ensures CurrentlyPassed(results, previously)
            == (previously - Elements(KeysWhere(results, IsRegressed()))) + Elements(KeysWhere(results, IsNewly()))
  {
    KeysWhereFacts(results, IsNewly());
    KeysWhereFacts(results, IsRegressed());
    forall k ensures k in CurrentlyPassed(results, previously) <==>
                     (k in previously && k !in KeysWhere(results, IsRegressed())) || k in KeysWhere(results, IsNewly())
    {
      if r :| r in results && r.key == k {
        assert forall q :: q in results && q.key == k ==> q == r;
      }
    }
  }

  /** The sets a report carries, and its verdict, against the accepted baseline. */
  lemma GateReportAgainstBaseline(rows: ItemRows, candidate: Candidate, targetIds: seq<string>,
                                  previously: set<string>, policy: Policy, runner: Runner)
    requires Keyed(rows) && DistinctIds(rows.ledger) && Distinct(targetIds)
    ensures var rep := GateReport(rows, candidate, targetIds, previously, policy, runner);
            && ReportsAgainst(rep, previously)
            && (rep.regressed != [] || rep.missingEvidence ==> rep.verdict == FAIL)
            && (rep.newly != [] && rep.regressed == [] && !rep.missingEvidence ==> rep.verdict in {PASS, PARTIAL})
            && (rep.hasRealProgress <==> rep.newly != [])
            && (forall k :: k in rep.newly ==>
                  exists item: HungerItem, i :: Find(rows, item.id) == Some(item) && item.id in targetIds && 0 <= i < item.checks
                                    && k == MakeCheckKey(item.id, i))
  {
    var rep := GateReport(rows, candidate, targetIds, previously, policy, runner);
    var results := Results(rows, targetIds, previously, policy, runner);
    ResultsAreHonest(rows, targetIds, previously, policy, runner);
    KeysWhereFacts(results, IsNewly());
    KeysWhereFacts(results, IsRegressed());
    CurrentIsSum(results, previously);
    forall k | k in rep.newly
      ensures exists item: HungerItem, i :: Find(rows, item.id) == Some(item) && item.id in targetIds && 0 <= i < item.checks
                                && k == MakeCheckKey(item.id, i)
    {
      var r :| r in results && r.newly && r.key == k;
      assert Honest(r, rows, targetIds, previously);
    }
    hide Results, KeysWhere, CurrentlyPassed, Find;
  }

  /** A check of a target that was not passing before and passes on its first run. */
  ghost predicate NewlyPasses(k: string, rows: ItemRows, targetIds: seq<string>, previously: set<string>, runner: Runner) {
    && k !in previously && runner(k, 0).passed
    && exists item: HungerItem, i :: Find(rows, item.id) == Some(item) && item.id in targetIds && 0 <= i < item.checks
                                     && k == MakeCheckKey(item.id, i)
  }

  ghost predicate NewlyIn(k: string, results: seq<CheckResult>) {
    exists r :: r in results && r.newly && r.key == k
  }

  /** Raw results carry their first run, and the targets' failing checks are all among them. */
  lemma RawRuns(rows: ItemRows, targetIds: seq<string>, previously: set<string>, policy: Policy, runner: Runner)
    requires Keyed(rows)
    ensures var raw := RawResults(rows, targetIds, previously, policy, runner);
            && (forall r :: r in raw ==> r.passed == runner(r.key, 0).passed && r.newly == (r.passed && r.key !in previously)
                                         && r.regressed == (r.key in previously && !r.passed))
            && (forall k :: NewlyIn(k, raw) <==> NewlyPasses(k, rows, targetIds, previously, runner))
  {
    var targets := ItemsByIds(rows, targetIds);
    var attempts := Collect(targets, false, previously, runner);
    var again := DedupById(targets + ItemsForKeys(rows.ledger, previously));
    var raw := RawResults(rows, targetIds, previously, policy, runner);
    ItemsByIdsFacts(rows, targetIds);
    forall r | r in raw
      ensures r in attempts || r in Collect(again, true, previously, runner)
      ensures ResultOf(r, targets, false, previously, runner) || ResultOf(r, again, true, previously, runner)
    {
      CollectMembers(targets, false, previously, runner, r);
      CollectMembers(again, true, previously, runner, r);
    }
    forall k | NewlyPasses(k, rows, targetIds, previously, runner) ensures NewlyIn(k, raw) {
      var item: HungerItem, i :| Find(rows, item.id) == Some(item) && item.id in targetIds && 0 <= i < item.checks
                                 && k == MakeCheckKey(item.id, i);
      var r := Outcome(item, i, previously, runner);
      assert item in targets;
      CollectMembers(targets, false, previously, runner, r);
      assert r in raw && r.newly && r.key == k;
    }
  }

  /** Confirmation withdraws regressions and nothing else. */
  lemma ConfirmOnlyWithdraws(raw: seq<CheckResult>, reruns: int, runner: Runner)
    requires forall r :: r in raw && r.regressed ==> !r.newly
    ensures var results := ConfirmAll(raw, reruns, runner);
            && (forall k :: NewlyIn(k, results) <==> NewlyIn(k, raw))
            && (forall r :: r in results && r.regressed ==> r in raw)
  {
    var results := ConfirmAll(raw, reruns, runner);
    forall k | NewlyIn(k, raw) ensures NewlyIn(k, results) {
      var i :| 0 <= i < |raw| && raw[i].newly && raw[i].key == k;
      assert results[i] in results && results[i].newly;
    }
    forall k | NewlyIn(k, results) ensures NewlyIn(k, raw) {
      var i :| 0 <= i < |results| && results[i].newly && results[i].key == k;
      assert raw[i] in raw && raw[i].newly;
    }
    forall r | r in results && r.regressed ensures r in raw {
      var i :| 0 <= i < |results| && results[i] == r;
      assert raw[i] == r;
    }
  }

  /** The newly passed keys are exactly the targets' checks that failed before and pass now; a key is
      listed as regressed only if it passed before and failed its first run. */
  lemma NewlyExactly(rows: ItemRows, candidate: Candidate, targetIds: seq<string>, previously: set<string>,
                     policy: Policy, runner: Runner)
    requires Keyed(rows)
    ensures var rep := GateReport(rows, candidate, targetIds, previously, policy, runner);
            && (forall k :: k in rep.newly <==> NewlyPasses(k, rows, targetIds, previously, runner))
            && (forall k :: k in rep.regressed ==> k in previously && !runner(k, 0).passed)
  {
    var results := Results(rows, targetIds, previously, policy, runner);
    RawRuns(rows, targetIds, previously, policy, runner);
    ConfirmOnlyWithdraws(RawResults(rows, targetIds, previously, policy, runner), policy.regressionConfirmReruns, runner);
    KeysWhereFacts(results, IsNewly());
    KeysWhereFacts(results, IsRegressed());
    hide RawResults, ConfirmAll, KeysWhere, NewlyPasses, DecideVerdict, SatisfiedIn, CurrentlyPassed;
  }

  lemma {:induction false} IdInSatisfied(targets: seq<HungerItem>, results: seq<CheckResult>, item: HungerItem)
    requires DistinctIds(targets) && item in targets
    ensures item.id in IdsOf(Filter(SatisfiedIn(results, true), targets)) <==> Satisfies(item, results)
  {
    FilterMembers(SatisfiedIn(results, true), targets);
    var kept := Filter(SatisfiedIn(results, true), targets);
    if item in kept {
      var i :| 0 <= i < |kept| && kept[i] == item;
      assert IdsOf(kept)[i] == item.id;
    }
    if item.id in IdsOf(kept) {
      var i :| 0 <= i < |kept| && kept[i].id == item.id;
      assert kept[i] in kept;
    }
  }

  /** Results that cover every check of the item decide its acceptance rule. */
  lemma SatisfiesIffMet(results: seq<CheckResult>, item: HungerItem, current: set<string>)
    requires forall i :: 0 <= i < item.checks ==>
               exists r :: r in results && r.itemId == item.id && r.key == MakeCheckKey(item.id, i)
    requires forall r :: r in results && r.itemId == item.id ==> r.key in KeysOf(item)
    requires forall r :: r in results && r.itemId == item.id ==> (r.passed <==> r.key in current)
    requires exists r :: r in results && r.itemId == item.id
    ensures Satisfies(item, results) <==> Met(item, current)
  {
    if item.mode == ModeAny && Met(item, current) {
      var k :| k in KeysOf(item) * current;
      var i :| 0 <= i < item.checks && k == MakeCheckKey(item.id, i);
      var r :| r in results && r.itemId == item.id && r.key == MakeCheckKey(item.id, i);
      assert r.passed;
    }
    if item.mode == ModeAny && Satisfies(item, results) {
      var r :| r in results && r.itemId == item.id && r.passed;
      assert r.key in KeysOf(item) * current;
    }
    if item.mode == ModeAll && Satisfies(item, results) {
      forall k | k in KeysOf(item) ensures k in current {
        var i :| 0 <= i < item.checks && k == MakeCheckKey(item.id, i);
        var r :| r in results && r.itemId == item.id && r.key == MakeCheckKey(item.id, i);
      }
    }
  }

  lemma HonestKeyOwner(r: CheckResult, rows: ItemRows, targetIds: seq<string>, previously: set<string>,
                       item: HungerItem)
    requires Honest(r, rows, targetIds, previously) && DistinctIds(rows.ledger) && Consulted(item, rows, targetIds)
    ensures r.itemId == item.id <==> r.key in KeysOf(item)
  {
    var owner :| Consulted(owner, rows, targetIds) && owner.id == r.itemId && r.index < owner.checks
                 && r.key == MakeCheckKey(owner.id, r.index);
    if r.itemId == item.id {
      ConsultedOnce(rows, targetIds, owner, item);
    }
    if r.key in KeysOf(item) {
      var i :| 0 <= i < item.checks && r.key == MakeCheckKey(item.id, i);
      CheckKeyInjective(owner.id, r.index, item.id, i);
    }
  }

  lemma PassedMeansCurrent(results: seq<CheckResult>, previously: set<string>, r: CheckResult)
    requires DistinctKeys(results) && r in results
    ensures r.passed <==> r.key in CurrentlyPassed(results, previously)
  {
    forall q | q in results && q.key == r.key ensures q == r {}
  }

  /** For a target that made progress, `satisfied` says exactly whether the acceptance rule of the row
      found for it now holds of the currently passing keys, although only part of the checks were run. */
  lemma SatisfiedMeansMet(rows: ItemRows, candidate: Candidate, targetIds: seq<string>,
                          previously: set<string>, policy: Policy, runner: Runner, item: HungerItem, key: string)
    requires Keyed(rows) && DistinctIds(rows.ledger) && Distinct(targetIds)
    requires item.id in targetIds && Find(rows, item.id) == Some(item)
    requires key in GateReport(rows, candidate, targetIds, previously, policy, runner).newly
    requires key in KeysOf(item)
    ensures var rep := GateReport(rows, candidate, targetIds, previously, policy, runner);
            item.id in rep.satisfied <==> Met(item, rep.current)
  {
    var results := Results(rows, targetIds, previously, policy, runner);
    var targets := ItemsByIds(rows, targetIds);
    ItemsByIdsFacts(rows, targetIds);
    IdInSatisfied(targets, results, item);
    ResultsAreHonest(rows, targetIds, previously, policy, runner);
    KeysWhereFacts(results, IsNewly());
    var n :| n in results && n.newly && n.key == key;
    SomethingNew(rows, targetIds, previously, policy, runner, n);
    HonestKeyOwner(n, rows, targetIds, previously, item);
    forall i | 0 <= i < item.checks
      ensures exists r :: r in results && r.itemId == item.id && r.key == MakeCheckKey(item.id, i)
    {
      EveryCheckOfTargetRan(rows, targetIds, previously, policy, runner, item, i);
    }
    forall r | r in results && r.itemId == item.id
      ensures r.key in KeysOf(item) && (r.passed <==> r.key in CurrentlyPassed(results, previously))
    {
      HonestKeyOwner(r, rows, targetIds, previously, item);
      PassedMeansCurrent(results, previously, r);
    }
    SatisfiesIffMet(results, item, CurrentlyPassed(results, previously));
  }

  lemma {:induction false} SomethingNew(rows: ItemRows, targetIds: seq<string>, previously: set<string>,
                     policy: Policy, runner: Runner, n: CheckResult)
    requires n in Results(rows, targetIds, previously, policy, runner) && n.newly
    ensures AnyNewly(Collect(ItemsByIds(rows, targetIds), false, previously, runner))
  {
    var raw := RawResults(rows, targetIds, previously, policy, runner);
    var results := Results(rows, targetIds, previously, policy, runner);
    var targets := ItemsByIds(rows, targetIds);
    var attempts := Collect(targets, false, previously, runner);
    var i :| 0 <= i < |results| && results[i] == n;
    assert raw[i].newly;
    var again := DedupById(targets + ItemsForKeys(rows.ledger, previously));
    if i >= |attempts| {
      assert raw[i] in Collect(again, true, previously, runner);
      CollectMembers(again, true, previously, runner, raw[i]);
    } else {
      assert attempts[i].newly;
    }
  }

  lemma {:induction false} EveryCheckOfTargetRan(rows: ItemRows, targetIds: seq<string>, previously: set<string>,
                              policy: Policy, runner: Runner, item: HungerItem, i: nat)
    requires Keyed(rows) && DistinctIds(rows.ledger) && Distinct(targetIds)
    requires item.id in targetIds && Find(rows, item.id) == Some(item) && i < item.checks
    requires AnyNewly(Collect(ItemsByIds(rows, targetIds), false, previously, runner))
    ensures exists r :: r in Results(rows, targetIds, previously, policy, runner)
                        && r.itemId == item.id && r.key == MakeCheckKey(item.id, i)
  {
    var targets := ItemsByIds(rows, targetIds);
    var again := DedupById(targets + ItemsForKeys(rows.ledger, previously));
    var raw := RawResults(rows, targetIds, previously, policy, runner);
    var r := Outcome(item, i, previously, runner);
    ItemsByIdsFacts(rows, targetIds);
    RegressionItems(rows, targetIds, previously);
    CollectMembers(targets, false, previously, runner, r);
    CollectMembers(again, true, previously, runner, r);
    assert r in raw;
    var j :| 0 <= j < |raw| && raw[j] == r;
    assert Results(rows, targetIds, previously, policy, runner)[j].key == r.key;
  }

  // ---- the code --------------------------------------------------------------------------------

  method RunChecks(items: seq<HungerItem>, was: bool, previously: set<string>, runner: Runner, done: seq<CheckResult>)
    returns (results: seq<CheckResult>)
    requires DistinctIds(items)
    requires forall r :: r in done ==> (r.key in previously) != was
    ensures results == done + Collect(items, was, previously, runner)
  {
    results := done;
    for i := 0 to |items|
      invariant results == done + Collect(items[..i], was, previously, runner)
    {
      var item := items[i];
      for index := 0 to item.checks
        invariant results == done + Collect(items[..i], was, previously, runner)
                             + ItemResults(item, index, was, previously, runner)
      {
        var key := MakeCheckKey(item.id, index);
        if (key in previously) != was { continue; }
        NotRunYet(items, i, index, was, previously, runner, done);
        if exists r :: r in results && r.key == key { continue; }
        results := results + [Outcome(item, index, previously, runner)];
      }
      assert items[..i + 1][..i] == items[..i] && items[..i + 1][i] == item;
    }
    assert items[..|items|] == items;
  }

  /** The gate's "already has a result" test never fires: no key comes up twice. */
  lemma {:induction false} NotRunYet(items: seq<HungerItem>, i: nat, index: nat, was: bool, previously: set<string>, runner: Runner,
                  done: seq<CheckResult>)
    requires i < |items| && DistinctIds(items) && index < items[i].checks
    requires (MakeCheckKey(items[i].id, index) in previously) == was
    requires forall r :: r in done ==> (r.key in previously) != was
    ensures forall r :: r in done + Collect(items[..i], was, previously, runner)
                        + ItemResults(items[i], index, was, previously, runner)
                        ==> r.key != MakeCheckKey(items[i].id, index)
  {
    var key := MakeCheckKey(items[i].id, index);
    forall r | r in Collect(items[..i], was, previously, runner) ensures r.key != key {
      CollectMembers(items[..i], was, previously, runner, r);
      if r.key == key { CheckKeyInjective(r.itemId, r.index, items[i].id, index); }
    }
    forall r | r in ItemResults(items[i], index, was, previously, runner) ensures r.key != key {
      ItemResultsMembers(items[i], index, was, previously, runner, r);
      if r.key == key { CheckKeyInjective(r.itemId, r.index, items[i].id, index); }
    }
  }

  /** Confirmation reruns of one regressed check: they stop at the first failure. */
  method ConfirmOne(key: string, reruns: int, runner: Runner) returns (passing: bool, evidence: seq<string>)
    ensures passing <==> ConfirmsPass(key, reruns, runner)
    ensures evidence == RerunEvidence(key, 1, reruns, runner)
  {
    evidence, passing := [], true;
    var rerun := 1;
    while rerun <= reruns && passing
      invariant 1 <= rerun && (rerun > 1 ==> rerun - 1 <= reruns)
      invariant passing <==> forall r :: 1 <= r < rerun ==> runner(key, r).passed
      invariant RerunEvidence(key, 1, reruns, runner) ==
                evidence + if passing then RerunEvidence(key, rerun, reruns, runner) else []
      decreases reruns - rerun
    {
      var run := runner(key, rerun);
      ghost var after := if run.passed then RerunEvidence(key, rerun + 1, reruns, runner) else [];
      assert RerunEvidence(key, 1, reruns, runner) == (evidence + EvidenceList(run.evidence)) + after;
      evidence := evidence + EvidenceList(run.evidence);
      passing := run.passed;
      rerun := rerun + 1;
    }
    passing := passing && reruns > 0;
  }

  /** `_confirm_regressions` */
  method ConfirmRegressions(results: seq<CheckResult>, reruns: int, runner: Runner)
    returns (confirmed: seq<CheckResult>, evidence: seq<string>)
    ensures confirmed == ConfirmAll(results, reruns, runner)
    ensures evidence == ConfirmEvidence(results, reruns, runner)
  {
    confirmed, evidence := [], [];
    for i := 0 to |results|
      invariant confirmed == ConfirmAll(results[..i], reruns, runner)
      invariant evidence == ConfirmEvidence(results[..i], reruns, runner)
    {
      var result := results[i];
      assert results[..i + 1][..i] == results[..i] && results[..i + 1][i] == result;
      if result.regressed {
        var passing, extra := ConfirmOne(result.key, reruns, runner);
        evidence := evidence + extra;
        if passing { result := result.(passed := true, regressed := false, evidence := LastOr(extra, result.evidence)); }
      }
      confirmed := confirmed + [result];
    }
    assert results[..|results|] == results;
  }

  /** `_aggregate_item_satisfaction` */
  method Aggregate(targets: seq<HungerItem>, results: seq<CheckResult>)
    returns (satisfied: seq<string>, unsatisfied: seq<string>)
    ensures satisfied == IdsOf(Filter(SatisfiedIn(results, true), targets))
    ensures unsatisfied == IdsOf(Filter(SatisfiedIn(results, false), targets))
  {
    satisfied, unsatisfied := [], [];
    for i := 0 to |targets|
      invariant satisfied == IdsOf(Filter(SatisfiedIn(results, true), targets[..i]))
      invariant unsatisfied == IdsOf(Filter(SatisfiedIn(results, false), targets[..i]))
    {
      assert targets[..i + 1] == targets[..i] + [targets[i]];
      FilterAppends(SatisfiedIn(results, true), targets[..i], [targets[i]]);
      FilterAppends(SatisfiedIn(results, false), targets[..i], [targets[i]]);
      if Satisfies(targets[i], results) { satisfied := satisfied + [targets[i].id]; }
      else { unsatisfied := unsatisfied + [targets[i].id]; }
    }
    assert targets[..|targets|] == targets;
  }

  /** Both phases of `validate`. */
  method RunPhases(rows: ItemRows, targetIds: seq<string>, previously: set<string>, policy: Policy, runner: Runner)
    returns (raw: seq<CheckResult>)
    requires Keyed(rows) && DistinctIds(rows.ledger) && Distinct(targetIds)
    ensures raw == RawResults(rows, targetIds, previously, policy, runner)
  {
    var targets := ItemsByIds(rows, targetIds);
    ItemsByIdsFacts(rows, targetIds);
    raw := RunChecks(targets, false, previously, runner, []);
    assert [] + Collect(targets, false, previously, runner) == Collect(targets, false, previously, runner);
    if AnyNewly(raw) || raw == [] || policy.continuationEnabled {
      RegressionItems(rows, targetIds, previously);
      forall r | r in raw ensures r.key !in previously {
        CollectMembers(targets, false, previously, runner, r);
      }
      raw := RunChecks(DedupById(targets + ItemsForKeys(rows.ledger, previously)), true, previously, runner, raw);
    }
  }

  /** `ValidationGate.validate` */
  method Validate(rows: ItemRows, candidate: Candidate, targetIds: seq<string>,
                  previously: set<string>, policy: Policy, runner: Runner) returns (rep: Report)
    requires Keyed(rows) && DistinctIds(rows.ledger) && Distinct(targetIds)
    ensures rep == GateReport(rows, candidate, targetIds, previously, policy, runner)
  {
    var raw := RunPhases(rows, targetIds, previously, policy, runner);
    var results, extra := ConfirmRegressions(raw, policy.regressionConfirmReruns, runner);
    var evidenceIds := candidate.evidenceIds + RunEvidence(raw) + extra;
    var newly, regressed := KeysWhere(results, IsNewly()), KeysWhere(results, IsRegressed());
    var satisfied, unsatisfied := Aggregate(ItemsByIds(rows, targetIds), results);
    var missing := evidenceIds == [];
    rep := Report("VAL-" + candidate.id, candidate.loopId, candidate.id,
                  DecideVerdict(newly, regressed, missing, satisfied, unsatisfied), targetIds, results,
                  CurrentlyPassed(results, previously), newly, regressed, satisfied, unsatisfied,
                  Dedup(evidenceIds), missing, newly != []);
  }
}
