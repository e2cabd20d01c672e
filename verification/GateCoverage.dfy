// validation_gate.ValidationGate: which checks run and what the report says of them, over the rows, the
// accepted baseline and the runner alone.
module GateCoverage {
  import opened Domain
  import opened CheckKeys
  import opened Ordering
  import opened ValidationGate

  /** A check of the row found for a target. */
  ghost predicate OfTarget(k: string, rows: ItemRows, targetIds: seq<string>) {
    exists item: HungerItem, i :: item.id in targetIds && Find(rows, item.id) == Some(item)
                                  && 0 <= i < item.checks && k == MakeCheckKey(item.id, i)
  }

  /** A check of a ledger item that is no target and whose id the key leads back to. */
  ghost predicate OfOther(k: string, rows: ItemRows, targetIds: seq<string>) {
    exists item: HungerItem, i :: item in rows.ledger && item.id !in targetIds && ':' !in item.id
                                  && 0 <= i < item.checks && k == MakeCheckKey(item.id, i)
  }

  /** Accepted checks run again if a rejected tree may be carried on, if something newly passes, or if no
      target had a check left to try. */
  ghost predicate Rechecks(rows: ItemRows, targetIds: seq<string>, previously: set<string>, policy: Policy, runner: Runner) {
    || policy.continuationEnabled
    || (exists k :: OfTarget(k, rows, targetIds) && k !in previously && runner(k, 0).passed)
    || (forall k :: OfTarget(k, rows, targetIds) ==> k in previously)
  }

  /** The check is run on the candidate. */
  ghost predicate IsRun(k: string, rows: ItemRows, targetIds: seq<string>, previously: set<string>, policy: Policy, runner: Runner) {
    if k in previously then Rechecks(rows, targetIds, previously, policy, runner) && (OfTarget(k, rows, targetIds) || OfOther(k, rows, targetIds))
    else OfTarget(k, rows, targetIds)
  }

  /** The first run fails, and no full row of confirmation reruns passes. */
  predicate FailsForGood(k: string, reruns: int, runner: Runner) {
    !runner(k, 0).passed && (reruns <= 0 || exists r :: 1 <= r <= reruns && !runner(k, r).passed)
  }

  // ---- the items consulted again ---------------------------------------------------------------

  lemma {:induction false} DedupHasId(items: seq<HungerItem>, id: string)
    ensures HasId(DedupById(items), id) <==> HasId(items, id)
  {
    if items != [] {
      var init, last := items[..|items| - 1], items[|items| - 1];
      assert items == init + [last];
      DedupHasId(init, id);
      HasIdAppend(init, last, id);
      HasIdAppend(DedupById(init), last, id);
    }
  }

  ghost predicate KeyOfOne(k: string, items: seq<HungerItem>) {
    exists item, i :: item in items && 0 <= i < item.checks && k == MakeCheckKey(item.id, i)
  }

  lemma {:induction false} TargetKeys(k: string, rows: ItemRows, targetIds: seq<string>)
    requires Keyed(rows)
    ensures KeyOfOne(k, ItemsByIds(rows, targetIds)) <==> OfTarget(k, rows, targetIds)
  {
    ItemsByIdsFacts(rows, targetIds);
    if OfTarget(k, rows, targetIds) {
      var item: HungerItem, i :| item.id in targetIds && Find(rows, item.id) == Some(item)
                                 && 0 <= i < item.checks && k == MakeCheckKey(item.id, i);
      assert item in ItemsByIds(rows, targetIds);
    }
  }

  /** An accepted key is checked again exactly if it is a target's, or a ledger item's it leads back to. */
  lemma {:induction false} AgainKeys(k: string, rows: ItemRows, targetIds: seq<string>, previously: set<string>)
    requires Keyed(rows) && DistinctIds(rows.ledger) && Distinct(targetIds) && k in previously
    ensures KeyOfOne(k, DedupById(ItemsByIds(rows, targetIds) + ItemsForKeys(rows.ledger, previously)))
            <==> OfTarget(k, rows, targetIds) || OfOther(k, rows, targetIds)
  {
    var targets, others := ItemsByIds(rows, targetIds), ItemsForKeys(rows.ledger, previously);
    var again := DedupById(targets + others);
    RegressionItems(rows, targetIds, previously);
    TargetKeys(k, rows, targetIds);
    FilterMembers((item: HungerItem) => exists k :: k in previously && ItemIdOf(k) == item.id, rows.ledger);
    ItemsByIdsFacts(rows, targetIds);
    DedupByIdFacts(targets, others);
    if OfOther(k, rows, targetIds) {
      var item: HungerItem, i :| item in rows.ledger && item.id !in targetIds && ':' !in item.id
                                 && 0 <= i < item.checks && k == MakeCheckKey(item.id, i);
      ItemIdOfCheckKey(item.id, i);
      assert item in others;
      OtherComesThrough(rows, targetIds, previously, item);
      assert KeyOfOne(k, again);
    }
    if KeyOfOne(k, again) && !OfTarget(k, rows, targetIds) {
      var item, i :| item in again && 0 <= i < item.checks && k == MakeCheckKey(item.id, i);
      assert item !in targets;
      assert item in others && item in rows.ledger;
      var q :| q in previously && ItemIdOf(q) == item.id;
      ItemIdHasNoColon(q);
    }
  }

  lemma {:induction false} OtherComesThrough(rows: ItemRows, targetIds: seq<string>, previously: set<string>, item: HungerItem)
    requires Keyed(rows) && DistinctIds(rows.ledger) && Distinct(targetIds)
    requires item in rows.ledger && item.id !in targetIds && item in ItemsForKeys(rows.ledger, previously)
    ensures item in DedupById(ItemsByIds(rows, targetIds) + ItemsForKeys(rows.ledger, previously))
  {
    var all := ItemsByIds(rows, targetIds) + ItemsForKeys(rows.ledger, previously);
    assert item in all;
    var n :| 0 <= n < |all| && all[n] == item;
    DedupHasId(all, item.id);
    var again := DedupById(all);
    var j :| 0 <= j < |again| && again[j].id == item.id;
    RegressionItems(rows, targetIds, previously);
    assert again[j] in again;
    ConsultedOnce(rows, targetIds, again[j], item);
  }

  // ---- the raw results -------------------------------------------------------------------------

  ghost predicate Ran(k: string, results: seq<CheckResult>) {
    exists r :: r in results && r.key == k
  }

  lemma {:induction false} CollectedKeys(k: string, items: seq<HungerItem>, was: bool, previously: set<string>, runner: Runner)
    ensures Ran(k, Collect(items, was, previously, runner)) <==> (k in previously) == was && KeyOfOne(k, items)
  {
    if Ran(k, Collect(items, was, previously, runner)) {
      var r :| r in Collect(items, was, previously, runner) && r.key == k;
      CollectMembers(items, was, previously, runner, r);
    }
    if (k in previously) == was && KeyOfOne(k, items) {
      var item, i :| item in items && 0 <= i < item.checks && k == MakeCheckKey(item.id, i);
      var r := Outcome(item, i, previously, runner);
      CollectMembers(items, was, previously, runner, r);
      assert r in Collect(items, was, previously, runner);
    }
  }

  lemma {:induction false} CollectedRuns(items: seq<HungerItem>, was: bool, previously: set<string>, runner: Runner)
    ensures forall r :: r in Collect(items, was, previously, runner) ==>
              r.passed == runner(r.key, 0).passed && r.evidence == runner(r.key, 0).evidence
              && r.newly == (r.passed && r.key !in previously) && r.regressed == (r.key in previously && !r.passed)
  {
    forall r | r in Collect(items, was, previously, runner)
      ensures r.passed == runner(r.key, 0).passed && r.evidence == runner(r.key, 0).evidence
              && r.newly == (r.passed && r.key !in previously) && r.regressed == (r.key in previously && !r.passed)
    {
      CollectMembers(items, was, previously, runner, r);
    }
  }

  lemma {:induction false} PhaseTwoIff(rows: ItemRows, targetIds: seq<string>, previously: set<string>, policy: Policy, runner: Runner)
    requires Keyed(rows)
    ensures var attempts := Collect(ItemsByIds(rows, targetIds), false, previously, runner);
            AnyNewly(attempts) || attempts == [] || policy.continuationEnabled
            <==> Rechecks(rows, targetIds, previously, policy, runner)
  {
    var targets := ItemsByIds(rows, targetIds);
    var attempts := Collect(targets, false, previously, runner);
    CollectedRuns(targets, false, previously, runner);
    forall k ensures Ran(k, attempts) <==> k !in previously && OfTarget(k, rows, targetIds) {
      CollectedKeys(k, targets, false, previously, runner);
      TargetKeys(k, rows, targetIds);
    }
    if attempts != [] { assert attempts[0] in attempts && Ran(attempts[0].key, attempts); }
    if AnyNewly(attempts) {
      var n :| 0 <= n < |attempts| && attempts[n].newly;
      assert attempts[n] in attempts && Ran(attempts[n].key, attempts);
    }
    if k :| OfTarget(k, rows, targetIds) && k !in previously && runner(k, 0).passed {
      assert Ran(k, attempts);
      var r :| r in attempts && r.key == k;
      assert r.newly;
    }
    if k :| OfTarget(k, rows, targetIds) && k !in previously { assert Ran(k, attempts); }
  }

  lemma RawKeys(rows: ItemRows, targetIds: seq<string>, previously: set<string>, policy: Policy, runner: Runner)
    requires Keyed(rows) && DistinctIds(rows.ledger) && Distinct(targetIds)
    ensures var raw := RawResults(rows, targetIds, previously, policy, runner);
            && (forall k :: Ran(k, raw) <==> IsRun(k, rows, targetIds, previously, policy, runner))
            && (forall r :: r in raw ==>
                  r.passed == runner(r.key, 0).passed && r.evidence == runner(r.key, 0).evidence
                  && r.newly == (r.passed && r.key !in previously) && r.regressed == (r.key in previously && !r.passed))
  {
    var targets := ItemsByIds(rows, targetIds);
    var again := DedupById(targets + ItemsForKeys(rows.ledger, previously));
    var attempts, rerun := Collect(targets, false, previously, runner), Collect(again, true, previously, runner);
    var raw := RawResults(rows, targetIds, previously, policy, runner);
    PhaseTwoIff(rows, targetIds, previously, policy, runner);
    CollectedRuns(targets, false, previously, runner);
    CollectedRuns(again, true, previously, runner);
    assert raw == if Rechecks(rows, targetIds, previously, policy, runner) then attempts + rerun else attempts;
    forall k ensures Ran(k, raw) <==> IsRun(k, rows, targetIds, previously, policy, runner) {
      CollectedKeys(k, targets, false, previously, runner);
      CollectedKeys(k, again, true, previously, runner);
      TargetKeys(k, rows, targetIds);
      if k in previously { AgainKeys(k, rows, targetIds, previously); }
      hide Rechecks, KeyOfOne, OfTarget, OfOther, Collect, ItemsByIds, DedupById, ItemsForKeys, RawResults;
      assert Ran(k, attempts + rerun) <==> Ran(k, attempts) || Ran(k, rerun);
    }
  }

  lemma ConfirmedRegressions(raw: seq<CheckResult>, k: string, reruns: int, runner: Runner)
    ensures (exists r :: r in ConfirmAll(raw, reruns, runner) && r.regressed && r.key == k)
            <==> (exists r :: r in raw && r.regressed && r.key == k) && !ConfirmsPass(k, reruns, runner)
  {
    var results := ConfirmAll(raw, reruns, runner);
    if r :| r in results && r.regressed && r.key == k {
      var n :| 0 <= n < |results| && results[n] == r;
      assert raw[n] in raw && raw[n].regressed && raw[n].key == k;
    }
    if (exists r :: r in raw && r.regressed && r.key == k) && !ConfirmsPass(k, reruns, runner) {
      var r :| r in raw && r.regressed && r.key == k;
      var n :| 0 <= n < |raw| && raw[n] == r;
      assert results[n] in results && results[n].regressed && results[n].key == k;
    }
  }

  // ---- what the report says --------------------------------------------------------------------

  /** The checks reported are exactly those to be run. */
  lemma ChecksRunExactly(rows: ItemRows, candidate: Candidate, targetIds: seq<string>, previously: set<string>,
                         policy: Policy, runner: Runner)
    requires Keyed(rows) && DistinctIds(rows.ledger) && Distinct(targetIds)
    ensures var rep := GateReport(rows, candidate, targetIds, previously, policy, runner);
            forall k :: (exists r :: r in rep.results && r.key == k) <==> IsRun(k, rows, targetIds, previously, policy, runner)
  {
    var raw := RawResults(rows, targetIds, previously, policy, runner);
    var results := ConfirmAll(raw, policy.regressionConfirmReruns, runner);
    RawKeys(rows, targetIds, previously, policy, runner);
    forall k ensures Ran(k, results) <==> Ran(k, raw) {
      if r :| r in results && r.key == k {
        var n :| 0 <= n < |results| && results[n] == r;
        assert raw[n] in raw;
      }
      if r :| r in raw && r.key == k {
        var n :| 0 <= n < |raw| && raw[n] == r;
        assert results[n] in results;
      }
    }
    hide RawResults, ConfirmAll;
  }

  /** A key is listed as regressed exactly if it was accepted, is run again and fails for good. */
  lemma RegressedExactly(rows: ItemRows, candidate: Candidate, targetIds: seq<string>, previously: set<string>,
                         policy: Policy, runner: Runner)
    requires Keyed(rows) && DistinctIds(rows.ledger) && Distinct(targetIds)
    ensures var rep := GateReport(rows, candidate, targetIds, previously, policy, runner);
            forall k :: k in rep.regressed <==>
                        && k in previously && (OfTarget(k, rows, targetIds) || OfOther(k, rows, targetIds))
                        && Rechecks(rows, targetIds, previously, policy, runner)
                        && FailsForGood(k, policy.regressionConfirmReruns, runner)
  {
    var raw := RawResults(rows, targetIds, previously, policy, runner);
    var results := ConfirmAll(raw, policy.regressionConfirmReruns, runner);
    var rep := GateReport(rows, candidate, targetIds, previously, policy, runner);
    RawKeys(rows, targetIds, previously, policy, runner);
    KeysWhereFacts(results, IsRegressed());
    assert rep.regressed == KeysWhere(results, IsRegressed());
    hide RawResults, GateReport, KeysWhere;
    forall k ensures k in rep.regressed <==>
                     IsRun(k, rows, targetIds, previously, policy, runner) && k in previously
                     && FailsForGood(k, policy.regressionConfirmReruns, runner)
    {
      ConfirmedRegressions(raw, k, policy.regressionConfirmReruns, runner);
      hide IsRun;
      if Ran(k, raw) && k in previously && !runner(k, 0).passed {
        var r :| r in raw && r.key == k;
        assert r.regressed;
      }
    }
  }

  // ---- evidence and the verdict ----------------------------------------------------------------

  /** Some rerun up to the first failing one leaves `e`. */
  ghost predicate RerunLeaves(k: string, e: string, from: nat, reruns: int, runner: Runner) {
    exists r: nat :: from <= r <= reruns && runner(k, r).evidence == Some(e)
                     && forall s: nat :: 1 <= s < r ==> runner(k, s).passed
  }

  /** Some run of the check, first or rerun, leaves `e`. */
  ghost predicate Leaves(k: string, e: string, previously: set<string>, reruns: int, runner: Runner) {
    && e != ""
    && (runner(k, 0).evidence == Some(e)
        || (k in previously && !runner(k, 0).passed && RerunLeaves(k, e, 1, reruns, runner)))
  }

  lemma {:induction false} RerunEvidenceMembers(k: string, e: string, from: nat, reruns: int, runner: Runner)
    requires from >= 1 && forall s: nat :: 1 <= s < from ==> runner(k, s).passed
    ensures e in RerunEvidence(k, from, reruns, runner) <==> e != "" && RerunLeaves(k, e, from, reruns, runner)
    decreases reruns - from
  {
    if from <= reruns {
      var here := e in EvidenceList(runner(k, from).evidence);
      assert here <==> e != "" && runner(k, from).evidence == Some(e);
      if runner(k, from).passed {
        RerunEvidenceMembers(k, e, from + 1, reruns, runner);
        assert RerunLeaves(k, e, from, reruns, runner) <==>
               runner(k, from).evidence == Some(e) || RerunLeaves(k, e, from + 1, reruns, runner);
      } else {
        assert RerunLeaves(k, e, from, reruns, runner) <==> runner(k, from).evidence == Some(e);
      }
    }
  }

  lemma {:induction false} RunEvidenceMembers(results: seq<CheckResult>, e: string)
    ensures e in RunEvidence(results) <==> e != "" && exists r :: r in results && r.evidence == Some(e)
  {
    if results != [] {
      assert results == results[..|results| - 1] + [results[|results| - 1]];
      RunEvidenceMembers(results[..|results| - 1], e);
    }
  }

  lemma {:induction false} ConfirmEvidenceMembers(results: seq<CheckResult>, e: string, reruns: int, runner: Runner)
    ensures e in ConfirmEvidence(results, reruns, runner) <==>
            e != "" && exists r :: r in results && r.regressed && RerunLeaves(r.key, e, 1, reruns, runner)
  {
    if results != [] {
      var last := results[|results| - 1];
      assert results == results[..|results| - 1] + [last];
      ConfirmEvidenceMembers(results[..|results| - 1], e, reruns, runner);
      RerunEvidenceMembers(last.key, e, 1, reruns, runner);
    }
  }

  lemma {:induction false} EvidenceOfRaw(raw: seq<CheckResult>, e: string, previously: set<string>, reruns: int, runner: Runner)
    requires forall r :: r in raw ==> r.passed == runner(r.key, 0).passed && r.evidence == runner(r.key, 0).evidence
                                      && r.regressed == (r.key in previously && !r.passed)
    ensures e in RunEvidence(raw) || e in ConfirmEvidence(raw, reruns, runner) <==>
            exists k :: Ran(k, raw) && Leaves(k, e, previously, reruns, runner)
  {
    RunEvidenceMembers(raw, e);
    ConfirmEvidenceMembers(raw, e, reruns, runner);
    hide RerunLeaves, RunEvidence, ConfirmEvidence;
    forall r | r in raw
      ensures Ran(r.key, raw)
      ensures Leaves(r.key, e, previously, reruns, runner) <==>
              e != "" && (r.evidence == Some(e) || (r.regressed && RerunLeaves(r.key, e, 1, reruns, runner)))
    {
    }
  }

  /** The report names, once each, exactly the evidence the candidate brings and the runs of its checks leave; it
      is missing exactly if there is none. */
  lemma EvidenceExactly(rows: ItemRows, candidate: Candidate, targetIds: seq<string>, previously: set<string>,
                        policy: Policy, runner: Runner)
    requires Keyed(rows) && DistinctIds(rows.ledger) && Distinct(targetIds)
    ensures var rep := GateReport(rows, candidate, targetIds, previously, policy, runner);
            && (forall e :: e in rep.evidenceIds <==>
                  || e in candidate.evidenceIds
                  || exists k :: IsRun(k, rows, targetIds, previously, policy, runner)
                                 && Leaves(k, e, previously, policy.regressionConfirmReruns, runner))
            && Distinct(rep.evidenceIds) && (rep.missingEvidence <==> rep.evidenceIds == [])
  {
    var raw := RawResults(rows, targetIds, previously, policy, runner);
    var rep := GateReport(rows, candidate, targetIds, previously, policy, runner);
    var reruns := policy.regressionConfirmReruns;
    var all := candidate.evidenceIds + RunEvidence(raw) + ConfirmEvidence(raw, reruns, runner);
    assert rep.evidenceIds == Dedup(all) && rep.missingEvidence == (all == []);
    hide GateReport;
    DedupFacts(all);
    assert all != [] ==> all[0] in Dedup(all);
    RawKeys(rows, targetIds, previously, policy, runner);
    hide RawResults, IsRun, Leaves, RunEvidence, ConfirmEvidence, Dedup;
    forall e ensures e in rep.evidenceIds <==>
                     || e in candidate.evidenceIds
                     || exists k :: IsRun(k, rows, targetIds, previously, policy, runner) && Leaves(k, e, previously, reruns, runner)
    {
      EvidenceOfRaw(raw, e, previously, reruns, runner);
      hide Ran;
    }
  }

  predicate LeavesSome(run: Run) {
    run.evidence.Some? && run.evidence.value != ""
  }

  /** The last evidence the reruns from `from` on leave, or that of the first run if they leave none. */
  ghost predicate LastLeft(k: string, from: nat, reruns: int, runner: Runner, evidence: Option<string>) {
    || (evidence == runner(k, 0).evidence && forall s: nat :: from <= s <= reruns ==> !LeavesSome(runner(k, s)))
    || (exists r: nat :: from <= r <= reruns && LeavesSome(runner(k, r)) && evidence == runner(k, r).evidence
                         && forall s: nat :: r < s <= reruns ==> !LeavesSome(runner(k, s)))
  }

  lemma {:induction false} LastOfReruns(k: string, from: nat, reruns: int, runner: Runner)
    requires forall r: nat :: from <= r <= reruns ==> runner(k, r).passed
    ensures LastLeft(k, from, reruns, runner, LastOr(RerunEvidence(k, from, reruns, runner), runner(k, 0).evidence))
    decreases reruns - from
  {
    if from <= reruns {
      LastOfReruns(k, from + 1, reruns, runner);
      var here, later := EvidenceList(runner(k, from).evidence), RerunEvidence(k, from + 1, reruns, runner);
      assert RerunEvidence(k, from, reruns, runner) == here + later;
      RerunsLeave(k, from + 1, reruns, runner);
      if later == [] && here != [] {
        assert LastLeft(k, from, reruns, runner, runner(k, from).evidence);
      } else if later != [] {
        var r: nat :| from + 1 <= r <= reruns && LeavesSome(runner(k, r)) && Some(later[|later| - 1]) == runner(k, r).evidence
                      && forall s: nat :: r < s <= reruns ==> !LeavesSome(runner(k, s));
        assert LastLeft(k, from, reruns, runner, runner(k, r).evidence);
      }
    }
  }

  lemma {:induction false} RerunsLeave(k: string, from: nat, reruns: int, runner: Runner)
    requires forall r: nat :: from <= r <= reruns ==> runner(k, r).passed
    ensures RerunEvidence(k, from, reruns, runner) == [] <==> forall s: nat :: from <= s <= reruns ==> !LeavesSome(runner(k, s))
    decreases reruns - from
  {
    if from <= reruns { RerunsLeave(k, from + 1, reruns, runner); }
  }

  /** What a result says of its check: passed on the first run, or on all reruns of an accepted check, which then
      show the evidence they left last. */
  lemma ResultsExactly(rows: ItemRows, candidate: Candidate, targetIds: seq<string>, previously: set<string>,
                       policy: Policy, runner: Runner)
    requires Keyed(rows) && DistinctIds(rows.ledger) && Distinct(targetIds)
    ensures var (rep, reruns) := (GateReport(rows, candidate, targetIds, previously, policy, runner), policy.regressionConfirmReruns);
            forall r :: r in rep.results ==>
              var was, first := r.key in previously, runner(r.key, 0);
              && (r.passed <==> first.passed || (was && !FailsForGood(r.key, reruns, runner)))
              && (r.newly <==> !was && first.passed) && (r.regressed <==> was && FailsForGood(r.key, reruns, runner))
              && (if r.passed && !first.passed then LastLeft(r.key, 1, reruns, runner, r.evidence) else r.evidence == first.evidence)
  {
    var raw, reruns := RawResults(rows, targetIds, previously, policy, runner), policy.regressionConfirmReruns;
    var results := ConfirmAll(raw, reruns, runner);
    RawKeys(rows, targetIds, previously, policy, runner);
    assert GateReport(rows, candidate, targetIds, previously, policy, runner).results == results;
    hide GateReport, RawResults, LastLeft, RerunEvidence, LastOr;
    forall r | r in results
      ensures (r.passed <==> runner(r.key, 0).passed || (r.key in previously && !FailsForGood(r.key, reruns, runner)))
      ensures r.newly <==> r.key !in previously && runner(r.key, 0).passed
      ensures r.regressed <==> r.key in previously && FailsForGood(r.key, reruns, runner)
      ensures if r.passed && !runner(r.key, 0).passed then LastLeft(r.key, 1, reruns, runner, r.evidence)
              else r.evidence == runner(r.key, 0).evidence
    {
      var i :| 0 <= i < |results| && results[i] == r;
      assert raw[i] in raw && r.key == raw[i].key;
      if raw[i].regressed && ConfirmsPass(r.key, reruns, runner) { LastOfReruns(r.key, 1, reruns, runner); }
    }
  }

  /** The targets found fall into satisfied and unsatisfied by their own results. */
  lemma TargetsSplitExactly(rows: ItemRows, candidate: Candidate, targetIds: seq<string>, previously: set<string>,
                            policy: Policy, runner: Runner)
    requires Keyed(rows) && Distinct(targetIds)
    ensures var rep := GateReport(rows, candidate, targetIds, previously, policy, runner);
            && (forall item: HungerItem :: item.id in targetIds && Find(rows, item.id) == Some(item) ==>
                  && (item.id in rep.satisfied <==>
                        (exists r :: r in rep.results && r.itemId == item.id && r.passed)
                        && (item.mode == ModeAll ==> forall r :: r in rep.results && r.itemId == item.id ==> r.passed))
                  && (item.id in rep.unsatisfied <==> item.id !in rep.satisfied))
            && (forall id :: id in rep.satisfied || id in rep.unsatisfied ==> id in targetIds && Find(rows, id).Some?)
  {
    var rep := GateReport(rows, candidate, targetIds, previously, policy, runner);
    var results, targets := Results(rows, targetIds, previously, policy, runner), ItemsByIds(rows, targetIds);
    assert rep.results == results && rep.satisfied == IdsOf(Filter(SatisfiedIn(results, true), targets))
           && rep.unsatisfied == IdsOf(Filter(SatisfiedIn(results, false), targets));
    hide GateReport, Results;
    ItemsByIdsFacts(rows, targetIds);
    hide Filter, IdsOf, ItemsByIds;
    forall id
      ensures id in rep.satisfied <==> exists t :: t in targets && t.id == id && Satisfies(t, results)
      ensures id in rep.unsatisfied <==> exists t :: t in targets && t.id == id && !Satisfies(t, results)
    {
      SplitIds(targets, results, true, id);
      SplitIds(targets, results, false, id);
    }
    forall item: HungerItem | item.id in targetIds && Find(rows, item.id) == Some(item)
      ensures item in targets && forall t :: t in targets && t.id == item.id ==> t == item
    {
      OneRowPerId(targets, item);
    }
  }

  lemma {:induction false} SplitIds(targets: seq<HungerItem>, results: seq<CheckResult>, yes: bool, id: string)
    ensures id in IdsOf(Filter(SatisfiedIn(results, yes), targets)) <==>
            exists t :: t in targets && t.id == id && Satisfies(t, results) == yes
  {
    FilterMembers(SatisfiedIn(results, yes), targets);
    IdsMembers(Filter(SatisfiedIn(results, yes), targets));
    hide Filter, IdsOf, Satisfies;
  }

  /** The verdict: a pass needs every target satisfied, a partial one a newly passed check, and both that nothing regressed
      and evidence is there. */
  lemma VerdictExactly(rows: ItemRows, candidate: Candidate, targetIds: seq<string>, previously: set<string>,
                       policy: Policy, runner: Runner)
    ensures var rep := GateReport(rows, candidate, targetIds, previously, policy, runner);
            && (rep.verdict == PASS <==>
                  rep.regressed == [] && !rep.missingEvidence && rep.satisfied != [] && rep.unsatisfied == [])
            && (rep.verdict == PARTIAL <==>
                  rep.regressed == [] && !rep.missingEvidence && (rep.satisfied == [] || rep.unsatisfied != []) && rep.newly != [])
  {
    var rep := GateReport(rows, candidate, targetIds, previously, policy, runner);
    assert rep.verdict == DecideVerdict(rep.newly, rep.regressed, rep.missingEvidence, rep.satisfied, rep.unsatisfied);
    hide GateReport;
  }

  lemma IdsMembers(items: seq<HungerItem>)
    ensures forall id :: id in IdsOf(items) <==> exists t :: t in items && t.id == id
  {
    forall id ensures id in IdsOf(items) <==> exists t :: t in items && t.id == id {
      if id in IdsOf(items) {
        var i :| 0 <= i < |items| && IdsOf(items)[i] == id;
        assert items[i] in items;
      }
      if t :| t in items && t.id == id {
        var i :| 0 <= i < |items| && items[i] == t;
        assert IdsOf(items)[i] == id;
      }
    }
  }

  lemma OneRowPerId(items: seq<HungerItem>, item: HungerItem)
    requires DistinctIds(items) && item in items
    ensures forall t :: t in items && t.id == item.id ==> t == item
  {
    forall t | t in items && t.id == item.id ensures t == item {
      var i :| 0 <= i < |items| && items[i] == t;
      var j :| 0 <= j < |items| && items[j] == item;
    }
  }
}
