// The records of one task, as the services read and write them.
module Domain {
  import opened CheckKeys
  import opened Ordering

  datatype Option<T> = None | Some(value: T)

  datatype Verdict = PASS | PARTIAL | FAIL
  datatype StopReason =
    DONE | HUNGER_EXPIRED | BUDGET_EXHAUSTED | STOP_BLOCKED | HUMAN_REQUIRED | HUMAN_PAUSED | SAFETY_STOP | ERROR
  datatype ItemStatus = OPEN | WORKING | BLOCKED | PAUSED | CLOSED | VALIDATED_SATISFIED
  datatype FeatureStatus = FeaturePending | FeatureInProgress | FeatureDone | FeatureBlocked
  datatype AcceptanceMode = ModeAll | ModeAny

  /** models/hunger.py HungerItem; of an acceptance check only its existence matters here. */
  datatype HungerItem = HungerItem(
    id: string, priority: real, gapScore: real, status: ItemStatus, checks: nat, mode: AcceptanceMode,
    failures: nat, lastProgressLoop: Option<int>, evidenceIds: seq<string>, updatedAtLoop: int,
    tier: int, generatedBy: Option<string>)

  datatype DecayType = LINEAR | LOOP_COUNT | STAGE_BASED
  datatype CompletionMode = STOP_ON_DONE | SPEND_BUDGET

  datatype Policy = Policy(
    initialHunger: real, hMax: real, decayType: DecayType, decayDuration: real, startedAt: Option<real>,
    maxCost: real, maxTokens: int, completionMode: CompletionMode,
    respectStagnation: bool, regressionConfirmReruns: int,
    continuationEnabled: bool, continuationMaxChain: int,
    refactorEnabled: bool, maxDeclared: int, refactorDeadlineLoops: int,
    autoOpenEnabled: bool, autoOpenMinNewly: int)

  datatype Clock = Clock(loopCount: int, frozen: bool, cost: real, tokens: int, manuallyCleared: bool)

  datatype CheckResult = CheckResult(
    itemId: string, index: nat, key: string, passed: bool, previously: bool, newly: bool, regressed: bool,
    evidence: Option<string>)

  /** models/validation.py ValidationReport. `current` is a sorted set in the source. */
  datatype Report = Report(
    id: string, loopId: int, candidateId: string, verdict: Verdict, attempted: seq<string>,
    results: seq<CheckResult>, current: set<string>, newly: seq<string>, regressed: seq<string>,
    satisfied: seq<string>, unsatisfied: seq<string>, evidenceIds: seq<string>, missingEvidence: bool,
    hasRealProgress: bool)

  datatype BestState = BestState(
    stateId: string, evidenceIds: seq<string>, validationId: string, updatedAtLoop: int, accepted: set<string>)

  datatype Candidate = Candidate(id: string, loopId: int, evidenceIds: seq<string>)

  datatype TxnStatus = TxnOpen | ClosedSuccess | RolledBack
  datatype Transaction = Transaction(
    sameTask: bool, status: TxnStatus, declared: seq<string>, baseline: BestState, deadlineLoop: int)

  function Elements<T>(s: seq<T>): set<T> {
    set x | x in s
  }

  // ---- ledger predicates (models/hunger.py) ---------------------------------------------

  predicate Active(item: HungerItem) {
    item.status !in {CLOSED, PAUSED, BLOCKED} && item.gapScore > 0.0
  }

  predicate Unfinished(item: HungerItem) {
    item.status !in {CLOSED, VALIDATED_SATISFIED} && item.gapScore > 0.0
  }

  predicate IsDone(items: seq<HungerItem>) {
    forall i :: 0 <= i < |items| ==> !Unfinished(items[i])
  }

  predicate AllRemainingBlocked(items: seq<HungerItem>) {
    && !IsDone(items)
    && forall i :: 0 <= i < |items| ==> Unfinished(items[i]) ==> items[i].status == BLOCKED
  }

  // ---- items and keys ------------------------------------------------------------------

  ghost predicate DistinctIds(items: seq<HungerItem>) {
    forall i, j :: 0 <= i < j < |items| ==> items[i].id != items[j].id
  }

  /** Ids that survive the `key.split(":", 1)` of every reader. */
  ghost predicate ReadableIds(items: seq<HungerItem>) {
    forall i :: 0 <= i < |items| ==> ':' !in items[i].id
  }

  /** The ledger's entry of that id. */
  function Lookup(items: seq<HungerItem>, id: string): Option<HungerItem> {
    if items == [] then None
    else if items[|items| - 1].id == id then Some(items[|items| - 1])
    else Lookup(items[..|items| - 1], id)
  }

  lemma {:induction false} LookupFacts(items: seq<HungerItem>, id: string)
    ensures Lookup(items, id).Some? ==> Lookup(items, id).value in items && Lookup(items, id).value.id == id
    ensures Lookup(items, id).None? ==> forall i :: 0 <= i < |items| ==> items[i].id != id
    ensures forall i :: 0 <= i < |items| && DistinctIds(items) && items[i].id == id ==>
              Lookup(items, id) == Some(items[i])
  {
    if items != [] {
      LookupFacts(items[..|items| - 1], id);
    }
  }

  /** The rows of `hunger_items` that matter to one task. Its key is (task, item), so tasks share ids:
      `others` holds the rows of other tasks that are newer than any row this task has of that id, and
      `copies` this task's rows of ids its ledger does not hold. */
  datatype ItemRows = ItemRows(ledger: seq<HungerItem>, others: map<string, HungerItem>, copies: map<string, HungerItem>)

  /** `repo.get_hunger_item`: the newest row of that id, whichever task it belongs to. */
  function Find(rows: ItemRows, id: string): Option<HungerItem> {
    if id in rows.others then Some(rows.others[id])
    else
      var own := Lookup(rows.ledger, id);
      if own.Some? then own else if id in rows.copies then Some(rows.copies[id]) else None
  }

  predicate HasId(items: seq<HungerItem>, id: string) {
    exists i :: 0 <= i < |items| && items[i].id == id
  }

  lemma HasIdAppend(items: seq<HungerItem>, item: HungerItem, id: string)
    ensures HasId(items + [item], id) <==> HasId(items, id) || item.id == id
  {
    var more := items + [item];
    if i :| 0 <= i < |items| && items[i].id == id { assert more[i].id == id; }
    assert more[|items|].id == item.id;
  }

  ghost predicate Keyed(rows: ItemRows) {
    && (forall id :: id in rows.others ==> rows.others[id].id == id)
    && (forall id :: id in rows.copies ==> rows.copies[id].id == id)
  }

  lemma FindFacts(rows: ItemRows, id: string)
    requires Keyed(rows)
    ensures Find(rows, id).Some? ==> Find(rows, id).value.id == id
    ensures Find(rows, id).None? <==> !HasId(rows.ledger, id) && id !in rows.others && id !in rows.copies
    ensures id !in rows.others ==> forall t :: t in rows.ledger && t.id == id && DistinctIds(rows.ledger) ==>
              Find(rows, id) == Some(t)
  {
    LookupFacts(rows.ledger, id);
  }

  function KeysOf(item: HungerItem): set<string> {
    set i | 0 <= i < item.checks :: MakeCheckKey(item.id, i)
  }

  /** The item's acceptance rule, read off a set of passing keys. */
  predicate Met(item: HungerItem, passing: set<string>) {
    match item.mode
    case ModeAll => KeysOf(item) <= passing
    case ModeAny => KeysOf(item) * passing != {}
  }

  /** How many keys of the list belong to the item: `progress_by_item[id]`. */
  function CountFor(keys: seq<string>, id: string): nat {
    if keys == [] then 0
    else CountFor(keys[..|keys| - 1], id)
         + if HasColon(keys[|keys| - 1]) && ItemIdOf(keys[|keys| - 1]) == id then 1 else 0
  }

  /** Every report that reaches CommitManager is meant to satisfy this against the baseline keys. */
  ghost predicate ReportsAgainst(rep: Report, baseline: set<string>) {
    && Elements(rep.regressed) <= baseline
    && Distinct(rep.newly) && Elements(rep.newly) !! baseline
    && rep.current == (baseline - Elements(rep.regressed)) + Elements(rep.newly)
  }
}
