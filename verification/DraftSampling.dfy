// loop_orchestrator._run_draft_sampling: k worker passes, one kept.
module DraftSampling {
  import opened Domain
  import opened CheckKeys
  import opened Ordering
  import opened CommitSelection
  import CommitManager

  // ---- tables with a primary key --------------------------------------------------------------

  datatype Row<T> = Row(id: string, body: T)

  function Rows<T>(rows: seq<Row<T>>): map<string, T> {
    if rows == [] then map[]
    else var last := rows[|rows| - 1]; Rows(rows[..|rows| - 1])[last.id := last.body]
  }

  /** No primary-key conflict with the table or within the list. */
  ghost predicate NewRows<T>(table: map<string, T>, rows: seq<Row<T>>) {
    && (forall i :: 0 <= i < |rows| ==> rows[i].id !in table)
    && (forall i, j :: 0 <= i < j < |rows| ==> rows[i].id != rows[j].id)
  }

  lemma {:induction false} RowsFacts<T>(rows: seq<Row<T>>)
    ensures forall id :: id in Rows(rows) ==> Row(id, Rows(rows)[id]) in rows
    ensures forall r :: r in rows ==> r.id in Rows(rows)
  {
    if rows != [] {
      RowsFacts(rows[..|rows| - 1]);
      assert rows == rows[..|rows| - 1] + [rows[|rows| - 1]];
    }
  }

  /** Distinct rows are found under their own id. */
  lemma {:induction false} RowFound<T>(table: map<string, T>, rows: seq<Row<T>>, r: Row<T>)
    requires NewRows(table, rows) && r in rows
    ensures r.id in Rows(rows) && Rows(rows)[r.id] == r.body && r.id !in table
  {
    RowsFacts(rows);
    var i :| 0 <= i < |rows| && rows[i] == r;
    var j :| 0 <= j < |rows| && rows[j] == Row(r.id, Rows(rows)[r.id]);
    assert rows[i].id == rows[j].id;
  }

  lemma {:induction false} RowsAppend<T>(a: seq<Row<T>>, b: seq<Row<T>>)
    ensures Rows(a + b) == Rows(a) + Rows(b)
  {
    if b == [] {
      assert a + b == a;
    } else {
      RowsAppend(a, b[..|b| - 1]);
      assert (a + b)[..|a + b| - 1] == a + b[..|b| - 1];
    }
  }

  lemma {:induction false} NewRowsSplit<T>(table: map<string, T>, a: seq<Row<T>>, b: seq<Row<T>>)
    ensures NewRows(table, a + b) <==> NewRows(table, a) && NewRows(table + Rows(a), b)
  {
    RowsFacts(a);
    var s := a + b;
    if NewRows(table, s) {
      assert forall i :: 0 <= i < |a| ==> a[i] == s[i];
      forall i | 0 <= i < |b| ensures b[i].id !in table + Rows(a) {
        assert b[i] == s[|a| + i];
        assert forall j :: 0 <= j < |a| ==> s[j].id != s[|a| + i].id;
      }
      forall i, j | 0 <= i < j < |b| ensures b[i].id != b[j].id {
        assert b[i] == s[|a| + i] && b[j] == s[|a| + j];
      }
    }
    if NewRows(table, a) && NewRows(table + Rows(a), b) {
      forall i, j | 0 <= i < j < |s| ensures s[i].id != s[j].id {
        if i < |a| <= j {
          assert s[i] in a && s[j] == b[j - |a|];
        } else if j < |a| {
          assert s[i] == a[i] && s[j] == a[j];
        } else {
          assert s[i] == b[i - |a|] && s[j] == b[j - |a|];
        }
      }
    }
  }

  lemma OneMoreRow<T>(table: map<string, T>, rows: seq<Row<T>>, i: nat)
    requires i < |rows| && NewRows(table, rows[..i])
    ensures Rows(rows[..i + 1]) == Rows(rows[..i])[rows[i].id := rows[i].body]
    ensures NewRows(table, rows[..i + 1]) <==> rows[i].id !in table + Rows(rows[..i])
    ensures rows[i].id in table + Rows(rows[..i]) ==> !NewRows(table, rows)
  {
    hide NewRows;
    var next := rows[..i + 1];
    assert next[..i] == rows[..i] && next[i] == rows[i] && next == rows[..i] + [rows[i]];
    NewRowsSplit(table, rows[..i], [rows[i]]);
    NewRowsSplit(table, next, rows[i + 1..]);
    assert next + rows[i + 1..] == rows;
    NewRow(table + Rows(rows[..i]), rows[i]);
  }

  lemma NewRow<T>(table: map<string, T>, r: Row<T>)
    ensures NewRows(table, [r]) <==> r.id !in table
  {
    assert [r][0] == r;
  }

  /** INSERT after INSERT; a key conflict stops half-way. */
  method InsertAll<T>(table: map<string, T>, rows: seq<Row<T>>) returns (after: map<string, T>, ok: bool)
    ensures ok == NewRows(table, rows)
    ensures ok ==> after == table + Rows(rows)
    ensures forall id :: id in table ==> id in after && after[id] == table[id]
    ensures forall id :: id in after && id !in table ==> Row(id, after[id]) in rows
  {
    hide NewRows;
    after := table;
    NoRows(table);
    for i := 0 to |rows|
      invariant NewRows(table, rows[..i]) && after == table + Rows(rows[..i])
      invariant forall id :: id in table ==> id in after && after[id] == table[id]
      invariant forall id :: id in after && id !in table ==> Row(id, after[id]) in rows
    {
      OneMoreRow(table, rows, i);
      if rows[i].id in after { return after, false; }
      after := after[rows[i].id := rows[i].body];
      assert Row(rows[i].id, rows[i].body) == rows[i] && rows[i] in rows;
    }
    assert rows[..|rows|] == rows;
    return after, true;
  }

  // ---- handoffs, evidence, drafts ----------------------------------------------------------------

  datatype Handoff = Handoff(loopId: int, payload: string)
  datatype Evidence = ToolCall(success: Option<bool>) | OtherEvidence

  /** One worker pass as it went in this loop: the handoff rows it inserts (one per attempt), the handoffs
      it hands back (one per assignment), the evidence it records, and the report on its tree. The passes
      share the assignment and its retry count, so a pass after one that retried starts with fewer retries
      left than it would have alone; "a single run" below means this very pass. */
  datatype Draft = Draft(saved: seq<Row<Handoff>>, finals: seq<Row<Handoff>>, evidence: seq<Row<Evidence>>,
                         report: Report)

  predicate ShouldDraftSample(k: int, hasAssignments: bool, accepted: seq<string>, priorTraces: nat) {
    k > 1 && hasAssignments && accepted == [] && priorTraces == 0
  }

  /** Drafts are for a first loop with work: no trace yet, nothing accepted, and two drafts at least. */
  lemma SamplesAtColdStart(k: int, hasAssignments: bool, accepted: seq<string>, priorTraces: nat)
    ensures !ShouldDraftSample(k, hasAssignments, accepted, priorTraces) <==>
            k < 2 || !hasAssignments || |accepted| > 0 || priorTraces > 0
  {
  }

  /** The two evidence streams a later prompt can show. */
  predicate Tracked(id: string, e: Evidence) {
    e.ToolCall? && e.success.Some? && id != ""
  }

  function OtherLoops(table: map<string, Handoff>, loopId: int): map<string, Handoff> {
    map id | id in table && table[id].loopId != loopId :: table[id]
  }

  lemma OtherLoopsExactly(table: map<string, Handoff>, loopId: int)
    ensures forall id :: id in OtherLoops(table, loopId) <==> id in table && table[id].loopId != loopId
    ensures forall id :: id in OtherLoops(table, loopId) ==> OtherLoops(table, loopId)[id] == table[id]
  {
  }

  function TrackedIds(table: map<string, Evidence>): set<string> {
    set id | id in table && Tracked(id, table[id]) :: id
  }

  function TrackedOf(rows: seq<Row<Evidence>>): set<string> {
    set r | r in rows && Tracked(r.id, r.body) :: r.id
  }

  ghost predicate RowsOfLoop(rows: seq<Row<Handoff>>, loopId: int) {
    forall r :: r in rows ==> r.body.loopId == loopId
  }

  ghost predicate OfLoop(drafts: seq<Draft>, loopId: int) {
    forall i :: 0 <= i < |drafts| ==> RowsOfLoop(drafts[i].saved, loopId) && RowsOfLoop(drafts[i].finals, loopId)
  }

  // ---- the choice -------------------------------------------------------------------------------

  function EvaluationId(probeId: string, index: nat): string {
    probeId + "-d" + Decimal(index)
  }

  function Evaluations(probeId: string, drafts: seq<Draft>): (evs: seq<Evaluation>)
    ensures |evs| == |drafts|
  {
    seq(|drafts|, i requires 0 <= i < |drafts| => FromReport(EvaluationId(probeId, i + 1), drafts[i].report))
  }

  /** The gate's choice, or the fallback when nothing passes. */
  function Favourite(evs: seq<Evaluation>): (ev: Evaluation)
    requires evs != []
    ensures ev in evs
  {
    SelectIsLeast(evs);
    FallbackIsLeast(evs);
    if Select(evs).Some? then Select(evs).value else Fallback(evs).value
  }

  function IndexOf(evs: seq<Evaluation>, ev: Evaluation): (i: nat)
    requires ev in evs
    ensures i < |evs| && evs[i] == ev
  {
    if evs[0] == ev then 0 else 1 + IndexOf(evs[1..], ev)
  }

  function Winner(probeId: string, drafts: seq<Draft>): (w: nat)
    requires drafts != []
    ensures w < |drafts|
  {
    IndexOf(Evaluations(probeId, drafts), Favourite(Evaluations(probeId, drafts)))
  }

  /** The drafts' evaluation ids never clash, so the selection order separates them. */
  lemma EvaluationIdsDistinct(probeId: string, drafts: seq<Draft>)
    ensures DistinctCandidates(Evaluations(probeId, drafts))
  {
    var evs := Evaluations(probeId, drafts);
    forall i, j | 0 <= i < j < |evs| ensures evs[i].id != evs[j].id {
      var a, b := evs[i].id, evs[j].id;
      if a == b {
        assert a[|probeId| + 2..] == Decimal(i + 1) && b[|probeId| + 2..] == Decimal(j + 1);
        DecimalInjective(i + 1, j + 1);
      }
    }
  }

  /** The winner could be committed whenever any draft could; and no draft of its kind (gate
      passing, or any when none passes) comes before it in the selection order. */
  lemma WinnerIsBest(probeId: string, drafts: seq<Draft>, policy: Policy, i: nat)
    requires i < |drafts|
    ensures var evs, w := Evaluations(probeId, drafts), Winner(probeId, drafts);
            && (CommitManager.CanCommit(drafts[i].report, policy, None) ==>
                  CommitManager.CanCommit(drafts[w].report, policy, None) && KeyLe(evs[w], evs[i]))
            && (!CommitManager.CanCommit(drafts[w].report, policy, None) ==> KeyLe(evs[w], evs[i]))
  {
    var evs := Evaluations(probeId, drafts);
    FallbackIsLeast(evs);
    SelectIsLeast(evs);
    var w := Winner(probeId, drafts);
    assert PassesGate(evs[i]) == CommitManager.CanCommit(drafts[i].report, policy, None);
    assert PassesGate(evs[w]) == CommitManager.CanCommit(drafts[w].report, policy, None);
    hide KeyLe, Select, Fallback, PassesGate, CommitManager.CanCommit;
    assert evs[w] == Favourite(evs) && evs[i] in evs;
  }

  /** How many distinct checks a draft's report lists as newly passed, and how many as not passing. */
  function NewlyCount(d: Draft): nat { |Elements(d.report.newly)| }
  function FailingCount(d: Draft): nat { |set r | r in d.report.results && !r.passed :: r.key| }

  /** Of the drafts that could be committed, or of all if none could, the one kept has the most newly passed checks;
      of those with as many the fewest failing; and of those equal in both the least evaluation id. */
  lemma WinnerHasTheMost(probeId: string, drafts: seq<Draft>, policy: Policy, i: nat)
    requires i < |drafts|
    ensures var w := Winner(probeId, drafts);
            var rival := CommitManager.CanCommit(drafts[i].report, policy, None) || !CommitManager.CanCommit(drafts[w].report, policy, None);
            rival ==>
              && NewlyCount(drafts[i]) <= NewlyCount(drafts[w])
              && (NewlyCount(drafts[i]) == NewlyCount(drafts[w]) ==> FailingCount(drafts[w]) <= FailingCount(drafts[i]))
              && (NewlyCount(drafts[i]) == NewlyCount(drafts[w]) && FailingCount(drafts[i]) == FailingCount(drafts[w]) ==>
                    StrLe(EvaluationId(probeId, w + 1), EvaluationId(probeId, i + 1)))
  {
    var evs, w := Evaluations(probeId, drafts), Winner(probeId, drafts);
    WinnerIsBest(probeId, drafts, policy, i);
    FailingKeysFacts(drafts[i].report.results);
    FailingKeysFacts(drafts[w].report.results);
    hide Winner, CommitManager.CanCommit, FailingKeys, StrLe;
    assert Elements(evs[i].failing) == set r | r in drafts[i].report.results && !r.passed :: r.key;
    assert Elements(evs[w].failing) == set r | r in drafts[w].report.results && !r.passed :: r.key;
  }

  // ---- the store afterwards ------------------------------------------------------------------------

  function AllEvidence(drafts: seq<Draft>): seq<Row<Evidence>> {
    if drafts == [] then [] else AllEvidence(drafts[..|drafts| - 1]) + drafts[|drafts| - 1].evidence
  }

  /** Tool-call evidence of every draft but the winner. */
  function LoserIds(drafts: seq<Draft>, w: nat): set<string> {
    set i, id | 0 <= i < |drafts| && i != w && id in TrackedOf(drafts[i].evidence) :: id
  }

  function EvidenceAfter(evidence: map<string, Evidence>, drafts: seq<Draft>, w: nat): map<string, Evidence> {
    (evidence + Rows(AllEvidence(drafts))) - LoserIds(drafts, w)
  }

  /** No insert of the whole sampling meets a key that is already there. */
  ghost predicate NoConflict(handoffs: map<string, Handoff>, evidence: map<string, Evidence>, loopId: int,
                             probeId: string, drafts: seq<Draft>)
    requires drafts != []
  {
    && NewRows(handoffs, drafts[0].saved)
    && (forall i :: 0 < i < |drafts| ==> NewRows(OtherLoops(handoffs, loopId), drafts[i].saved))
    && NewRows(evidence, AllEvidence(drafts))
    && NewRows(OtherLoops(handoffs, loopId), drafts[Winner(probeId, drafts)].finals)
  }

  lemma {:induction false} TrackedAfterInsert(table: map<string, Evidence>, rows: seq<Row<Evidence>>)
    requires NewRows(table, rows)
    ensures TrackedIds(table + Rows(rows)) - TrackedIds(table) == TrackedOf(rows)
  {
    RowsFacts(rows);
    forall r | r in rows ensures r.id in Rows(rows) && Rows(rows)[r.id] == r.body && r.id !in table {
      RowFound(table, rows, r);
    }
  }

  class Sampler {
    var handoffs: map<string, Handoff>
    var evidence: map<string, Evidence>

    constructor (handoffs: map<string, Handoff>, evidence: map<string, Evidence>)
      ensures this.handoffs == handoffs && this.evidence == evidence
    {
      this.handoffs, this.evidence := handoffs, evidence;
    }

    /** One draft: clear the previous draft's rows, run the pass, note whose evidence is whose. */
    method RunDraft(loopId: int, first: bool, draft: Draft) returns (ok: bool, owned: set<string>)
      requires RowsOfLoop(draft.saved, loopId)
      modifies this
      ensures OtherLoops(handoffs, loopId) == OtherLoops(old(handoffs), loopId)
      ensures ok == (NewRows(if first then old(handoffs) else OtherLoops(old(handoffs), loopId), draft.saved)
                     && NewRows(old(evidence), draft.evidence))
      ensures forall id :: id in old(evidence) ==> id in evidence && evidence[id] == old(evidence)[id]
      ensures ok ==> evidence == old(evidence) + Rows(draft.evidence) && owned == TrackedOf(draft.evidence)
    {
      owned := {};
      if !first { handoffs := OtherLoops(handoffs, loopId); }
      var before := TrackedIds(evidence);
      handoffs, ok := InsertAll(handoffs, draft.saved);
      if !ok { return; }
      evidence, ok := InsertAll(evidence, draft.evidence);
      if !ok { return; }
      TrackedAfterInsert(old(evidence), draft.evidence);
      owned := TrackedIds(evidence) - before;
    }

    /** The atomic settle: the loop's rows become the winner's, the losers' evidence goes. */
    method Settle(loopId: int, finals: seq<Row<Handoff>>, losers: set<string>) returns (ok: bool)
      modifies this
      ensures ok == NewRows(OtherLoops(old(handoffs), loopId), finals)
      ensures ok ==> handoffs == OtherLoops(old(handoffs), loopId) + Rows(finals) && evidence == old(evidence) - losers
      ensures !ok ==> handoffs == old(handoffs) && evidence == old(evidence)
    {
      var snapshot := (handoffs, evidence);
      handoffs := OtherLoops(handoffs, loopId);
      handoffs, ok := InsertAll(handoffs, finals);
      if !ok {
        handoffs, evidence := snapshot.0, snapshot.1;
        return;
      }
      evidence := evidence - losers;
    }

    /** Every draft of the loop; `owned` is each draft's tool-call evidence. */
    method RunDrafts(loopId: int, drafts: seq<Draft>) returns (ok: bool, owned: seq<set<string>>)
      requires OfLoop(drafts, loopId)
      modifies this
      ensures OtherLoops(handoffs, loopId) == OtherLoops(old(handoffs), loopId)
      ensures forall id :: id in old(evidence) ==> id in evidence && evidence[id] == old(evidence)[id]
      ensures ok <==> && (drafts != [] ==> NewRows(old(handoffs), drafts[0].saved))
                      && (forall i :: 0 < i < |drafts| ==> NewRows(OtherLoops(old(handoffs), loopId), drafts[i].saved))
                      && NewRows(old(evidence), AllEvidence(drafts))
      ensures ok ==> evidence == old(evidence) + Rows(AllEvidence(drafts))
                     && |owned| == |drafts| && forall k :: 0 <= k < |drafts| ==> owned[k] == TrackedOf(drafts[k].evidence)
    {
      hide TrackedOf, OtherLoops, NewRows, Rows;
      ghost var table, kept := handoffs, evidence;
      owned := [];
      NoRows(kept);
      for i := 0 to |drafts|
        invariant OtherLoops(handoffs, loopId) == OtherLoops(table, loopId)
        invariant i == 0 ==> handoffs == table
        invariant i > 0 ==> NewRows(table, drafts[0].saved)
        invariant forall k :: 0 < k < i ==> NewRows(OtherLoops(table, loopId), drafts[k].saved)
        invariant forall id :: id in kept ==> id in evidence && evidence[id] == kept[id]
        invariant NewRows(kept, AllEvidence(drafts[..i])) && evidence == kept + Rows(AllEvidence(drafts[..i]))
        invariant |owned| == i && forall k :: 0 <= k < i ==> owned[k] == TrackedOf(drafts[k].evidence)
      {
        assert drafts[..i + 1][..i] == drafts[..i] && drafts[..i + 1][i] == drafts[i];
        var seen, more := AllEvidence(drafts[..i]), drafts[i].evidence;
        NewRowsSplit(kept, seen, more);
        RowsAppend(seen, more);
        assert kept + Rows(seen + more) == (kept + Rows(seen)) + Rows(more);
        var fine, ids := RunDraft(loopId, i == 0, drafts[i]);
        if !fine {
          PrefixConflict(kept, drafts, i + 1);
          return false, owned;
        }
        owned := owned + [ids];
      }
      assert drafts[..|drafts|] == drafts;
      return true, owned;
    }

    /** `_run_draft_sampling`; `None` is a key conflict out of the repository. */
    method Sample(loopId: int, probeId: string, drafts: seq<Draft>) returns (winner: Option<nat>)
      requires drafts != [] && OfLoop(drafts, loopId)
      modifies this
      ensures OtherLoops(handoffs, loopId) == OtherLoops(old(handoffs), loopId)
      ensures forall id :: id in old(handoffs) && old(handoffs)[id].loopId != loopId ==>
                id in handoffs && handoffs[id] == old(handoffs)[id]
      ensures forall id :: id in old(evidence) ==> id in evidence && evidence[id] == old(evidence)[id]
      ensures winner.Some? == NoConflict(old(handoffs), old(evidence), loopId, probeId, drafts)
      ensures winner.Some? ==>
                && winner.value == Winner(probeId, drafts)
                && handoffs == OtherLoops(old(handoffs), loopId) + Rows(drafts[winner.value].finals)
                && evidence == EvidenceAfter(old(evidence), drafts, winner.value)
    {
      hide Winner, NewRows, Rows, Select, Fallback;
      OtherLoopsExactly(handoffs, loopId);
      var ok, owned := RunDrafts(loopId, drafts);
      OtherLoopsExactly(handoffs, loopId);
      if !ok { return None; }
      var w := Choose(probeId, drafts);
      var losers := set i, id | 0 <= i < |owned| && i != w && id in owned[i] :: id;
      assert losers == LoserIds(drafts, w);
      LosersAreNew(old(evidence), drafts, w);
      OtherLoopsAfterInsert(OtherLoops(old(handoffs), loopId), drafts[w].finals, loopId);
      ok := Settle(loopId, drafts[w].finals, losers);
      OtherLoopsExactly(handoffs, loopId);
      if !ok { return None; }
      return Some(w);
    }

    /** The gate's choice or the fallback, and the draft it belongs to. */
    method Choose(probeId: string, drafts: seq<Draft>) returns (w: nat)
      requires drafts != []
      ensures w == Winner(probeId, drafts)
    {
      var evs := Evaluations(probeId, drafts);
      SelectIsLeast(evs);
      FallbackIsLeast(evs);
      var gate := Select(evs);
      var favourite := if gate.Some? then gate.value else Fallback(evs).value;
      w := IndexOf(evs, favourite);
    }
  }

  lemma NoRows<T>(table: map<string, T>)
    ensures NewRows(table, []) && table + Rows<T>([]) == table
  {
  }

  lemma {:induction false} OtherLoopsAfterInsert(table: map<string, Handoff>, rows: seq<Row<Handoff>>, loopId: int)
    requires RowsOfLoop(rows, loopId)
    ensures NewRows(table, rows) ==> OtherLoops(table + Rows(rows), loopId) == OtherLoops(table, loopId)
    ensures OtherLoops(OtherLoops(table, loopId), loopId) == OtherLoops(table, loopId)
  {
    if NewRows(table, rows) {
      RowsFacts(rows);
      forall id | id in Rows(rows) ensures Rows(rows)[id].loopId == loopId && id !in table {
        RowFound(table, rows, Row(id, Rows(rows)[id]));
      }
    }
  }

  lemma {:induction false} PrefixConflict(table: map<string, Evidence>, drafts: seq<Draft>, n: nat)
    requires n <= |drafts|
    ensures NewRows(table, AllEvidence(drafts)) ==> NewRows(table, AllEvidence(drafts[..n]))
    decreases |drafts|
  {
    if n < |drafts| {
      var init := drafts[..|drafts| - 1];
      NewRowsSplit(table, AllEvidence(init), drafts[|drafts| - 1].evidence);
      PrefixConflict(table, init, n);
      assert init[..n] == drafts[..n];
    } else {
      assert drafts[..n] == drafts;
    }
  }

  lemma {:induction false} DraftEvidenceIsThere(drafts: seq<Draft>, i: nat, r: Row<Evidence>)
    requires i < |drafts| && r in drafts[i].evidence
    ensures r in AllEvidence(drafts)
  {
    if i < |drafts| - 1 { DraftEvidenceIsThere(drafts[..|drafts| - 1], i, r); }
  }

  lemma {:induction false} LosersAreNew(table: map<string, Evidence>, drafts: seq<Draft>, w: nat)
    requires NewRows(table, AllEvidence(drafts))
    ensures LoserIds(drafts, w) !! table.Keys
  {
    forall i, r | 0 <= i < |drafts| && r in drafts[i].evidence ensures r.id !in table {
      DraftEvidenceIsThere(drafts, i, r);
      RowFound(table, AllEvidence(drafts), r);
    }
  }

  // ---- compared with a single run of the winner --------------------------------------------------------

  /** The rows a later prompt can show: finished tool calls with an id. */
  function ShownRows(table: map<string, Evidence>): map<string, Evidence> {
    map id | id in table && id != "" && table[id].ToolCall? && table[id].success.Some? :: table[id]
  }

  lemma {:induction false} AllEvidenceFrom(drafts: seq<Draft>, r: Row<Evidence>) returns (i: nat)
    requires r in AllEvidence(drafts)
    ensures i < |drafts| && r in drafts[i].evidence
  {
    var last := |drafts| - 1;
    if r in drafts[last].evidence { i := last; } else { i := AllEvidenceFrom(drafts[..last], r); }
  }

  /** Two drafts share no evidence id. */
  lemma {:induction false} DraftsShareNoEvidence(table: map<string, Evidence>, drafts: seq<Draft>, i: nat, j: nat,
                                                 a: Row<Evidence>, b: Row<Evidence>)
    requires NewRows(table, AllEvidence(drafts)) && i < j < |drafts|
    requires a in drafts[i].evidence && b in drafts[j].evidence
    ensures a.id != b.id
    decreases |drafts|
  {
    var init, last := drafts[..|drafts| - 1], drafts[|drafts| - 1];
    NewRowsSplit(table, AllEvidence(init), last.evidence);
    if j < |drafts| - 1 {
      DraftsShareNoEvidence(table, init, i, j, a, b);
    } else {
      DraftEvidenceIsThere(init, i, a);
      RowFound(table, AllEvidence(init), a);
      RowFound(table + Rows(AllEvidence(init)), last.evidence, b);
    }
  }

  lemma {:induction false} DraftIsNew(table: map<string, Evidence>, drafts: seq<Draft>, i: nat)
    requires NewRows(table, AllEvidence(drafts)) && i < |drafts|
    ensures NewRows(table, drafts[i].evidence)
    decreases |drafts|
  {
    var init, last := drafts[..|drafts| - 1], drafts[|drafts| - 1];
    NewRowsSplit(table, AllEvidence(init), last.evidence);
    if i < |drafts| - 1 { DraftIsNew(table, init, i); }
  }

  /** A draft's row survives if it is the winner's or no prompt shows it. */
  lemma {:induction false} KeptRow(evidence: map<string, Evidence>, drafts: seq<Draft>, w: nat, i: nat, r: Row<Evidence>)
    requires NewRows(evidence, AllEvidence(drafts)) && i < |drafts| && r in drafts[i].evidence
    requires Tracked(r.id, r.body) ==> i == w
    ensures r.id in EvidenceAfter(evidence, drafts, w) && EvidenceAfter(evidence, drafts, w)[r.id] == r.body
  {
    var all := AllEvidence(drafts);
    DraftEvidenceIsThere(drafts, i, r);
    RowFound(evidence, all, r);
    forall j, x | 0 <= j < |drafts| && j != w && x in drafts[j].evidence && Tracked(x.id, x.body) ensures x.id != r.id {
      DraftEvidenceIsThere(drafts, j, x);
      RowFound(evidence, all, x);
      if i < j { DraftsShareNoEvidence(evidence, drafts, i, j, r, x); }
      if j < i { DraftsShareNoEvidence(evidence, drafts, j, i, x, r); }
    }
  }

  /** What the next loop's prompt can see of the evidence is what a single run of the winner
      would have left; the losers' other evidence stays, for the usage accounts. */
  lemma {:induction false} EvidenceAsSingleRun(evidence: map<string, Evidence>, drafts: seq<Draft>, w: nat)
    requires w < |drafts| && NewRows(evidence, AllEvidence(drafts))
    ensures ShownRows(EvidenceAfter(evidence, drafts, w)) == ShownRows(evidence + Rows(drafts[w].evidence))
    ensures forall i, r :: 0 <= i < |drafts| && r in drafts[i].evidence
                           && (r.id == "" || r.body.OtherEvidence? || r.body.success.None?) ==>
              r.id in EvidenceAfter(evidence, drafts, w) && EvidenceAfter(evidence, drafts, w)[r.id] == r.body
  {
    hide EvidenceAfter, NewRows, Rows, AllEvidence;
    var after, single := EvidenceAfter(evidence, drafts, w), evidence + Rows(drafts[w].evidence);
    forall i, r | 0 <= i < |drafts| && r in drafts[i].evidence && !Tracked(r.id, r.body)
      ensures r.id in after && after[r.id] == r.body
    {
      KeptRow(evidence, drafts, w, i, r);
    }
    forall id | id in ShownRows(after) ensures id in single && single[id] == after[id] {
      SeenRowIsTheWinners(evidence, drafts, w, id);
    }
    forall id | id in ShownRows(single) ensures id in after && after[id] == single[id] {
      WinnersRowIsSeen(evidence, drafts, w, id);
    }
  }

  lemma {:induction false} SeenRowIsTheWinners(evidence: map<string, Evidence>, drafts: seq<Draft>, w: nat, id: string)
    requires w < |drafts| && NewRows(evidence, AllEvidence(drafts))
    requires id in ShownRows(EvidenceAfter(evidence, drafts, w))
    ensures var single := evidence + Rows(drafts[w].evidence);
            id in single && single[id] == EvidenceAfter(evidence, drafts, w)[id]
  {
    var all, own := AllEvidence(drafts), drafts[w].evidence;
    RowsFacts(all);
    RowsFacts(own);
    DraftIsNew(evidence, drafts, w);
    if id in Rows(all) {
      var r := Row(id, Rows(all)[id]);
      var i := AllEvidenceFrom(drafts, r);
      assert r.id in TrackedOf(drafts[i].evidence);
      assert i == w;
      RowFound(evidence, own, r);
    } else if id in Rows(own) {
      DraftEvidenceIsThere(drafts, w, Row(id, Rows(own)[id]));
      assert false;
    }
  }

  lemma {:induction false} WinnersRowIsSeen(evidence: map<string, Evidence>, drafts: seq<Draft>, w: nat, id: string)
    requires w < |drafts| && NewRows(evidence, AllEvidence(drafts))
    requires id in ShownRows(evidence + Rows(drafts[w].evidence))
    ensures var after := EvidenceAfter(evidence, drafts, w);
            id in after && after[id] == (evidence + Rows(drafts[w].evidence))[id]
  {
    var all, own := AllEvidence(drafts), drafts[w].evidence;
    RowsFacts(all);
    RowsFacts(own);
    LosersAreNew(evidence, drafts, w);
    if id in Rows(own) {
      KeptRow(evidence, drafts, w, w, Row(id, Rows(own)[id]));
    } else if id in Rows(all) {
      RowFound(evidence, all, Row(id, Rows(all)[id]));
      assert false;
    }
  }

  /** The handoff rows are those of a single run exactly when the winner needed no retry: rows of
      earlier attempts are dropped with the losers'. */
  lemma HandoffsAsSingleRunIff(handoffs: map<string, Handoff>, loopId: int, d: Draft)
    requires OtherLoops(handoffs, loopId) == handoffs && NewRows(handoffs, d.saved)
    requires forall r :: r in d.finals ==> r in d.saved
    ensures OtherLoops(handoffs, loopId) + Rows(d.finals) == handoffs + Rows(d.saved)
            <==> forall r :: r in d.saved ==> r in d.finals
  {
    RowsFacts(d.saved);
    RowsFacts(d.finals);
    forall r | r in d.saved ensures r.id in Rows(d.saved) && Rows(d.saved)[r.id] == r.body && r.id !in handoffs {
      RowFound(handoffs, d.saved, r);
    }
    if r :| r in d.saved && r !in d.finals {
      assert r.id in handoffs + Rows(d.saved) && (handoffs + Rows(d.saved))[r.id] == r.body;
      assert r.id !in Rows(d.finals);
    } else {
      forall id | id in Rows(d.saved) ensures id in Rows(d.finals) && Rows(d.finals)[id] == Rows(d.saved)[id] {
        assert Row(id, Rows(d.saved)[id]) in d.finals;
        assert Row(id, Rows(d.finals)[id]) in d.saved;
      }
      forall id | id in Rows(d.finals) ensures id in Rows(d.saved) {
        assert Row(id, Rows(d.finals)[id]) in d.saved;
      }
    }
  }

  /** A winner that retried: the first attempt's row, which a single run keeps, is gone. */
  lemma RetryRowIsDropped()
    ensures var first, retry := Row("h1", Handoff(1, "failed")), Row("h2", Handoff(1, "done"));
            var d := Draft([first, retry], [retry], [], NoReport());
            && "h1" in map[] + Rows(d.saved) && "h1" !in OtherLoops(map[], 1) + Rows(d.finals)
  {
    var first, retry := Row("h1", Handoff(1, "failed")), Row("h2", Handoff(1, "done"));
    RowsFacts([first, retry]);
    assert first in [first, retry];
    assert [retry][..0] == [] && Rows([retry]) == map["h2" := retry.body];
  }

  function NoReport(): Report {
    Report("", 1, "", FAIL, [], [], {}, [], [], [], [], [], true, false)
  }
}
