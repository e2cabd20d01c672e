// commit_selection: the deterministic, score-free choice among evaluated candidates.
module CommitSelection {
  import opened Domain
  import opened Ordering
  import CommitManager

  datatype Evaluation = Evaluation(
    id: string, newly: seq<string>, failing: seq<string>, regressed: seq<string>,
    missingEvidence: bool, verdict: Verdict, score: real)

  predicate PassesGate(ev: Evaluation) {
    ev.verdict in {PASS, PARTIAL} && ev.newly != [] && ev.regressed == [] && !ev.missingEvidence
  }

  function Passing(): Evaluation -> bool { (ev: Evaluation) => PassesGate(ev) }

  /** The tuple order of the sort key: most newly passed, fewest failing, then the id. */
  predicate KeyLe(a: Evaluation, b: Evaluation) {
    var (na, nb) := (|Elements(a.newly)|, |Elements(b.newly)|);
    var (fa, fb) := (|Elements(a.failing)|, |Elements(b.failing)|);
    na > nb || (na == nb && (fa < fb || (fa == fb && StrLe(a.id, b.id))))
  }

  /** `select_fallback_base` */
  function Fallback(evs: seq<Evaluation>): Option<Evaluation> {
    if evs == [] then None else Some(Sort(KeyLe, evs)[0])
  }

  /** `select_commit_candidate` */
  function Select(evs: seq<Evaluation>): Option<Evaluation> {
    Fallback(Filter(Passing(), evs))
  }

  /** `evaluation_from_validation_report` */
  function FromReport(id: string, rep: Report): Evaluation {
    Evaluation(id, rep.newly, FailingKeys(rep.results), rep.regressed, rep.missingEvidence, rep.verdict, 0.0)
  }

  function FailingKeys(results: seq<CheckResult>): seq<string> {
    if results == [] then []
    else FailingKeys(results[..|results| - 1])
         + if results[|results| - 1].passed then [] else [results[|results| - 1].key]
  }

  /** An evaluation's failing keys are those of the results that did not pass, and nothing else is lost or made up. */
  lemma {:induction false} FailingKeysFacts(results: seq<CheckResult>)
    ensures forall k :: k in FailingKeys(results) <==> exists r :: r in results && !r.passed && r.key == k
  {
    if results != [] {
      var init, last := results[..|results| - 1], results[|results| - 1];
      assert results == init + [last];
      FailingKeysFacts(init);
    }
  }

  // ---- the order ---------------------------------------------------------------------------

  lemma KeyLeIsOrder()
    ensures TotalPreorder(KeyLe)
  {
    forall a, b ensures KeyLe(a, b) || KeyLe(b, a) { StrLeTotal(a.id, b.id); }
    forall a, b, c | KeyLe(a, b) && KeyLe(b, c) ensures KeyLe(a, c) {
      if StrLe(a.id, b.id) && StrLe(b.id, c.id) { StrLeTransitive(a.id, b.id, c.id); }
    }
  }

  /** `w` may stand before `ev`: at least as many distinct checks newly pass; with as many, no more fail; with as
      many of both, its id is not greater. */
  ghost predicate NotWorse(w: Evaluation, ev: Evaluation) {
    && |Elements(ev.newly)| <= |Elements(w.newly)|
    && (|Elements(ev.newly)| == |Elements(w.newly)| ==> |Elements(w.failing)| <= |Elements(ev.failing)|)
    && (|Elements(ev.newly)| == |Elements(w.newly)| && |Elements(w.failing)| == |Elements(ev.failing)| ==> StrLe(w.id, ev.id))
  }

  /** The fallback is a member no other member is to be preferred to. */
  lemma FallbackIsBest(evs: seq<Evaluation>)
    ensures Fallback(evs).None? <==> evs == []
    ensures Fallback(evs).Some? ==>
              Fallback(evs).value in evs && forall ev :: ev in evs ==> NotWorse(Fallback(evs).value, ev)
  {
    FallbackIsLeast(evs);
    hide Fallback;
  }

  /** The winner is committable, and no other committable candidate is to be preferred to it. */
  lemma SelectIsBest(evs: seq<Evaluation>)
    ensures Select(evs).Some? <==>
            exists ev :: ev in evs && ev.verdict in {PASS, PARTIAL} && ev.newly != [] && ev.regressed == [] && !ev.missingEvidence
    ensures Select(evs).Some? ==>
              var w := Select(evs).value;
              && w in evs && w.verdict in {PASS, PARTIAL} && w.newly != [] && w.regressed == [] && !w.missingEvidence
              && forall ev :: (ev in evs && ev.verdict in {PASS, PARTIAL} && ev.newly != [] && ev.regressed == []
                               && !ev.missingEvidence) ==> NotWorse(w, ev)
  {
    SelectIsLeast(evs);
    hide Select;
  }

  /** The fallback is a member that precedes every member. */
  lemma FallbackIsLeast(evs: seq<Evaluation>)
    ensures Fallback(evs).None? <==> evs == []
    ensures Fallback(evs).Some? ==>
              Fallback(evs).value in evs && forall ev :: ev in evs ==> KeyLe(Fallback(evs).value, ev)
  {
    if evs != [] {
      KeyLeIsOrder();
      SortSorts(KeyLe, evs);
      SortMembers(KeyLe, evs);
      var ranked := Sort(KeyLe, evs);
      assert ranked[0] in evs;
      forall ev | ev in evs ensures KeyLe(ranked[0], ev) {
        assert ev in ranked;
        var i :| 0 <= i < |ranked| && ranked[i] == ev;
        assert KeyLe(ev, ev) by { StrLeTotal(ev.id, ev.id); }
      }
    }
  }

  /** The winner is the least gate-passing candidate; there is one whenever any passes. */
  lemma SelectIsLeast(evs: seq<Evaluation>)
    ensures Select(evs).None? <==> forall ev :: ev in evs ==> !PassesGate(ev)
    ensures Select(evs).Some? ==>
              && Select(evs).value in evs && PassesGate(Select(evs).value)
              && forall ev :: ev in evs && PassesGate(ev) ==> KeyLe(Select(evs).value, ev)
  {
    FallbackIsLeast(Filter(Passing(), evs));
    FilterMembers(Passing(), evs);
    if Select(evs).None? {
      forall ev | ev in evs ensures !PassesGate(ev) {
        assert ev !in Filter(Passing(), evs);
      }
    } else {
      assert Select(evs).value in Filter(Passing(), evs);
    }
  }

  // ---- what the choice depends on ----------------------------------------------------------------

  /** An evaluation without its score, and without the order and repetition of its keys. */
  datatype Essence = Essence(id: string, newly: set<string>, failing: set<string>, regressed: bool,
                             missingEvidence: bool, verdict: Verdict)

  function EssenceOf(ev: Evaluation): Essence {
    Essence(ev.id, Elements(ev.newly), Elements(ev.failing), ev.regressed != [], ev.missingEvidence, ev.verdict)
  }

  ghost predicate DistinctCandidates(evs: seq<Evaluation>) {
    forall i, j :: 0 <= i < j < |evs| ==> evs[i].id != evs[j].id
  }

  function Essences(evs: seq<Evaluation>): set<Essence> {
    set ev | ev in evs :: EssenceOf(ev)
  }

  lemma EssenceDecides(a: Evaluation, b: Evaluation)
    requires EssenceOf(a) == EssenceOf(b)
    ensures PassesGate(a) == PassesGate(b)
    ensures forall c :: KeyLe(a, c) == KeyLe(b, c) && KeyLe(c, a) == KeyLe(c, b)
  {
    assert a.newly == [] <==> Elements(a.newly) == {} by { if a.newly != [] { assert a.newly[0] in Elements(a.newly); } }
    assert b.newly == [] <==> Elements(b.newly) == {} by { if b.newly != [] { assert b.newly[0] in Elements(b.newly); } }
  }

  lemma EqualKeys(a: Evaluation, b: Evaluation)
    requires KeyLe(a, b) && KeyLe(b, a)
    ensures a.id == b.id
  {
    StrLeAntisymmetric(a.id, b.id);
  }

  lemma Counterpart(a: seq<Evaluation>, b: seq<Evaluation>, x: Evaluation) returns (y: Evaluation)
    requires Essences(a) == Essences(b) && x in a
    ensures y in b && EssenceOf(y) == EssenceOf(x)
  {
    assert EssenceOf(x) in Essences(b);
    y :| y in b && EssenceOf(y) == EssenceOf(x);
  }

  lemma LeastEssence(a: seq<Evaluation>, b: seq<Evaluation>)
    requires Essences(a) == Essences(b) && Select(a).Some?
    ensures Select(b).Some? && KeyLe(Select(b).value, Select(a).value)
  {
    hide Select, KeyLe, PassesGate, EssenceOf, Essences;
    SelectIsLeast(a);
    SelectIsLeast(b);
    var y := Counterpart(a, b, Select(a).value);
    EssenceDecides(y, Select(a).value);
  }

  lemma SameIdSameCandidate(evs: seq<Evaluation>, x: Evaluation, y: Evaluation)
    requires DistinctCandidates(evs) && x in evs && y in evs && x.id == y.id
    ensures x == y
  {
    var i :| 0 <= i < |evs| && evs[i] == x;
    var j :| 0 <= j < |evs| && evs[j] == y;
  }

  /** Score-free and arrangement-free: lists whose evaluations agree up to scores, order and
      repetition of keys, and the order of the list itself, have the same winner or none. */
  lemma SelectDependsOnEssence(a: seq<Evaluation>, b: seq<Evaluation>)
    requires Essences(a) == Essences(b) && DistinctCandidates(a)
    ensures Select(a).Some? == Select(b).Some?
    ensures Select(a).Some? ==> EssenceOf(Select(a).value) == EssenceOf(Select(b).value)
  {
    hide Select, KeyLe, PassesGate, Essences, DistinctCandidates;
    SelectIsLeast(a);
    SelectIsLeast(b);
    if Select(a).Some? {
      LeastEssence(a, b);
      LeastEssence(b, a);
      var w, v := Select(a).value, Select(b).value;
      EqualKeys(w, v);
      var x := Counterpart(b, a, v);
      SameIdSameCandidate(a, x, w);
    } else if Select(b).Some? {
      LeastEssence(b, a);
      assert false;
    }
  }

  /** Nothing is selected exactly when no candidate could be committed without a transaction. */
  lemma NoneIffNothingCommits(ids: seq<string>, reps: seq<Report>, policy: Policy)
    requires |ids| == |reps|
    ensures Select(seq(|reps|, i requires 0 <= i < |reps| => FromReport(ids[i], reps[i]))).None?
            <==> forall i :: 0 <= i < |reps| ==> !CommitManager.CanCommit(reps[i], policy, None)
  {
    var evs := seq(|reps|, i requires 0 <= i < |reps| => FromReport(ids[i], reps[i]));
    SelectIsLeast(evs);
    assert forall i :: 0 <= i < |reps| ==> PassesGate(evs[i]) == CommitManager.CanCommit(reps[i], policy, None);
    assert forall i :: 0 <= i < |evs| ==> evs[i] in evs;
  }
}
