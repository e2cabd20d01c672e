// memory_manager.auto_promote and the verbs of cli/memory_cmd.py over one task's memory rows.
module MemoryPromotion {
  import opened Domain

  datatype MemoryState = Proposed | Deferred | Approved | RejectedByReview | Expired

  /** `reusable` is fixed by the content, so reading it again never changes it. */
  datatype MemoryCandidate = MemoryCandidate(
    id: string, evidenceIds: seq<string>, sourceBest: Option<string>, expiresAt: Option<int>,
    actionVerified: bool, traceable: bool, reusable: bool, state: MemoryState, reviewer: string)

  datatype PromotedMemory = PromotedMemory(memoryId: string, source: string, approvedBy: string)

  datatype Rows = Rows(candidates: seq<MemoryCandidate>, promoted: seq<PromotedMemory>)

  /** What auto_promote reads beside the rows. */
  datatype TaskView = TaskView(enabled: bool, lastStop: Option<StopReason>, finalBest: Option<string>,
                               bestId: Option<string>, bestEvidence: seq<string>)

  datatype Reply = Done | NoChange | Refused | NotFound

  // ---- rows ---------------------------------------------------------------------------------

  /** Where the candidate is, or the length. */
  function Position(cs: seq<MemoryCandidate>, id: string): (i: nat)
    ensures i <= |cs| && (i < |cs| ==> cs[i].id == id)
    ensures forall k :: 0 <= k < i ==> cs[k].id != id
  {
    if cs == [] || cs[0].id == id then 0 else 1 + Position(cs[1..], id)
  }

  /** `save_memory_candidate`: a dictionary keeps the place of a key it already has. */
  function Put(cs: seq<MemoryCandidate>, c: MemoryCandidate): seq<MemoryCandidate> {
    var i := Position(cs, c.id);
    if i < |cs| then cs[i := c] else cs + [c]
  }

  predicate HasPromotion(ps: seq<PromotedMemory>, source: string) {
    exists i :: 0 <= i < |ps| && ps[i].source == source
  }

  predicate HasMemoryId(ps: seq<PromotedMemory>, memoryId: string) {
    exists i :: 0 <= i < |ps| && ps[i].memoryId == memoryId
  }

  /** `save_promoted_memory` with a memory id nothing has used. */
  function AddPromotion(ps: seq<PromotedMemory>, p: PromotedMemory): seq<PromotedMemory> {
    if HasPromotion(ps, p.source) then ps else ps + [p]
  }

  // ---- the four verbs -----------------------------------------------------------------------------

  function Approve(m: Rows, id: string, reviewer: string, force: bool, memoryId: string): (Rows, Reply) {
    var i := Position(m.candidates, id);
    if i == |m.candidates| then (m, NotFound)
    else
      var c := m.candidates[i];
      if c.state !in {Proposed, Deferred} || c.evidenceIds == [] || !c.actionVerified || !c.traceable
         || (!c.reusable && !force)
      then (m, Refused)
      else (Rows(Put(m.candidates, c.(state := Approved, reviewer := reviewer)),
                 AddPromotion(m.promoted, PromotedMemory(memoryId, id, reviewer))), Done)
  }

  function Reject(m: Rows, id: string, reviewer: string): (Rows, Reply) {
    var i := Position(m.candidates, id);
    if i == |m.candidates| then (m, NotFound)
    else if m.candidates[i].state !in {Proposed, Deferred} then (m, Refused)
    else (m.(candidates := Put(m.candidates, m.candidates[i].(state := RejectedByReview, reviewer := reviewer))), Done)
  }

  function Defer(m: Rows, id: string, reviewer: string): (Rows, Reply) {
    var i := Position(m.candidates, id);
    if i == |m.candidates| then (m, NotFound)
    else if m.candidates[i].state == Deferred then (m, NoChange)
    else if m.candidates[i].state != Proposed then (m, Refused)
    else (m.(candidates := Put(m.candidates, m.candidates[i].(state := Deferred, reviewer := reviewer))), Done)
  }

  function Expire(m: Rows, id: string, reviewer: string): (Rows, Reply) {
    var i := Position(m.candidates, id);
    if i == |m.candidates| then (m, NotFound)
    else if m.candidates[i].state == Expired then (m, NoChange)
    else (m.(candidates := Put(m.candidates, m.candidates[i].(state := Expired, reviewer := reviewer))), Done)
  }

  // ---- auto_promote -------------------------------------------------------------------------------

  predicate ActionVerified(c: MemoryCandidate, best: seq<string>) {
    c.evidenceIds != [] && exists id :: id in c.evidenceIds && id in best
  }

  predicate Traceable(c: MemoryCandidate, best: seq<string>) {
    c.evidenceIds != [] && forall id :: id in c.evidenceIds ==> id in best
  }

  predicate Qualifies(c: MemoryCandidate, t: TaskView, now: int) {
    && c.state == Proposed && !(c.expiresAt.Some? && c.expiresAt.value <= now)
    && ActionVerified(c, t.bestEvidence) && c.reusable && Traceable(c, t.bestEvidence)
    && c.sourceBest.Some? && c.sourceBest == t.finalBest && c.sourceBest == t.bestId
  }

  predicate Open(t: TaskView) {
    t.enabled && t.lastStop == Some(DONE)
  }

  predicate Chosen(m: Rows, c: MemoryCandidate, t: TaskView, now: int) {
    Open(t) && Qualifies(c, t, now) && !HasPromotion(m.promoted, c.id)
  }

  function AutoApproved(c: MemoryCandidate): MemoryCandidate {
    c.(state := Approved, reviewer := "auto")
  }

  /** The first `n` candidates after the sweep. */
  function Swept(m: Rows, t: TaskView, now: int, n: nat): (r: seq<MemoryCandidate>)
    requires n <= |m.candidates|
    ensures |r| == |m.candidates|
  {
    seq(|m.candidates|, i requires 0 <= i < |m.candidates| =>
      if i < n && Chosen(m, m.candidates[i], t, now) then AutoApproved(m.candidates[i]) else m.candidates[i])
  }

  /** The memories made of the first `n` candidates; `memoryIds` are the ids drawn on the way. */
  function Promotions(m: Rows, t: TaskView, now: int, memoryIds: seq<string>, n: nat): seq<PromotedMemory>
    requires n <= |m.candidates| <= |memoryIds|
  {
    if n == 0 then []
    else
      var c := m.candidates[n - 1];
      Promotions(m, t, now, memoryIds, n - 1)
      + if Chosen(m, c, t, now) then [PromotedMemory(memoryIds[n - 1], c.id, "auto")] else []
  }

  /** The rows afterwards and the memories made. */
  function AutoPromote(m: Rows, t: TaskView, now: int, memoryIds: seq<string>): (Rows, seq<PromotedMemory>)
    requires |m.candidates| <= |memoryIds|
  {
    var made := Promotions(m, t, now, memoryIds, |m.candidates|);
    (Rows(Swept(m, t, now, |m.candidates|), m.promoted + made), made)
  }

  ghost predicate DistinctCandidates(cs: seq<MemoryCandidate>) {
    forall i, j :: 0 <= i < j < |cs| ==> cs[i].id != cs[j].id
  }

  /** Memory ids drawn for a sweep are unused and distinct. */
  ghost predicate NewIds(ps: seq<PromotedMemory>, memoryIds: seq<string>) {
    && (forall i :: 0 <= i < |memoryIds| ==> !HasMemoryId(ps, memoryIds[i]))
    && (forall i, j :: 0 <= i < j < |memoryIds| ==> memoryIds[i] != memoryIds[j])
  }

  lemma {:induction false} PromotionSources(m: Rows, t: TaskView, now: int, memoryIds: seq<string>, n: nat)
    requires n <= |m.candidates| <= |memoryIds|
    ensures forall p :: p in Promotions(m, t, now, memoryIds, n) ==>
              exists k :: 0 <= k < n && p == PromotedMemory(memoryIds[k], m.candidates[k].id, "auto")
                          && Chosen(m, m.candidates[k], t, now)
    ensures forall k :: 0 <= k < n && Chosen(m, m.candidates[k], t, now) ==>
              PromotedMemory(memoryIds[k], m.candidates[k].id, "auto") in Promotions(m, t, now, memoryIds, n)
  {
    if n > 0 { PromotionSources(m, t, now, memoryIds, n - 1); }
  }

  /** While the sweep is at candidate `n`, what it finds promoted for it was there at the start. */
  lemma {:induction false} NotYetPromoted(m: Rows, t: TaskView, now: int, memoryIds: seq<string>, n: nat)
    requires DistinctCandidates(m.candidates) && n < |m.candidates| <= |memoryIds|
    ensures var ps := m.promoted + Promotions(m, t, now, memoryIds, n);
            HasPromotion(ps, m.candidates[n].id) <==> HasPromotion(m.promoted, m.candidates[n].id)
  {
    var made := Promotions(m, t, now, memoryIds, n);
    var ps, id := m.promoted + made, m.candidates[n].id;
    PromotionSources(m, t, now, memoryIds, n);
    forall i | |m.promoted| <= i < |ps| ensures ps[i].source != id {
      assert ps[i] in made;
    }
    if i :| 0 <= i < |m.promoted| && m.promoted[i].source == id { assert ps[i].source == id; }
  }

  class Memory {
    var rows: Rows

    constructor (rows: Rows)
      ensures this.rows == rows
    {
      this.rows := rows;
    }

    /** `memory approve` */
    method DoApprove(id: string, reviewer: string, force: bool, memoryId: string) returns (reply: Reply)
      modifies this
      ensures (rows, reply) == Approve(old(rows), id, reviewer, force, memoryId)
    {
      var i := Position(rows.candidates, id);
      if i == |rows.candidates| { return NotFound; }
      var c := rows.candidates[i];
      if c.state !in {Proposed, Deferred} { return Refused; }
      if c.evidenceIds == [] { return Refused; }
      if !c.actionVerified { return Refused; }
      if !c.traceable { return Refused; }
      if !c.reusable && !force { return Refused; }
      rows := rows.(candidates := Put(rows.candidates, c.(state := Approved, reviewer := reviewer)));
      rows := rows.(promoted := AddPromotion(rows.promoted, PromotedMemory(memoryId, c.id, reviewer)));
      return Done;
    }

    /** `memory reject`, `memory defer`, `memory expire` */
    method Decide(id: string, reviewer: string, to: MemoryState) returns (reply: Reply)
      requires to in {RejectedByReview, Deferred, Expired}
      modifies this
      ensures (rows, reply) == match to
                               case RejectedByReview => Reject(old(rows), id, reviewer)
                               case Deferred => Defer(old(rows), id, reviewer)
                               case _ => Expire(old(rows), id, reviewer)
    {
      var i := Position(rows.candidates, id);
      if i == |rows.candidates| { return NotFound; }
      var c := rows.candidates[i];
      if to != RejectedByReview && c.state == to { return NoChange; }
      if to == RejectedByReview && c.state !in {Proposed, Deferred} { return Refused; }
      if to == Deferred && c.state != Proposed { return Refused; }
      rows := rows.(candidates := Put(rows.candidates, c.(state := to, reviewer := reviewer)));
      return Done;
    }

    /** `auto_promote` */
    method DoAutoPromote(t: TaskView, now: int, memoryIds: seq<string>) returns (made: seq<PromotedMemory>)
      requires DistinctCandidates(rows.candidates) && |rows.candidates| <= |memoryIds|
      modifies this
      ensures (rows, made) == AutoPromote(old(rows), t, now, memoryIds)
    {
      hide Qualifies, Put;
      made := [];
      ghost var start := rows;
      var candidates := rows.candidates;
      if !t.enabled || t.lastStop != Some(DONE) {
        NothingPromoted(start, t, now, memoryIds, |start.candidates|);
        assert start.promoted + [] == start.promoted;
        return;
      }
      assert Swept(start, t, now, 0) == start.candidates;
      for i := 0 to |candidates|
        invariant rows.candidates == Swept(start, t, now, i)
        invariant made == Promotions(start, t, now, memoryIds, i)
        invariant rows.promoted == start.promoted + made
      {
        var c := candidates[i];
        NotYetPromoted(start, t, now, memoryIds, i);
        if Qualifies(c, t, now) && !HasPromotion(rows.promoted, c.id) {
          var memory := PromotedMemory(memoryIds[i], c.id, "auto");
          PutAt(rows.candidates, i, AutoApproved(c));
          rows := Rows(Put(rows.candidates, AutoApproved(c)), AddPromotion(rows.promoted, memory));
          made := made + [memory];
        }
        assert rows.candidates == Swept(start, t, now, i + 1);
      }
    }
  }

  lemma PutAt(cs: seq<MemoryCandidate>, i: nat, c: MemoryCandidate)
    requires i < |cs| && cs[i].id == c.id && DistinctCandidates(cs)
    ensures Put(cs, c) == cs[i := c]
  {
  }

  lemma {:induction false} NothingPromoted(m: Rows, t: TaskView, now: int, memoryIds: seq<string>, n: nat)
    requires !Open(t) && n <= |m.candidates| <= |memoryIds|
    ensures Promotions(m, t, now, memoryIds, n) == [] && Swept(m, t, now, n) == m.candidates
  {
    if n > 0 { NothingPromoted(m, t, now, memoryIds, n - 1); }
  }

  // ---- promises -----------------------------------------------------------------------------------

  datatype Verb =
    | ProposeVerb(candidate: MemoryCandidate)
    | ApproveVerb(id: string, reviewer: string, force: bool, memoryId: string)
    | RejectVerb(id: string, reviewer: string)
    | DeferVerb(id: string, reviewer: string)
    | ExpireVerb(id: string, reviewer: string)
    | AutoVerb(task: TaskView, now: int, memoryIds: seq<string>)

  /** Drawn identifiers are new; everything else is arbitrary. */
  ghost predicate WellDrawn(m: Rows, v: Verb) {
    match v
    case ProposeVerb(c) => c.state == Proposed && forall i :: 0 <= i < |m.candidates| ==> m.candidates[i].id != c.id
    case ApproveVerb(_, _, _, memoryId) => !HasMemoryId(m.promoted, memoryId)
    case AutoVerb(_, _, memoryIds) => |m.candidates| <= |memoryIds| && NewIds(m.promoted, memoryIds)
    case _ => true
  }

  function After(m: Rows, v: Verb): Rows {
    match v
    case ProposeVerb(c) => m.(candidates := Put(m.candidates, c))
    case ApproveVerb(id, reviewer, force, memoryId) => Approve(m, id, reviewer, force, memoryId).0
    case RejectVerb(id, reviewer) => Reject(m, id, reviewer).0
    case DeferVerb(id, reviewer) => Defer(m, id, reviewer).0
    case ExpireVerb(id, reviewer) => Expire(m, id, reviewer).0
    case AutoVerb(t, now, memoryIds) => if |m.candidates| <= |memoryIds| then AutoPromote(m, t, now, memoryIds).0 else m
  }

  function AfterAll(m: Rows, verbs: seq<Verb>): Rows
    decreases |verbs|
  {
    if verbs == [] then m else AfterAll(After(m, verbs[0]), verbs[1..])
  }

  ghost predicate NewId(cs: seq<MemoryCandidate>, id: string) {
    forall i :: 0 <= i < |cs| ==> cs[i].id != id
  }

  lemma LastPlace(cs: seq<MemoryCandidate>, x: MemoryCandidate)
    requires DistinctCandidates(cs) && NewId(cs, x.id)
    ensures DistinctCandidates(cs + [x]) && (cs + [x])[|cs|] == x
    ensures forall y :: (cs + [x])[|cs| := y] == cs + [y]
  {
  }

  lemma DeferLast(cs: seq<MemoryCandidate>, ps: seq<PromotedMemory>, c: MemoryCandidate, a: string)
    requires DistinctCandidates(cs) && NewId(cs, c.id) && c.state == Proposed
    ensures After(Rows(cs + [c], ps), DeferVerb(c.id, a)) == Rows(cs + [c.(state := Deferred, reviewer := a)], ps)
  {
    LastPlace(cs, c);
    VerbsExactly(Rows(cs + [c], ps), |cs|, a, true, "");
    hide Approve, Reject, Defer, Expire, NewId, DistinctCandidates;
  }

  lemma ApproveLast(cs: seq<MemoryCandidate>, ps: seq<PromotedMemory>, c: MemoryCandidate, b: string, memoryId: string)
    requires DistinctCandidates(cs) && NewId(cs, c.id) && c.state in {Proposed, Deferred} && forall p :: p in ps ==> p.source != c.id
    requires c.evidenceIds != [] && c.actionVerified && c.traceable
    ensures After(Rows(cs + [c], ps), ApproveVerb(c.id, b, true, memoryId))
            == Rows(cs + [c.(state := Approved, reviewer := b)], ps + [PromotedMemory(memoryId, c.id, b)])
  {
    LastPlace(cs, c);
    VerbsExactly(Rows(cs + [c], ps), |cs|, b, true, memoryId);
    hide Approve, Reject, Defer, Expire, NewId, DistinctCandidates;
  }

  lemma ExpireLast(cs: seq<MemoryCandidate>, ps: seq<PromotedMemory>, c: MemoryCandidate, d: string)
    requires DistinctCandidates(cs) && NewId(cs, c.id) && c.state != Expired
    ensures After(Rows(cs + [c], ps), ExpireVerb(c.id, d)) == Rows(cs + [c.(state := Expired, reviewer := d)], ps)
  {
    LastPlace(cs, c);
    VerbsExactly(Rows(cs + [c], ps), |cs|, d, true, "");
    hide Approve, Reject, Defer, Expire, NewId, DistinctCandidates;
  }

  /** One candidate's way through the verbs: proposed, put off, approved by force, expired; its memory stays. */
  lemma {:induction false} LifeOfAMemory(m: Rows, c: MemoryCandidate, a: string, b: string, d: string, memoryId: string)
    requires WellDrawn(m, ProposeVerb(c)) && DistinctCandidates(m.candidates) && forall p :: p in m.promoted ==> p.source != c.id
    requires c.evidenceIds != [] && c.actionVerified && c.traceable
    ensures AfterAll(m, [ProposeVerb(c), DeferVerb(c.id, a), ApproveVerb(c.id, b, true, memoryId), ExpireVerb(c.id, d)])
            == Rows(m.candidates + [c.(state := Expired, reviewer := d)], m.promoted + [PromotedMemory(memoryId, c.id, b)])
  {
    PutNew(m.candidates, c);
    var deferred, approved := c.(state := Deferred, reviewer := a), c.(state := Approved, reviewer := b);
    var m1 := After(m, ProposeVerb(c));
    assert m1 == Rows(m.candidates + [c], m.promoted) && NewId(m.candidates, c.id);
    hide After, NewId, DistinctCandidates, Put;
    DeferLast(m.candidates, m.promoted, c, a);
    ApproveLast(m.candidates, m.promoted, deferred, b, memoryId);
    ExpireLast(m.candidates, m.promoted + [PromotedMemory(memoryId, c.id, b)], approved, d);
    var verbs := [ProposeVerb(c), DeferVerb(c.id, a), ApproveVerb(c.id, b, true, memoryId), ExpireVerb(c.id, d)];
    var m2 := After(m1, verbs[1]);
    var m3 := After(m2, verbs[2]);
    assert verbs[1..][0] == verbs[1] && verbs[1..][1..][0] == verbs[2] && verbs[1..][1..][1..] == [verbs[3]] && [verbs[3]][1..] == [];
    assert AfterAll(m3, [verbs[3]]) == AfterAll(After(m3, verbs[3]), []);
    assert AfterAll(m, verbs) == AfterAll(m1, verbs[1..]) == AfterAll(m2, verbs[1..][1..]) == AfterAll(m3, verbs[1..][1..][1..]);
  }

  ghost predicate AllWellDrawn(m: Rows, verbs: seq<Verb>)
    decreases |verbs|
  {
    verbs != [] ==> WellDrawn(m, verbs[0]) && AllWellDrawn(After(m, verbs[0]), verbs[1..])
  }

  ghost predicate OnePerSource(ps: seq<PromotedMemory>) {
    && (forall i, j :: 0 <= i < j < |ps| ==> ps[i].source != ps[j].source)
    && (forall i, j :: 0 <= i < j < |ps| ==> ps[i].memoryId != ps[j].memoryId)
  }

  /** Each candidate has at most one memory; an approved one has one; and a memory's candidate is
      approved or expired. */
  ghost predicate Consistent(m: Rows) {
    && DistinctCandidates(m.candidates) && OnePerSource(m.promoted)
    && (forall i :: 0 <= i < |m.candidates| && m.candidates[i].state == Approved ==>
          HasPromotion(m.promoted, m.candidates[i].id))
    && (forall i :: 0 <= i < |m.promoted| ==> Backed(m.candidates, m.promoted[i].source))
  }

  predicate Backed(cs: seq<MemoryCandidate>, source: string) {
    exists k :: 0 <= k < |cs| && cs[k].id == source && cs[k].state in {Approved, Expired}
  }

  /** One candidate row replaced, and a memory added when it became approved. */
  lemma ReplaceKeepsConsistent(m: Rows, i: nat, c: MemoryCandidate, p: PromotedMemory)
    requires Consistent(m) && i < |m.candidates| && c.id == m.candidates[i].id
    requires c.state == Expired
             || (m.candidates[i].state in {Proposed, Deferred} && c.state in {Deferred, RejectedByReview, Approved})
    requires p.source == c.id && !HasMemoryId(m.promoted, p.memoryId)
    ensures Consistent(Rows(Put(m.candidates, c), if c.state == Approved then AddPromotion(m.promoted, p) else m.promoted))
  {
    PutAt(m.candidates, i, c);
    var cs := m.candidates[i := c];
    var ps := if c.state == Approved then AddPromotion(m.promoted, p) else m.promoted;
    assert m.promoted <= ps;
    if c.state == Approved { AddedIsThere(m.promoted, p); }
    forall k | 0 <= k < |cs| && cs[k].state == Approved ensures HasPromotion(ps, cs[k].id) {
      if k != i {
        var q :| 0 <= q < |m.promoted| && m.promoted[q].source == cs[k].id;
        assert ps[q].source == cs[k].id;
      }
    }
    forall k | 0 <= k < |ps| ensures Backed(cs, ps[k].source) {
      if k < |m.promoted| {
        assert ps[k] == m.promoted[k] && Backed(m.candidates, ps[k].source);
        var q :| 0 <= q < |m.candidates| && m.candidates[q].id == ps[k].source && m.candidates[q].state in {Approved, Expired};
        assert cs[q].id == ps[k].source && (q == i ==> c.state in {Approved, Expired});
      } else {
        assert cs[i].id == ps[k].source;
      }
    }
  }

  lemma AddedIsThere(ps: seq<PromotedMemory>, p: PromotedMemory)
    ensures HasPromotion(AddPromotion(ps, p), p.source)
    ensures ps <= AddPromotion(ps, p)
    ensures OnePerSource(ps) && !HasMemoryId(ps, p.memoryId) ==> OnePerSource(AddPromotion(ps, p))
  {
    if !HasPromotion(ps, p.source) { assert AddPromotion(ps, p)[|ps|] == p; }
  }

  lemma {:induction false} PromotionsDistinct(m: Rows, t: TaskView, now: int, memoryIds: seq<string>, n: nat)
    requires n <= |m.candidates| <= |memoryIds| && DistinctCandidates(m.candidates) && NewIds(m.promoted, memoryIds)
    requires OnePerSource(m.promoted)
    ensures OnePerSource(m.promoted + Promotions(m, t, now, memoryIds, n))
  {
    if n > 0 {
      PromotionsDistinct(m, t, now, memoryIds, n - 1);
      PromotionSources(m, t, now, memoryIds, n - 1);
      NotYetPromoted(m, t, now, memoryIds, n - 1);
      var before, c := Promotions(m, t, now, memoryIds, n - 1), m.candidates[n - 1];
      var ps := m.promoted + before;
      if Chosen(m, c, t, now) {
        var p := PromotedMemory(memoryIds[n - 1], c.id, "auto");
        assert !HasMemoryId(ps, p.memoryId) by {
          forall i | 0 <= i < |ps| ensures ps[i].memoryId != p.memoryId {
            if i < |m.promoted| { assert ps[i] == m.promoted[i]; } else { assert ps[i] in before; }
          }
        }
        AddedIsThere(ps, p);
        assert m.promoted + (before + [p]) == ps + [p];
      } else {
        assert before + [] == before;
      }
    }
  }

  lemma AutoKeepsConsistent(m: Rows, t: TaskView, now: int, memoryIds: seq<string>)
    requires Consistent(m) && |m.candidates| <= |memoryIds| && NewIds(m.promoted, memoryIds)
    ensures Consistent(AutoPromote(m, t, now, memoryIds).0)
  {
    var n := |m.candidates|;
    var made, cs := Promotions(m, t, now, memoryIds, n), Swept(m, t, now, n);
    var ps := m.promoted + made;
    PromotionsDistinct(m, t, now, memoryIds, n);
    PromotionSources(m, t, now, memoryIds, n);
    assert DistinctCandidates(cs) by { assert forall i :: 0 <= i < n ==> cs[i].id == m.candidates[i].id; }
    forall i | 0 <= i < n && cs[i].state == Approved ensures HasPromotion(ps, cs[i].id) {
      if Chosen(m, m.candidates[i], t, now) {
        var p := PromotedMemory(memoryIds[i], cs[i].id, "auto");
        var k :| 0 <= k < |made| && made[k] == p;
        assert ps[|m.promoted| + k].source == cs[i].id;
      } else {
        var k :| 0 <= k < |m.promoted| && m.promoted[k].source == cs[i].id;
        assert ps[k].source == cs[i].id;
      }
    }
    forall k | 0 <= k < |ps| ensures Backed(cs, ps[k].source) {
      if k < |m.promoted| {
        assert Backed(m.candidates, m.promoted[k].source);
        var q :| 0 <= q < n && m.candidates[q].id == m.promoted[k].source && m.candidates[q].state in {Approved, Expired};
        assert cs[q] == m.candidates[q] && ps[k] == m.promoted[k];
      } else {
        assert ps[k] in made;
        var q :| 0 <= q < n && ps[k] == PromotedMemory(memoryIds[q], m.candidates[q].id, "auto")
                 && Chosen(m, m.candidates[q], t, now);
        assert cs[q].id == ps[k].source && cs[q].state == Approved;
      }
    }
  }

  lemma ProposeKeepsConsistent(m: Rows, c: MemoryCandidate)
    requires Consistent(m) && WellDrawn(m, ProposeVerb(c))
    ensures Consistent(m.(candidates := m.candidates + [c]))
  {
    var cs := m.candidates + [c];
    forall k | 0 <= k < |m.promoted| ensures Backed(cs, m.promoted[k].source) {
      assert Backed(m.candidates, m.promoted[k].source);
      var q :| 0 <= q < |m.candidates| && m.candidates[q].id == m.promoted[k].source
               && m.candidates[q].state in {Approved, Expired};
      assert cs[q] == m.candidates[q];
    }
  }

  lemma VerbKeepsConsistent(m: Rows, v: Verb)
    requires Consistent(m) && WellDrawn(m, v)
    ensures Consistent(After(m, v))
  {
    hide Consistent, AddPromotion, Put, Qualifies;
    match v {
      case ProposeVerb(c) =>
        ProposeKeepsConsistent(m, c);
        PutNew(m.candidates, c);
      case AutoVerb(t, now, memoryIds) => AutoKeepsConsistent(m, t, now, memoryIds);
      case ApproveVerb(id, reviewer, force, memoryId) =>
        if Approve(m, id, reviewer, force, memoryId).1 == Done {
          var i := Position(m.candidates, id);
          ReplaceKeepsConsistent(m, i, m.candidates[i].(state := Approved, reviewer := reviewer),
                                 PromotedMemory(memoryId, id, reviewer));
        }
      case RejectVerb(id, reviewer) => MoveKeepsConsistent(m, id, reviewer, RejectedByReview);
      case DeferVerb(id, reviewer) => MoveKeepsConsistent(m, id, reviewer, Deferred);
      case ExpireVerb(id, reviewer) => MoveKeepsConsistent(m, id, reviewer, Expired);
    }
  }

  lemma PutNew(cs: seq<MemoryCandidate>, c: MemoryCandidate)
    requires forall i :: 0 <= i < |cs| ==> cs[i].id != c.id
    ensures Put(cs, c) == cs + [c]
  {
  }

  function Unused(ps: seq<PromotedMemory>): (id: string)
    ensures !HasMemoryId(ps, id)
    decreases |ps|
  {
    Longer(ps);
    seq(Longest(ps) + 1, i => 'x')
  }

  function Longest(ps: seq<PromotedMemory>): nat {
    if ps == [] then 0
    else var rest := Longest(ps[1..]); if |ps[0].memoryId| > rest then |ps[0].memoryId| else rest
  }

  lemma {:induction false} Longer(ps: seq<PromotedMemory>)
    ensures forall i :: 0 <= i < |ps| ==> |ps[i].memoryId| <= Longest(ps)
  {
    if ps != [] { Longer(ps[1..]); }
  }

  lemma MoveKeepsConsistent(m: Rows, id: string, reviewer: string, to: MemoryState)
    requires Consistent(m) && to in {RejectedByReview, Deferred, Expired}
    ensures to == RejectedByReview ==> Consistent(Reject(m, id, reviewer).0)
    ensures to == Deferred ==> Consistent(Defer(m, id, reviewer).0)
    ensures to == Expired ==> Consistent(Expire(m, id, reviewer).0)
  {
    hide Consistent, AddPromotion, Put;
    var i := Position(m.candidates, id);
    if i < |m.candidates| && (to == Expired || m.candidates[i].state in {Proposed, Deferred}) {
      ReplaceKeepsConsistent(m, i, m.candidates[i].(state := to, reviewer := reviewer),
                             PromotedMemory(Unused(m.promoted), id, reviewer));
    }
  }

  /** Under any order of whole verbs: at most one memory per candidate, exactly one for an
      approved candidate, and only approved or expired candidates behind memories. */
  lemma {:induction false} RunsKeepConsistent(m: Rows, verbs: seq<Verb>)
    requires Consistent(m) && AllWellDrawn(m, verbs)
    ensures Consistent(AfterAll(m, verbs))
    decreases |verbs|
  {
    if verbs != [] {
      VerbKeepsConsistent(m, verbs[0]);
      RunsKeepConsistent(After(m, verbs[0]), verbs[1..]);
    }
  }

  /** The candidate may be promoted without review: it is proposed and not over its date, its evidence is there and
      all of it best's, its content reusable, and best is still the one it came from and the run's last. */
  ghost predicate Earned(c: MemoryCandidate, m: Rows, t: TaskView, now: int) {
    && t.enabled && t.lastStop == Some(DONE)
    && c.state == Proposed && (c.expiresAt == None || now < c.expiresAt.value)
    && |c.evidenceIds| > 0 && (forall e :: e in c.evidenceIds ==> e in t.bestEvidence) && c.reusable
    && c.sourceBest != None && t.finalBest == c.sourceBest && t.bestId == c.sourceBest
    && forall p :: p in m.promoted ==> p.source != c.id
  }

  /** The sweep approves exactly the candidates that earned it, in place, and makes a memory of each. */
  lemma SweepExactly(m: Rows, t: TaskView, now: int, memoryIds: seq<string>)
    requires |m.candidates| <= |memoryIds|
    ensures
      var (after, made) := AutoPromote(m, t, now, memoryIds);
      && |after.candidates| == |m.candidates| && after.promoted == m.promoted + made
      && (forall i :: 0 <= i < |m.candidates| ==>
            after.candidates[i] == (if Earned(m.candidates[i], m, t, now)
                                    then m.candidates[i].(state := Approved, reviewer := "auto") else m.candidates[i]))
      && (forall p :: p in made <==>
            exists i :: 0 <= i < |m.candidates| && Earned(m.candidates[i], m, t, now)
                        && p == PromotedMemory(memoryIds[i], m.candidates[i].id, "auto"))
  {
    PromotionSources(m, t, now, memoryIds, |m.candidates|);
    forall c ensures Chosen(m, c, t, now) <==> Earned(c, m, t, now) {
      if |c.evidenceIds| > 0 { assert c.evidenceIds[0] in c.evidenceIds; }
      assert (exists i :: 0 <= i < |m.promoted| && m.promoted[i].source == c.id) <==> !forall p :: p in m.promoted ==> p.source != c.id;
    }
    hide Chosen, Earned;
  }

  /** What a reviewer's verb does to the one candidate of that id, and when: an approval asks for evidence that was
      verified and can be traced, and for reusable content unless forced; a rejection takes back a deferral, a deferral
      only a proposal, and expiry anything. */
  lemma VerbsExactly(m: Rows, i: nat, reviewer: string, force: bool, memoryId: string)
    requires DistinctCandidates(m.candidates) && i < |m.candidates|
    ensures
      var c := m.candidates[i];
      var undecided := c.state == Proposed || c.state == Deferred;
      var approvable := undecided && |c.evidenceIds| > 0 && c.actionVerified && c.traceable && (c.reusable || force);
      var memory := if exists p :: p in m.promoted && p.source == c.id then [] else [PromotedMemory(memoryId, c.id, reviewer)];
      && Approve(m, c.id, reviewer, force, memoryId) ==
         (if approvable then (Rows(m.candidates[i := c.(state := Approved, reviewer := reviewer)], m.promoted + memory), Done)
          else (m, Refused))
      && Reject(m, c.id, reviewer) ==
         (if undecided then (m.(candidates := m.candidates[i := c.(state := RejectedByReview, reviewer := reviewer)]), Done)
          else (m, Refused))
      && Defer(m, c.id, reviewer) ==
         (if c.state == Proposed then (m.(candidates := m.candidates[i := c.(state := Deferred, reviewer := reviewer)]), Done)
          else (m, if c.state == Deferred then NoChange else Refused))
      && Expire(m, c.id, reviewer) ==
         (if c.state != Expired then (m.(candidates := m.candidates[i := c.(state := Expired, reviewer := reviewer)]), Done)
          else (m, NoChange))
  {
    var c := m.candidates[i];
    assert Position(m.candidates, c.id) == i;
    assert HasPromotion(m.promoted, c.id) <==> exists p :: p in m.promoted && p.source == c.id by {
      if p :| p in m.promoted && p.source == c.id {
        var n :| 0 <= n < |m.promoted| && m.promoted[n] == p;
        assert m.promoted[n].source == c.id;
      }
    }
    assert forall x: MemoryCandidate :: x.id == c.id ==> Put(m.candidates, x) == m.candidates[i := x];
    assert m.promoted + [] == m.promoted;
    hide Position, HasPromotion, Put;
  }

  /** A sweep repeated with nothing changed in between makes nothing, at any later time. */
  lemma SecondSweepIsEmpty(m: Rows, t: TaskView, now: int, memoryIds: seq<string>, later: int, moreIds: seq<string>)
    requires now <= later && |m.candidates| <= |memoryIds| && |m.candidates| <= |moreIds|
    ensures var once := AutoPromote(m, t, now, memoryIds).0;
            AutoPromote(once, t, later, moreIds) == (once, [])
  {
    var once := AutoPromote(m, t, now, memoryIds).0;
    forall i | 0 <= i < |m.candidates| ensures !Chosen(once, once.candidates[i], t, later) {
      var c := m.candidates[i];
      if !Chosen(m, c, t, now) && HasPromotion(m.promoted, c.id) {
        var k :| 0 <= k < |m.promoted| && m.promoted[k].source == c.id;
        assert once.promoted[k].source == c.id;
      }
    }
    NobodyChosen(once, t, later, moreIds, |once.candidates|);
    assert once.promoted + [] == once.promoted;
  }

  lemma {:induction false} NobodyChosen(m: Rows, t: TaskView, now: int, memoryIds: seq<string>, n: nat)
    requires n <= |m.candidates| <= |memoryIds|
    requires forall i :: 0 <= i < |m.candidates| ==> !Chosen(m, m.candidates[i], t, now)
    ensures Promotions(m, t, now, memoryIds, n) == [] && Swept(m, t, now, n) == m.candidates
  {
    if n > 0 { NobodyChosen(m, t, now, memoryIds, n - 1); }
  }

  // ---- nothing decided is undone ------------------------------------------------------------------

  /** Where a candidate's state may go. */
  predicate Forward(a: MemoryState, b: MemoryState) {
    || a == b || b == Expired
    || (a == Proposed && b in {Deferred, Approved, RejectedByReview})
    || (a == Deferred && b in {Approved, RejectedByReview})
  }

  ghost predicate MovesForward(a: Rows, b: Rows) {
    && a.promoted <= b.promoted && |a.candidates| <= |b.candidates|
    && forall i :: 0 <= i < |a.candidates| ==>
         b.candidates[i].id == a.candidates[i].id && Forward(a.candidates[i].state, b.candidates[i].state)
  }

  lemma AutoMovesForward(m: Rows, t: TaskView, now: int, memoryIds: seq<string>)
    requires |m.candidates| <= |memoryIds|
    ensures MovesForward(m, AutoPromote(m, t, now, memoryIds).0)
  {
  }

  lemma PutMovesForward(m: Rows, i: nat, c: MemoryCandidate, ps: seq<PromotedMemory>)
    requires DistinctCandidates(m.candidates) && i < |m.candidates| && m.candidates[i].id == c.id
    requires Forward(m.candidates[i].state, c.state) && m.promoted <= ps
    ensures MovesForward(m, Rows(Put(m.candidates, c), ps))
  {
    PutAt(m.candidates, i, c);
  }

  lemma VerbMovesForward(m: Rows, v: Verb)
    requires Consistent(m) && WellDrawn(m, v)
    ensures MovesForward(m, After(m, v))
  {
    assert DistinctCandidates(m.candidates);
    hide Consistent, Put, AddPromotion, MovesForward, AutoPromote, DistinctCandidates;
    assert MovesForward(m, m) by { StandingStill(m); }
    match v {
      case ProposeVerb(c) => ProposeMovesForward(m, c);
      case AutoVerb(t, now, memoryIds) => AutoMovesForward(m, t, now, memoryIds);
      case ApproveVerb(id, reviewer, force, memoryId) =>
        if Approve(m, id, reviewer, force, memoryId).1 == Done {
          var i, p := Position(m.candidates, id), PromotedMemory(memoryId, id, reviewer);
          AddedIsThere(m.promoted, p);
          PutMovesForward(m, i, m.candidates[i].(state := Approved, reviewer := reviewer), AddPromotion(m.promoted, p));
        }
      case RejectVerb(id, reviewer) => MoveMovesForward(m, id, reviewer, RejectedByReview);
      case DeferVerb(id, reviewer) => MoveMovesForward(m, id, reviewer, Deferred);
      case ExpireVerb(id, reviewer) => MoveMovesForward(m, id, reviewer, Expired);
    }
  }

  lemma StandingStill(m: Rows)
    ensures MovesForward(m, m)
  {
  }

  lemma ProposeMovesForward(m: Rows, c: MemoryCandidate)
    requires WellDrawn(m, ProposeVerb(c))
    ensures MovesForward(m, m.(candidates := Put(m.candidates, c)))
  {
    PutNew(m.candidates, c);
  }

  lemma MoveMovesForward(m: Rows, id: string, reviewer: string, to: MemoryState)
    requires DistinctCandidates(m.candidates) && to in {RejectedByReview, Deferred, Expired}
    ensures to == RejectedByReview ==> MovesForward(m, Reject(m, id, reviewer).0)
    ensures to == Deferred ==> MovesForward(m, Defer(m, id, reviewer).0)
    ensures to == Expired ==> MovesForward(m, Expire(m, id, reviewer).0)
  {
    hide DistinctCandidates, Put, MovesForward;
    StandingStill(m);
    var i := Position(m.candidates, id);
    if i < |m.candidates| && Forward(m.candidates[i].state, to) {
      PutMovesForward(m, i, m.candidates[i].(state := to, reviewer := reviewer), m.promoted);
    }
  }

  /** Over any run no memory disappears and no decision is taken back: a rejected candidate can
      only expire, an approved one too, and an expired one stays as it is. */
  lemma {:induction false} RunsMoveForward(m: Rows, verbs: seq<Verb>)
    requires Consistent(m) && AllWellDrawn(m, verbs)
    ensures MovesForward(m, AfterAll(m, verbs))
    decreases |verbs|
  {
    if verbs != [] {
      VerbMovesForward(m, verbs[0]);
      VerbKeepsConsistent(m, verbs[0]);
      RunsMoveForward(After(m, verbs[0]), verbs[1..]);
    }
  }

  // ---- a read and a later write -------------------------------------------------------------------

  /** The verbs read the candidate before their transaction. What one writes that read it as `c`: its new
      state over whatever the row has become, and its memory if it approves. */
  function LateWrite(m: Rows, c: MemoryCandidate, to: MemoryState, reviewer: string, memoryId: string): Rows {
    Rows(Put(m.candidates, c.(state := to, reviewer := reviewer)),
         if to == Approved then AddPromotion(m.promoted, PromotedMemory(memoryId, c.id, reviewer)) else m.promoted)
  }

  /** The row is read at `i` now, and was allowed to move to `to` when it was read. */
  ghost predicate ReadAs(m: Rows, i: nat, c: MemoryCandidate, to: MemoryState) {
    i < |m.candidates| && m.candidates[i].id == c.id && c.state != to && Forward(c.state, to)
  }

  /** A write that finds the row as it was read is the whole verb. */
  lemma PromptWriteIsTheVerb(m: Rows, i: nat, to: MemoryState, reviewer: string, force: bool, memoryId: string)
    requires DistinctCandidates(m.candidates) && i < |m.candidates| && ReadAs(m, i, m.candidates[i], to)
    ensures var c := m.candidates[i];
            && (to == RejectedByReview ==> LateWrite(m, c, to, reviewer, memoryId) == Reject(m, c.id, reviewer).0)
            && (to == Deferred ==> LateWrite(m, c, to, reviewer, memoryId) == Defer(m, c.id, reviewer).0)
            && (to == Expired ==> LateWrite(m, c, to, reviewer, memoryId) == Expire(m, c.id, reviewer).0)
            && (to == Approved && Approve(m, c.id, reviewer, force, memoryId).1 == Done ==>
                  LateWrite(m, c, to, reviewer, memoryId) == Approve(m, c.id, reviewer, force, memoryId).0)
  {
    var p := Position(m.candidates, m.candidates[i].id);
    assert p == i;
    hide Put, AddPromotion;
  }

  /** A late write keeps memories and candidates in step exactly if it approves or expires, or nobody made a
      memory of the candidate in between. */
  lemma LateWriteConsistentIff(m: Rows, i: nat, c: MemoryCandidate, to: MemoryState, reviewer: string, memoryId: string)
    requires Consistent(m) && ReadAs(m, i, c, to) && !HasMemoryId(m.promoted, memoryId)
    ensures Consistent(LateWrite(m, c, to, reviewer, memoryId)) <==>
            to in {Approved, Expired} || !HasPromotion(m.promoted, c.id)
  {
    var after := LateWrite(m, c, to, reviewer, memoryId);
    var written := c.(state := to, reviewer := reviewer);
    PutAt(m.candidates, i, written);
    if to in {Approved, Expired} || !HasPromotion(m.promoted, c.id) {
      LateRowsAreBacked(m, i, written, PromotedMemory(memoryId, c.id, reviewer));
    } else {
      var k :| 0 <= k < |m.promoted| && m.promoted[k].source == c.id;
      assert after.candidates == m.candidates[i := written];
      assert !Backed(after.candidates, m.promoted[k].source);
    }
  }

  lemma LateRowsAreBacked(m: Rows, i: nat, c: MemoryCandidate, p: PromotedMemory)
    requires Consistent(m) && i < |m.candidates| && m.candidates[i].id == c.id && p.source == c.id
    requires !HasMemoryId(m.promoted, p.memoryId) && (c.state in {Approved, Expired} || !HasPromotion(m.promoted, c.id))
    ensures Consistent(Rows(Put(m.candidates, c), if c.state == Approved then AddPromotion(m.promoted, p) else m.promoted))
  {
    PutAt(m.candidates, i, c);
    AddedIsThere(m.promoted, p);
    var cs := m.candidates[i := c];
    var ps := if c.state == Approved then AddPromotion(m.promoted, p) else m.promoted;
    assert m.promoted <= ps;
    forall k | 0 <= k < |cs| && cs[k].state == Approved ensures HasPromotion(ps, cs[k].id) {
      if k != i {
        var q :| 0 <= q < |m.promoted| && m.promoted[q].source == cs[k].id;
        assert ps[q].source == cs[k].id;
      }
    }
    forall k | 0 <= k < |ps| ensures Backed(cs, ps[k].source) {
      if k < |m.promoted| {
        assert ps[k] == m.promoted[k] && Backed(m.candidates, ps[k].source);
        var q :| 0 <= q < |m.candidates| && m.candidates[q].id == ps[k].source && m.candidates[q].state in {Approved, Expired};
        assert cs[q].id == ps[k].source;
        assert q == i ==> HasPromotion(m.promoted, c.id);
      } else {
        assert cs[i].id == ps[k].source;
      }
    }
  }

  /** It takes no decision back exactly if the row could still move to the new state. */
  lemma LateWriteForwardIff(m: Rows, i: nat, c: MemoryCandidate, to: MemoryState, reviewer: string, memoryId: string)
    requires DistinctCandidates(m.candidates) && ReadAs(m, i, c, to)
    ensures MovesForward(m, LateWrite(m, c, to, reviewer, memoryId)) <==> Forward(m.candidates[i].state, to)
  {
    PutAt(m.candidates, i, c.(state := to, reviewer := reviewer));
    AddedIsThere(m.promoted, PromotedMemory(memoryId, c.id, reviewer));
    hide Put, AddPromotion;
  }

  /** Two reviewers at once: one reads a proposed candidate to reject it, the other approves it, the first
      writes. The memory stays behind a rejected candidate, and the approval is taken back. */
  lemma LateRejectTakesApprovalBack(m: Rows, i: nat, reviewer: string, other: string, memoryId: string)
    requires Consistent(m) && i < |m.candidates| && m.candidates[i].state == Proposed && !HasMemoryId(m.promoted, memoryId)
    requires Approve(m, m.candidates[i].id, other, false, memoryId).1 == Done
    ensures var c := m.candidates[i];
            var approved := Approve(m, c.id, other, false, memoryId).0;
            var after := LateWrite(approved, c, RejectedByReview, reviewer, "");
            && HasPromotion(after.promoted, c.id) && i < |after.candidates| && after.candidates[i].state == RejectedByReview
            && !Consistent(after) && !MovesForward(approved, after)
  {
    var c := m.candidates[i];
    var p := PromotedMemory(memoryId, c.id, other);
    assert Position(m.candidates, c.id) == i;
    PutAt(m.candidates, i, c.(state := Approved, reviewer := other));
    AddedIsThere(m.promoted, p);
    var approved := Approve(m, c.id, other, false, memoryId).0;
    assert approved.candidates == m.candidates[i := c.(state := Approved, reviewer := other)];
    PutAt(approved.candidates, i, c.(state := RejectedByReview, reviewer := reviewer));
    var after := LateWrite(approved, c, RejectedByReview, reviewer, "");
    var k :| 0 <= k < |after.promoted| && after.promoted[k].source == c.id;
    assert !Backed(after.candidates, after.promoted[k].source);
  }
}
