// hunger_engine.HungerEngine: drive budget, stop reason, and the mission phase machine.
module HungerEngine {
  import opened Domain

  datatype LoopPhase = EXPLORE | EXPLOIT | COOLDOWN

  datatype Snapshot = Snapshot(driveBudget: real, workPressure: real, activeHunger: real, driveRatio: real,
                               phase: LoopPhase, stopReason: Option<StopReason>)

  // ---- drive budget ------------------------------------------------------------------------

  function RMin(a: real, b: real): real { if b < a then b else a }
  function RMax(a: real, b: real): real { if b > a then b else a }

  function Scaled(whole: real, share: real): real { whole * share }

  /** `_compute_drive_budget`; `None` is Python's ZeroDivisionError. */
  function RawBudget(p: Policy, c: Clock, now: real): Option<real> {
    if c.manuallyCleared then Some(0.0)
    else if p.decayType == LOOP_COUNT then
      // int() truncates towards zero; both roundings agree where the result is positive
      var maxLoops := p.decayDuration.Floor;
      if maxLoops <= 0 then Some(p.initialHunger)
      else
        var remaining := if maxLoops - c.loopCount > 0 then maxLoops - c.loopCount else 0;
        Some(Scaled(p.initialHunger, remaining as real / maxLoops as real))
    else if p.startedAt.None? then Some(p.initialHunger)
    else
      var elapsed := RMax(0.0, now - p.startedAt.value);
      if p.decayType == LINEAR then
        if p.decayDuration == 0.0 then None
        else Some(Scaled(p.initialHunger, 1.0 - RMin(1.0, elapsed / p.decayDuration)))
      else if elapsed >= p.decayDuration then Some(0.0)
      else Some(Scaled(p.initialHunger, 1.0 - elapsed / p.decayDuration))
  }

  function WorkPressure(items: seq<HungerItem>): real {
    if items == [] then 0.0
    else
      var last := items[|items| - 1];
      WorkPressure(items[..|items| - 1]) + if Active(last) then last.priority * last.gapScore else 0.0
  }

  function PhaseWithHysteresis(ratio: real, previous: Option<LoopPhase>): LoopPhase {
    if ratio > 0.6 then EXPLORE
    else if ratio > 0.3 then (if previous == Some(EXPLORE) then EXPLORE else EXPLOIT)
    else COOLDOWN
  }

  /** The stop ladder: paused, ceilings, blocked, expired, done. */
  function StopFor(p: Policy, c: Clock, items: seq<HungerItem>, budget: real): Option<StopReason> {
    if c.frozen then Some(HUMAN_PAUSED)
    else if c.cost >= p.maxCost then Some(SAFETY_STOP)
    else if c.tokens >= p.maxTokens then Some(SAFETY_STOP)
    else if AllRemainingBlocked(items) then Some(STOP_BLOCKED)
    else if budget <= 0.0 && !IsDone(items) then Some(HUNGER_EXPIRED)
    else if IsDone(items) then Some(DONE)
    else None
  }

  /** A tick of a task without a mission. */
  function BaseSnapshot(p: Policy, c: Clock, items: seq<HungerItem>, previous: Option<LoopPhase>, now: real)
    : Option<Snapshot>
  {
    var raw := RawBudget(p, c, now);
    if raw.None? then None
    else
      var budget := RMax(0.0, RMin(p.hMax, raw.value));
      var pressure := WorkPressure(items) * p.hMax;
      var ratio := if p.hMax > 0.0 then budget / p.hMax else 0.0;
      Some(Snapshot(budget, pressure, RMin(budget, pressure), ratio, PhaseWithHysteresis(ratio, previous),
                    StopFor(p, c, items, budget)))
  }

  // ---- mission phases ------------------------------------------------------------------------

  datatype PhaseStatus = PENDING | IN_PROGRESS | VALIDATING | PHASE_DONE
  datatype Phase = Phase(id: string, status: PhaseStatus, completedAt: Option<real>)
  datatype Feature = Feature(id: string, phaseId: string, status: FeatureStatus)
  datatype Mission = Mission(phases: seq<Phase>, features: seq<Feature>)

  datatype PipelineVerdict = PIPE_PASS | PIPE_FAIL | PIPE_SKIPPED
  datatype Pipeline = Pipeline(verdict: PipelineVerdict, regressed: bool,
                               scrutiny: Option<Verdict>, userTesting: Option<Verdict>)

  /** A pipeline result and the phase it was run for. */
  datatype Validation = NoValidation | Validated(result: Pipeline, phaseId: string)

  predicate Failed(phase: Phase, v: Validation) {
    v.Validated? && v.phaseId == phase.id && v.result.verdict == PIPE_FAIL
  }

  predicate FullPass(phase: Phase, v: Validation) {
    && v.Validated? && v.phaseId == phase.id && v.result.verdict == PIPE_PASS && !v.result.regressed
    && v.result.scrutiny == Some(PASS) && v.result.userTesting == Some(PASS)
  }

  predicate HasStarted(phase: Phase, features: seq<Feature>) {
    exists i :: 0 <= i < |features| && features[i].phaseId == phase.id && features[i].status == FeatureInProgress
  }

  predicate FeaturesDone(phase: Phase, features: seq<Feature>) {
    && (exists i :: 0 <= i < |features| && features[i].phaseId == phase.id)
    && (forall i :: 0 <= i < |features| && features[i].phaseId == phase.id ==> features[i].status == FeatureDone)
  }

  /** What one tick does to one phase; `None` leaves the row alone. */
  function Transition(phase: Phase, v: Validation, features: seq<Feature>): Option<PhaseStatus> {
    match phase.status
    case PHASE_DONE => None
    case VALIDATING =>
      if Failed(phase, v) then Some(IN_PROGRESS) else if FullPass(phase, v) then Some(PHASE_DONE) else None
    case PENDING => if HasStarted(phase, features) then Some(IN_PROGRESS) else None
    case IN_PROGRESS => if FeaturesDone(phase, features) then Some(VALIDATING) else None
  }

  function NextPhase(phase: Phase, v: Validation, features: seq<Feature>, now: real): Phase {
    match Transition(phase, v, features)
    case None => phase
    case Some(status) => phase.(status := status, completedAt := if status == PHASE_DONE then Some(now) else None)
  }

  /** The status reported by the last phase that was, or stayed, in motion. */
  function LastStatus(phases: seq<Phase>, v: Validation, features: seq<Feature>): Option<PhaseStatus> {
    if phases == [] then None
    else
      var last := phases[|phases| - 1];
      var t := Transition(last, v, features);
      if t.Some? then t
      else if last.status == VALIDATING then Some(VALIDATING)
      else LastStatus(phases[..|phases| - 1], v, features)
  }

  function NextPhases(m: Mission, v: Validation, now: real): (r: seq<Phase>)
    ensures |r| == |m.phases|
  {
    seq(|m.phases|, i requires 0 <= i < |m.phases| => NextPhase(m.phases[i], v, m.features, now))
  }

  predicate AllDone(phases: seq<Phase>) {
    forall i :: 0 <= i < |phases| ==> phases[i].status == PHASE_DONE
  }

  ghost predicate DistinctPhases(phases: seq<Phase>) {
    forall i, j :: 0 <= i < j < |phases| ==> phases[i].id != phases[j].id
  }

  /** The stop reason once a mission has had its say. */
  function MissionStop(stop: Option<StopReason>, m: Mission, v: Validation, now: real): Option<StopReason> {
    if LastStatus(m.phases, v, m.features) == Some(VALIDATING) then None
    else if stop == Some(DONE) && !AllDone(NextPhases(m, v, now)) then None
    else stop
  }

  function Ticked(m: Option<Mission>, p: Policy, c: Clock, items: seq<HungerItem>, previous: Option<LoopPhase>,
                  v: Validation, now: real): (Option<Mission>, Option<Snapshot>)
  {
    var base := BaseSnapshot(p, c, items, previous, now);
    if base.None? || m.None? then (m, base)
    else (Some(m.value.(phases := NextPhases(m.value, v, now))),
          Some(base.value.(stopReason := MissionStop(base.value.stopReason, m.value, v, now))))
  }

  // ---- the code ----------------------------------------------------------------------------------

  class Engine {
    /** The repository's mission rows; this class is the only writer of phase status. */
    var mission: Option<Mission>

    constructor (mission: Option<Mission>)
      ensures this.mission == mission
    {
      this.mission := mission;
    }

    /** `repo.update_phase_status`: a done row only accepts `done`. */
    method UpdatePhaseStatus(id: string, status: PhaseStatus, completedAt: Option<real>) returns (ok: bool)
      requires mission.Some?
      modifies this
      ensures var old_ := old(mission.value.phases);
              ok == !(exists i :: 0 <= i < |old_| && old_[i].id == id && old_[i].status == PHASE_DONE && status != PHASE_DONE)
      ensures !ok ==> mission == old(mission)
      ensures ok ==> mission.Some? && mission.value.features == old(mission.value.features)
                     && |mission.value.phases| == |old(mission.value.phases)|
                     && forall i :: 0 <= i < |mission.value.phases| ==>
                          mission.value.phases[i] ==
                          var row := old(mission.value.phases)[i];
                          if row.id == id then row.(status := status, completedAt := completedAt) else row
    {
      var rows := mission.value.phases;
      if exists i :: 0 <= i < |rows| && rows[i].id == id && rows[i].status == PHASE_DONE && status != PHASE_DONE {
        return false;
      }
      mission := Some(mission.value.(phases :=
        seq(|rows|, i requires 0 <= i < |rows| =>
          if rows[i].id == id then rows[i].(status := status, completedAt := completedAt) else rows[i])));
      return true;
    }

    /** The loop body of `_advance_mission_phases`, for one phase of the snapshot. */
    method AdvanceOne(phase: Phase, v: Validation, features: seq<Feature>, now: real) returns (moved: Option<PhaseStatus>)
      requires mission.Some?
      requires forall i :: 0 <= i < |mission.value.phases| && mission.value.phases[i].id == phase.id ==>
                 mission.value.phases[i] == phase
      modifies this
      ensures mission.Some? && mission.value.features == old(mission.value.features)
      ensures |mission.value.phases| == |old(mission.value.phases)|
      ensures forall i :: 0 <= i < |mission.value.phases| ==>
                mission.value.phases[i] ==
                var row := old(mission.value.phases)[i];
                if row.id == phase.id then NextPhase(phase, v, features, now) else row
      ensures moved == if phase.status == VALIDATING && Transition(phase, v, features).None? then Some(VALIDATING)
                       else Transition(phase, v, features)
    {
      if phase.status == PHASE_DONE { return None; }
      if phase.status == VALIDATING {
        if Failed(phase, v) {
          var _ := UpdatePhaseStatus(phase.id, IN_PROGRESS, None);
          return Some(IN_PROGRESS);
        } else if FullPass(phase, v) {
          var _ := UpdatePhaseStatus(phase.id, PHASE_DONE, Some(now));
          return Some(PHASE_DONE);
        }
        return Some(VALIDATING);
      }
      if phase.status == PENDING && HasStarted(phase, features) {
        var _ := UpdatePhaseStatus(phase.id, IN_PROGRESS, None);
        return Some(IN_PROGRESS);
      }
      if phase.status == IN_PROGRESS && FeaturesDone(phase, features) {
        var _ := UpdatePhaseStatus(phase.id, VALIDATING, None);
        return Some(VALIDATING);
      }
      return None;
    }

    /** `_advance_mission_phases`: walks a snapshot of the phases while writing the rows. */
    method AdvanceMissionPhases(v: Validation, now: real) returns (last: Option<PhaseStatus>)
      requires mission.Some? && DistinctPhases(mission.value.phases)
      modifies this
      ensures mission == Some(old(mission.value).(phases := NextPhases(old(mission.value), v, now)))
      ensures last == LastStatus(old(mission.value.phases), v, old(mission.value.features))
    {
      var snapshot := mission.value;
      var phases := snapshot.phases;
      last := None;
      for i := 0 to |phases|
        invariant mission.Some? && mission.value.features == snapshot.features
        invariant |mission.value.phases| == |phases|
        invariant forall k :: 0 <= k < |phases| ==>
                    mission.value.phases[k] ==
                    if k < i then NextPhase(phases[k], v, snapshot.features, now) else phases[k]
        invariant last == LastStatus(phases[..i], v, snapshot.features)
      {
        assert phases[..i + 1][..i] == phases[..i] && phases[..i + 1][i] == phases[i];
        var moved := AdvanceOne(phases[i], v, snapshot.features, now);
        if moved.Some? { last := moved; }
      }
      assert phases[..|phases|] == phases;
      assert mission.value.phases == NextPhases(snapshot, v, now);
    }

    /** `tick`; `None` is an exception out of the budget computation. */
    method Tick(p: Policy, c: Clock, items: seq<HungerItem>, previous: Option<LoopPhase>, v: Validation, now: real)
      returns (snap: Option<Snapshot>)
      requires mission.Some? ==> DistinctPhases(mission.value.phases)
      modifies this
      ensures (mission, snap) == Ticked(old(mission), p, c, items, previous, v, now)
    {
      var base := BaseSnapshot(p, c, items, previous, now);
      if base.None? { return None; }
      var stop := base.value.stopReason;
      if mission.Some? {
        var moved := AdvanceMissionPhases(v, now);
        if moved == Some(VALIDATING) { stop := None; }
        else if stop == Some(DONE) && !AllDone(mission.value.phases) { stop := None; }
      }
      return Some(base.value.(stopReason := stop));
    }
  }

  // ---- promises of the phase machine ------------------------------------------------------------

  /** What the ticks see: the world may change features and everything but phase rows in between. */
  datatype TickInput = TickInput(features: seq<Feature>, v: Validation, now: real)

  function AfterTick(phases: seq<Phase>, t: TickInput): seq<Phase> {
    NextPhases(Mission(phases, t.features), t.v, t.now)
  }

  function AfterTicks(phases: seq<Phase>, ticks: seq<TickInput>): (r: seq<Phase>)
    ensures |r| == |phases|
    decreases |ticks|
  {
    if ticks == [] then phases else AfterTicks(AfterTick(phases, ticks[0]), ticks[1..])
  }

  predicate Edge(a: PhaseStatus, b: PhaseStatus) {
    || a == b
    || (a == PENDING && b == IN_PROGRESS) || (a == IN_PROGRESS && b == VALIDATING)
    || (a == VALIDATING && (b == IN_PROGRESS || b == PHASE_DONE))
  }

  function Rank(s: PhaseStatus): nat {
    match s case PENDING => 0 case IN_PROGRESS => 1 case VALIDATING => 2 case PHASE_DONE => 3
  }

  /** What a tick does to a phase, edge by edge: done on a pass of both boundary checks without a regression,
      back on a failed pipeline, started by its first feature, into validation when all its features are done. */
  lemma TickMovesExactly(phases: seq<Phase>, t: TickInput, i: nat)
    requires i < |phases|
    ensures var (a, b, r) := (phases[i], AfterTick(phases, t)[i], if t.v.Validated? then Some(t.v.result) else None);
            var mine := t.v.Validated? && t.v.phaseId == a.id;
            && b.id == a.id
            && (a.status != PHASE_DONE && b.status == PHASE_DONE <==>
                  a.status == VALIDATING && mine && r.value.verdict == PIPE_PASS && !r.value.regressed
                  && r.value.scrutiny == Some(PASS) && r.value.userTesting == Some(PASS))
            && (a.status == VALIDATING && b.status == IN_PROGRESS <==>
                  a.status == VALIDATING && mine && r.value.verdict == PIPE_FAIL)
            && (a.status == PENDING && b.status == IN_PROGRESS <==>
                  a.status == PENDING && exists f :: f in t.features && f.phaseId == a.id && f.status == FeatureInProgress)
            && (a.status == IN_PROGRESS && b.status == VALIDATING <==>
                  a.status == IN_PROGRESS && (exists f :: f in t.features && f.phaseId == a.id)
                  && forall f :: f in t.features && f.phaseId == a.id ==> f.status == FeatureDone)
            && Edge(a.status, b.status) && (b.status == a.status ==> b == a)
            && (b.status != a.status ==> b.completedAt == if b.status == PHASE_DONE then Some(t.now) else None)
  {
    FeaturesByMember(phases[i], t.features);
  }

  lemma FeaturesByMember(phase: Phase, features: seq<Feature>)
    ensures HasStarted(phase, features) <==>
            exists f :: f in features && f.phaseId == phase.id && f.status == FeatureInProgress
    ensures FeaturesDone(phase, features) <==>
            (exists f :: f in features && f.phaseId == phase.id)
            && forall f :: f in features && f.phaseId == phase.id ==> f.status == FeatureDone
  {
    if f :| f in features && f.phaseId == phase.id && f.status == FeatureInProgress {
      var n :| 0 <= n < |features| && features[n] == f;
      assert features[n].status == FeatureInProgress;
    }
    if f :| f in features && f.phaseId == phase.id {
      var n :| 0 <= n < |features| && features[n] == f;
      assert features[n].phaseId == phase.id;
    }
    assert forall n :: 0 <= n < |features| ==> features[n] in features;
  }

  /** Some tick of the run finds the phase validating and brings it a pass of both boundary checks. */
  ghost predicate PassedAtSomeTick(phases: seq<Phase>, ticks: seq<TickInput>, i: nat)
    requires i < |phases|
    decreases |ticks|
  {
    ticks != []
    && var v := ticks[0].v;
       || (&& phases[i].status == VALIDATING && v.Validated? && v.phaseId == phases[i].id
           && v.result.verdict == PIPE_PASS && !v.result.regressed
           && v.result.scrutiny == Some(PASS) && v.result.userTesting == Some(PASS))
       || PassedAtSomeTick(AfterTick(phases, ticks[0]), ticks[1..], i)
  }

  /** Over any sequence of ticks: a phase is done exactly if it was, or some tick finds it validating and brings
      it a pass of both boundary checks; done is final, and takes one tick per edge from where the phase stood. */
  lemma {:induction false} PhaseRuns(phases: seq<Phase>, ticks: seq<TickInput>, i: nat)
    requires i < |phases|
    ensures phases[i].status == PHASE_DONE ==> AfterTicks(phases, ticks)[i] == phases[i]
    ensures AfterTicks(phases, ticks)[i].status == PHASE_DONE <==>
              phases[i].status == PHASE_DONE || PassedAtSomeTick(phases, ticks, i)
    ensures Rank(AfterTicks(phases, ticks)[i].status) <= Rank(phases[i].status) + |ticks|
    decreases |ticks|
  {
    if ticks != [] {
      TickMovesExactly(phases, ticks[0], i);
      PhaseRuns(AfterTick(phases, ticks[0]), ticks[1..], i);
    }
  }

  /** A pending phase needs three ticks to be done, one under validation a single one. */
  lemma {:induction false} TicksToDone(phases: seq<Phase>, ticks: seq<TickInput>, i: nat)
    requires i < |phases| && AfterTicks(phases, ticks)[i].status == PHASE_DONE
    ensures |ticks| >= match phases[i].status case PENDING => 3 case IN_PROGRESS => 2 case VALIDATING => 1 case PHASE_DONE => 0
  {
    PhaseRuns(phases, ticks, i);
  }

  /** The last phase that moves, or stays in validation, ends the tick validating. */
  ghost predicate Unsettled(before: seq<Phase>, after: seq<Phase>)
    requires |after| == |before|
  {
    exists i :: 0 <= i < |before| && after[i].status == VALIDATING
                && forall k :: i < k < |before| ==> after[k].status == before[k].status != VALIDATING
  }

  lemma {:induction false} LastStatusIff(phases: seq<Phase>, v: Validation, features: seq<Feature>, now: real)
    ensures var after := NextPhases(Mission(phases, features), v, now);
            LastStatus(phases, v, features) == Some(VALIDATING) <==> Unsettled(phases, after)
  {
    if phases != [] {
      var init, last := phases[..|phases| - 1], phases[|phases| - 1];
      var less := NextPhases(Mission(init, features), v, now);
      LastStatusIff(init, v, features, now);
      assert NextPhases(Mission(phases, features), v, now) == less + [NextPhase(last, v, features, now)];
      assert phases == init + [last];
      hide NextPhases;
      UnsettledByOne(init, less, last, NextPhase(last, v, features, now));
    }
  }

  lemma UnsettledByOne(before: seq<Phase>, after: seq<Phase>, a: Phase, b: Phase)
    requires |after| == |before|
    ensures Unsettled(before + [a], after + [b]) <==>
            b.status == VALIDATING || (b.status == a.status && Unsettled(before, after))
  {
    var (more, then_) := (before + [a], after + [b]);
    if b.status == VALIDATING {
      assert then_[|before|].status == VALIDATING;
    } else if b.status == a.status && Unsettled(before, after) {
      var i :| 0 <= i < |before| && after[i].status == VALIDATING
               && forall k :: i < k < |before| ==> after[k].status == before[k].status != VALIDATING;
      assert then_[i].status == VALIDATING;
    }
    if Unsettled(more, then_) && b.status != VALIDATING {
      var i :| 0 <= i < |more| && then_[i].status == VALIDATING
               && forall k :: i < k < |more| ==> then_[k].status == more[k].status != VALIDATING;
      assert i < |before| && after[i].status == VALIDATING;
      forall k | i < k < |before| ensures after[k].status == before[k].status != VALIDATING {
        assert then_[k].status == more[k].status != VALIDATING;
      }
      assert then_[|before|].status == more[|before|].status;
    }
  }

  /** A mission tick stops exactly when the ladder says stop, the last phase in motion is not
      validating, and a DONE is backed by every phase being done. In particular a phase
      under validation overrides every reason, the operator's pause and the ceilings included. */
  lemma MissionTickStopsIff(m: Mission, p: Policy, c: Clock, items: seq<HungerItem>,
                            previous: Option<LoopPhase>, v: Validation, now: real)
    requires BaseSnapshot(p, c, items, previous, now).Some?
    ensures
      var (m', snap) := Ticked(Some(m), p, c, items, previous, v, now);
      var ladder := BaseSnapshot(p, c, items, previous, now).value.stopReason;
      && m'.Some? && |m'.value.phases| == |m.phases|
      && (snap.value.stopReason.Some? <==>
            ladder.Some? && !Unsettled(m.phases, m'.value.phases)
            && (ladder == Some(DONE) ==> forall i :: 0 <= i < |m.phases| ==> m'.value.phases[i].status == PHASE_DONE))
      && (snap.value.stopReason.Some? ==> snap.value.stopReason == ladder)
  {
    LastStatusIff(m.phases, v, m.features, now);
  }

  /** A paused task whose phase is still being validated does not stop. */
  lemma PauseIsIgnoredWhileValidating(m: Mission, p: Policy, c: Clock, items: seq<HungerItem>, i: nat)
    requires i < |m.phases| && m.phases[i].status == VALIDATING
    requires forall k :: i < k < |m.phases| ==> m.phases[k].status == PHASE_DONE
    requires c.frozen && BaseSnapshot(p, c, items, None, 0.0).Some?
    ensures BaseSnapshot(p, c, items, None, 0.0).value.stopReason == Some(HUMAN_PAUSED)
    ensures Ticked(Some(m), p, c, items, None, NoValidation, 0.0).1.value.stopReason == None
  {
    LastOfTrailingDone(m.phases, NoValidation, m.features, i);
  }

  lemma {:induction false} LastOfTrailingDone(phases: seq<Phase>, v: Validation, features: seq<Feature>, i: nat)
    requires i < |phases| && phases[i].status == VALIDATING && Transition(phases[i], v, features).None?
    requires forall k :: i < k < |phases| ==> phases[k].status == PHASE_DONE
    ensures LastStatus(phases, v, features) == Some(VALIDATING)
    decreases |phases|
  {
    if i < |phases| - 1 {
      LastOfTrailingDone(phases[..|phases| - 1], v, features, i);
    }
  }

  // ---- promises of the ladder ---------------------------------------------------------------------

  /** The ladder, rung by rung. With room under both ceilings and nobody pausing: done if nothing open has a gap,
      blocked if all of that is blocked, expired if the budget is gone, and on otherwise. */
  lemma StopsExactly(p: Policy, c: Clock, items: seq<HungerItem>, budget: real)
    ensures
      var stop := StopFor(p, c, items, budget);
      var free := !c.frozen && c.cost < p.maxCost && c.tokens < p.maxTokens;
      var left := exists item :: item in items && item.status !in {CLOSED, VALIDATED_SATISFIED} && item.gapScore > 0.0;
      var movable := exists item :: item in items && item.status in {OPEN, WORKING, PAUSED} && item.gapScore > 0.0;
      && (stop == Some(HUMAN_PAUSED) <==> c.frozen)
      && (stop == Some(SAFETY_STOP) <==> !c.frozen && (c.cost >= p.maxCost || c.tokens >= p.maxTokens))
      && (stop == Some(DONE) <==> free && !left)
      && (stop == Some(STOP_BLOCKED) <==> free && left && !movable)
      && (stop == Some(HUNGER_EXPIRED) <==> free && movable && budget <= 0.0)
      && (stop == None <==> free && movable && budget > 0.0)
  {
    LedgerByMember(items);
    hide IsDone, AllRemainingBlocked;
  }

  lemma LedgerByMember(items: seq<HungerItem>)
    ensures IsDone(items) <==>
            !exists item :: item in items && item.status !in {CLOSED, VALIDATED_SATISFIED} && item.gapScore > 0.0
    ensures AllRemainingBlocked(items) <==>
            && (exists item :: item in items && item.status !in {CLOSED, VALIDATED_SATISFIED} && item.gapScore > 0.0)
            && !exists item :: item in items && item.status in {OPEN, WORKING, PAUSED} && item.gapScore > 0.0
  {
    assert forall i :: 0 <= i < |items| ==> items[i] in items;
    forall item | item in items && item.gapScore > 0.0
      ensures item.status !in {CLOSED, VALIDATED_SATISFIED} ==> !IsDone(items)
      ensures item.status in {OPEN, WORKING, PAUSED} ==> !AllRemainingBlocked(items)
    {
      var i :| 0 <= i < |items| && items[i] == item;
      assert Unfinished(items[i]) <==> item.status !in {CLOSED, VALIDATED_SATISFIED};
    }
  }

  /** An item presses with its priority times its gap while it is active ... */
  lemma PressureOfOne(item: HungerItem)
    ensures WorkPressure([item]) ==
            if item.status !in {BLOCKED, PAUSED, CLOSED} && item.gapScore > 0.0 then item.priority * item.gapScore else 0.0
  {
    var one := [item];
    assert one[..|one| - 1] == [] && one[|one| - 1] == item && WorkPressure([]) == 0.0;
    assert WorkPressure(one) == if Active(item) then item.priority * item.gapScore else 0.0;
  }

  /** ... and a ledger with the sum over its items. */
  lemma {:induction false} PressureAdds(a: seq<HungerItem>, b: seq<HungerItem>)
    ensures WorkPressure(a + b) == WorkPressure(a) + WorkPressure(b)
  {
    if b == [] {
      assert a + b == a;
    } else {
      PressureAdds(a, b[..|b| - 1]);
      assert (a + b)[..|a + b| - 1] == a + b[..|b| - 1];
    }
  }

  function PhasesOver(ratios: seq<real>, previous: Option<LoopPhase>): Option<LoopPhase> {
    if ratios == [] then previous
    else Some(PhaseWithHysteresis(ratios[|ratios| - 1], PhasesOver(ratios[..|ratios| - 1], previous)))
  }

  /** While the ratio only falls, a run stays in the phase it began in, exploring above 0.6 and exploiting from there on
      down, until it cools down at 0.3: an exploring run never exploits. */
  lemma {:induction false} FallingRatiosKeepPhase(ratios: seq<real>, previous: Option<LoopPhase>)
    requires ratios != [] && previous != Some(EXPLORE) && forall i :: 0 < i < |ratios| ==> ratios[i] <= ratios[i - 1]
    ensures PhasesOver(ratios, previous) ==
            Some(if ratios[|ratios| - 1] <= 0.3 then COOLDOWN else if ratios[0] > 0.6 then EXPLORE else EXPLOIT)
    ensures ratios[|ratios| - 1] <= ratios[0]
  {
    if |ratios| > 1 {
      FallingRatiosKeepPhase(ratios[..|ratios| - 1], previous);
    } else {
      assert ratios[..0] == [];
    }
  }

  /** A snapshot's budget is the raw one held between 0 and the maximum, and its other numbers follow. */
  lemma SnapshotExactly(p: Policy, c: Clock, items: seq<HungerItem>, previous: Option<LoopPhase>, now: real)
    requires RawBudget(p, c, now).Some? && p.hMax > 0.0
    ensures BaseSnapshot(p, c, items, previous, now).Some?
    ensures var (raw, snap) := (RawBudget(p, c, now).value, BaseSnapshot(p, c, items, previous, now).value);
            && 0.0 <= snap.driveBudget <= p.hMax && (0.0 <= raw <= p.hMax ==> snap.driveBudget == raw)
            && (raw < 0.0 ==> snap.driveBudget == 0.0) && (raw > p.hMax ==> snap.driveBudget == p.hMax)
            && snap.driveRatio * p.hMax == snap.driveBudget && 0.0 <= snap.driveRatio <= 1.0
            && snap.activeHunger <= snap.driveBudget && snap.activeHunger <= snap.workPressure
            && snap.activeHunger in {snap.driveBudget, snap.workPressure}
  {
    hide RawBudget, WorkPressure, PhaseWithHysteresis, StopFor;
    var budget := RMax(0.0, RMin(p.hMax, RawBudget(p, c, now).value));
    RatioWithinOne(budget, p.hMax);
  }

  lemma RatioWithinOne(part: real, whole: real)
    requires 0.0 <= part <= whole && whole > 0.0
    ensures (part / whole) * whole == part && 0.0 <= part / whole <= 1.0
  {
    var ratio, all := part / whole, whole / whole;
    assert all * whole == whole && all == 1.0;
    ShareOrder(0.0, part, whole);
    ShareOrder(part, whole, whole);
    assert ratio <= all && 0.0 / whole == 0.0;
  }

  /** Under loop-count decay the budget is gone once `N` loops have been counted. */
  lemma LoopBudgetSpent(p: Policy, c: Clock, items: seq<HungerItem>, previous: Option<LoopPhase>, now: real)
    requires p.decayType == LOOP_COUNT && p.decayDuration.Floor > 0
    ensures BaseSnapshot(p, c, items, previous, now).Some?
    ensures c.loopCount >= p.decayDuration.Floor ==>
              BaseSnapshot(p, c, items, previous, now).value.driveBudget == 0.0
              && BaseSnapshot(p, c, items, previous, now).value.stopReason.Some?
  {
    var n := p.decayDuration.Floor as real;
    assert 0.0 / n == 0.0 && Scaled(p.initialHunger, 0.0) == 0.0;
  }

  /** I-9: a ledger whose remaining items are all blocked is not done, and never stops as DONE. */
  lemma BlockedIsNotDone(p: Policy, c: Clock, items: seq<HungerItem>, budget: real)
    requires AllRemainingBlocked(items)
    ensures StopFor(p, c, items, budget) !in {Some(DONE), Some(HUNGER_EXPIRED), None}
    ensures exists i :: 0 <= i < |items| && items[i].status == BLOCKED && items[i].gapScore > 0.0
  {
    var i :| 0 <= i < |items| && Unfinished(items[i]);
    assert items[i].status == BLOCKED;
  }

  lemma ShareOrder(a: real, b: real, d: real)
    requires a <= b && d > 0.0
    ensures a / d <= b / d
  {
    var x, y := a / d, b / d;
    assert x * d == a && y * d == b;
    if x > y { PositiveProduct(x - y, d); }
  }

  lemma PositiveProduct(a: real, b: real)
    requires a > 0.0 && b > 0.0
    ensures a * b > 0.0
  {
  }

  lemma ScaleOrder(k: real, a: real, b: real)
    requires k >= 0.0 && a <= b
    ensures Scaled(k, a) <= Scaled(k, b)
  {
    if k > 0.0 && a < b { PositiveProduct(k, b - a); }
    assert k * (b - a) == k * b - k * a;
  }

  /** The share of the initial hunger that is left. */
  function LeftShare(p: Policy, c: Clock, now: real): real
    requires p.decayType == LOOP_COUNT || p.decayDuration > 0.0
  {
    if c.manuallyCleared then 0.0
    else if p.decayType == LOOP_COUNT then
      var n := p.decayDuration.Floor;
      if n <= 0 then 1.0 else (if n - c.loopCount > 0 then n - c.loopCount else 0) as real / n as real
    else if p.startedAt.None? then 1.0
    else 1.0 - RMin(1.0, RMax(0.0, now - p.startedAt.value) / p.decayDuration)
  }

  lemma OneAndZero(k: real)
    ensures Scaled(k, 1.0) == k && Scaled(k, 0.0) == 0.0
  {
  }

  lemma StageShare(elapsed: real, duration: real)
    requires duration > 0.0
    ensures elapsed >= duration ==> RMin(1.0, elapsed / duration) == 1.0
    ensures elapsed < duration ==> RMin(1.0, elapsed / duration) == elapsed / duration
  {
    assert duration / duration == 1.0;
    if elapsed >= duration { ShareOrder(duration, elapsed, duration); } else { ShareOrder(elapsed, duration, duration); }
  }

  lemma BudgetIsShare(p: Policy, c: Clock, now: real)
    requires p.decayType == LOOP_COUNT || p.decayDuration > 0.0
    ensures RawBudget(p, c, now) == Some(Scaled(p.initialHunger, LeftShare(p, c, now)))
  {
    hide Scaled;
    OneAndZero(p.initialHunger);
    if !c.manuallyCleared && p.decayType == STAGE_BASED && p.startedAt.Some? {
      StageShare(RMax(0.0, now - p.startedAt.value), p.decayDuration);
    }
  }

  lemma ProductOrder(k: real, a: real, b: real)
    requires k >= 0.0 && 0.0 <= a <= b <= 1.0
    ensures 0.0 <= Scaled(k, a) <= Scaled(k, b) <= k
  {
    hide Scaled;
    OneAndZero(k);
    ScaleOrder(k, 0.0, a);
    ScaleOrder(k, a, b);
    ScaleOrder(k, b, 1.0);
  }

  lemma ShareWithinOne(p: Policy, c: Clock, now: real)
    requires (p.decayType == LOOP_COUNT || p.decayDuration > 0.0) && c.loopCount >= 0
    ensures 0.0 <= LeftShare(p, c, now) <= 1.0
  {
    if p.decayType == LOOP_COUNT {
      var n := p.decayDuration.Floor;
      if n > 0 {
        var r := if n - c.loopCount > 0 then n - c.loopCount else 0;
        ShareOrder(0.0, r as real, n as real);
        ShareOrder(r as real, n as real, n as real);
      }
    } else if p.startedAt.Some? {
      ShareOrder(0.0, RMax(0.0, now - p.startedAt.value), p.decayDuration);
    }
  }

  lemma ShareFalls(p: Policy, c: Clock, c': Clock, now: real, now': real)
    requires p.decayType == LOOP_COUNT || p.decayDuration > 0.0
    requires 0 <= c.loopCount <= c'.loopCount && now <= now' && c.manuallyCleared == c'.manuallyCleared
    ensures LeftShare(p, c', now') <= LeftShare(p, c, now)
  {
    if p.decayType == LOOP_COUNT {
      var n := p.decayDuration.Floor;
      if n > 0 {
        var r := if n - c.loopCount > 0 then n - c.loopCount else 0;
        var r' := if n - c'.loopCount > 0 then n - c'.loopCount else 0;
        ShareOrder(r' as real, r as real, n as real);
      }
    } else if p.startedAt.Some? {
      ShareOrder(RMax(0.0, now - p.startedAt.value), RMax(0.0, now' - p.startedAt.value), p.decayDuration);
    }
  }

  /** The budget never rises: neither time nor counted loops nor clearing give any of it back,
      under every kind of decay; and it stays between 0 and the initial hunger. */
  lemma BudgetNeverRises(p: Policy, c: Clock, c': Clock, now: real, now': real)
    requires p.decayType == LOOP_COUNT || p.decayDuration > 0.0
    requires p.initialHunger >= 0.0 && 0 <= c.loopCount <= c'.loopCount && now <= now'
    requires c.manuallyCleared ==> c'.manuallyCleared
    ensures RawBudget(p, c, now).Some? && RawBudget(p, c', now').Some?
    ensures 0.0 <= RawBudget(p, c', now').value <= RawBudget(p, c, now).value <= p.initialHunger
  {
    BudgetIsShare(p, c, now);
    BudgetIsShare(p, c', now');
    ShareWithinOne(p, c, now);
    ShareWithinOne(p, c', now');
    var (left, left') := (LeftShare(p, c, now), LeftShare(p, c', now'));
    assert left' <= left by {
      if c.manuallyCleared == c'.manuallyCleared { ShareFalls(p, c, c', now, now'); }
    }
    hide RawBudget, LeftShare, Scaled;
    ProductOrder(p.initialHunger, left', left);
  }
}
