// rule_based_planner.RuleBasedPlanner: one assignment, for the most pressing active item.
module Planner {
  import opened Domain
  import opened Ordering

  function Pressure(item: HungerItem): real { item.priority * item.gapScore }

  /** `sorted(..., key=pressure, reverse=True)` is stable: earlier items win ties. */
  predicate PressureGe(a: HungerItem, b: HungerItem) { Pressure(a) >= Pressure(b) }

  function IsActive(): HungerItem -> bool { (item: HungerItem) => Active(item) }

  function InTier(tier: int): HungerItem -> bool { (item: HungerItem) => item.tier == tier }

  function LowestTier(items: seq<HungerItem>): int {
    if items == [] then 0
    else if |items| == 1 then items[0].tier
    else
      var rest := LowestTier(items[1..]);
      if items[0].tier < rest then items[0].tier else rest
  }

  /** The item the loop is assigned to, if any worker may run and any item is active. */
  function Plan(items: seq<HungerItem>, maxWorkers: int): Option<HungerItem> {
    var active := Filter(IsActive(), items);
    var ranked := Sort(PressureGe, Filter(InTier(LowestTier(active)), active));
    if maxWorkers < 1 || ranked == [] then None else Some(ranked[0])
  }

  /** Of equally pressing items the one that stands first in the ledger is planned. */
  lemma {:induction false} PlanTakesTheFirst(items: seq<HungerItem>, maxWorkers: int) returns (i: nat)
    requires Plan(items, maxWorkers).Some?
    ensures i < |items| && items[i] == Plan(items, maxWorkers).value
    ensures forall j :: 0 <= j < i && Active(items[j]) && items[j].tier == items[i].tier ==> Pressure(items[j]) < Pressure(items[i])
  {
    var active := Filter(IsActive(), items);
    var tier := LowestTier(active);
    FilterMembers(InTier(tier), active);
    var k := SortHead(PressureGe, Filter(InTier(tier), active));
    var m := FilterIndex(InTier(tier), active, k);
    assert Filter(InTier(tier), active)[k] in Filter(InTier(tier), active);
    i := FilterIndex(IsActive(), items, m);
    forall j | 0 <= j < i && Active(items[j]) && items[j].tier == items[i].tier ensures Pressure(items[j]) < Pressure(items[i]) {
      var a := FilterPlace(IsActive(), items, j, i, m);
      var b := FilterPlace(InTier(tier), active, a, m, k);
    }
  }

  lemma {:induction false} LowestTierFacts(items: seq<HungerItem>)
    ensures items != [] ==> exists t :: t in items && t.tier == LowestTier(items)
    ensures forall t :: t in items ==> LowestTier(items) <= t.tier
  {
    if |items| > 1 {
      LowestTierFacts(items[1..]);
      assert items == [items[0]] + items[1..];
      assert items[0] in items;
    } else if |items| == 1 {
      assert items[0] in items;
    }
  }

  /** The planned item is active, of the lowest active tier, and no active item of that tier
      presses harder; there is a plan whenever anything is active and a worker may run. */
  lemma PlanPicksTheMostPressing(items: seq<HungerItem>, maxWorkers: int)
    ensures Plan(items, maxWorkers).Some? <==> maxWorkers >= 1 && exists i :: 0 <= i < |items| && Active(items[i])
    ensures Plan(items, maxWorkers).Some? ==>
              var p := Plan(items, maxWorkers).value;
              && p in items && Active(p)
              && (forall t :: t in items && Active(t) ==> p.tier <= t.tier)
              && (forall t :: t in items && Active(t) && t.tier == p.tier ==> Pressure(p) >= Pressure(t))
  {
    var active := Filter(IsActive(), items);
    FilterMembers(IsActive(), items);
    LowestTierFacts(active);
    var tier := LowestTier(active);
    var eligible := Filter(InTier(tier), active);
    FilterMembers(InTier(tier), active);
    SortMembers(PressureGe, eligible);
    SortSorts(PressureGe, eligible);
    var ranked := Sort(PressureGe, eligible);
    if ranked != [] {
      assert ranked[0] in eligible;
      forall t | t in items && Active(t) && t.tier == tier ensures Pressure(ranked[0]) >= Pressure(t) {
        assert t in ranked;
        var i :| 0 <= i < |ranked| && ranked[i] == t;
        assert i > 0 ==> PressureGe(ranked[0], ranked[i]);
      }
    }
    if i :| 0 <= i < |items| && Active(items[i]) {
      assert items[i] in active;
      var t :| t in active && t.tier == tier;
      assert t in ranked;
    }
  }
}
