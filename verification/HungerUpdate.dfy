// hunger_update.HungerUpdateService: gaps from newly passed checks, and what they mean.
module HungerUpdate {
  import opened Domain
  import opened CheckKeys
  import opened Ordering
  import opened Repository
  import CommitManager

  const EPSILON: real := 0.000000001

  // ---- specification ----------------------------------------------------------------------

  function Snap(gap: real): real {
    if gap <= EPSILON then 0.0 else gap
  }

  function NextGap(gap: real, decrement: real, satisfied: bool): real {
    if satisfied then 0.0 else Snap(if gap - decrement < 0.0 then 0.0 else gap - decrement)
  }

  function TotalChecks(item: HungerItem): nat {
    if item.checks == 0 then 1 else item.checks
  }

  function UpdateItem(item: HungerItem, count: nat, rep: Report): HungerItem {
    var gap := NextGap(item.gapScore, count as real / TotalChecks(item) as real, item.id in rep.satisfied);
    item.(gapScore := gap, evidenceIds := item.evidenceIds + rep.evidenceIds, updatedAtLoop := rep.loopId,
          status := if gap == 0.0 then VALIDATED_SATISFIED else WORKING)
  }

  function Touched(item: HungerItem, rep: Report): HungerItem {
    var count := CountFor(rep.newly, item.id);
    if count > 0 then UpdateItem(item, count, rep) else item
  }

  function UpdatedItems(items: seq<HungerItem>, rep: Report): (r: seq<HungerItem>)
    ensures |r| == |items|
  {
    if rep.verdict == FAIL then items
    else seq(|items|, i requires 0 <= i < |items| => Touched(items[i], rep))
  }

  // ---- the code ------------------------------------------------------------------------------

  class Service {
    const repo: SQLiteRepository

    constructor (repo: SQLiteRepository)
      ensures this.repo == repo
    {
      this.repo := repo;
    }

    /** The `progress_by_item` dictionary, with its insertion order. */
    method CountProgress(newly: seq<string>) returns (progress: map<string, nat>, order: seq<string>)
      ensures Elements(order) == progress.Keys && Distinct(order)
      ensures forall id :: id in progress ==> progress[id] == CountFor(newly, id) > 0
      ensures forall id :: id !in progress ==> CountFor(newly, id) == 0
    {
      progress, order := map[], [];
      for i := 0 to |newly|
        invariant Elements(order) == progress.Keys && Distinct(order)
        invariant forall id :: id in progress ==> progress[id] == CountFor(newly[..i], id) > 0
        invariant forall id :: id !in progress ==> CountFor(newly[..i], id) == 0
      {
        var key := newly[i];
        assert newly[..i + 1][..i] == newly[..i] && newly[..i + 1][i] == key;
        if !HasColon(key) { continue; }
        var id := ItemIdOf(key);
        if id !in progress { order := order + [id]; }
        progress := progress[id := (if id in progress then progress[id] else 0) + 1];
      }
      assert newly[..|newly|] == newly;
    }

    /** `apply_validation`: items are fetched by id, updated, and the ledger saved once. */
    method ApplyValidation(rep: Report)
      requires DistinctIds(repo.db.items)
      modifies repo`db
      ensures repo.db == old(repo.db).(items := UpdatedItems(old(repo.db.items), rep))
    {
      if rep.verdict == FAIL { return; }
      var progress, order := CountProgress(rep.newly);
      ghost var before := repo.db.items;
      var ledger, mutated := repo.db.items, false;
      for n := 0 to |order|
        invariant |ledger| == |before|
        invariant forall i :: 0 <= i < |before| ==>
                    ledger[i] == if before[i].id in order[..n] then Touched(before[i], rep) else before[i]
        invariant !mutated ==> ledger == before
      {
        var id := order[n];
        assert order[..n + 1] == order[..n] + [id] && id !in order[..n] && id in progress;
        var at := IndexOf(ledger, id);
        if at < |ledger| {
          ledger := ledger[at := UpdateItem(ledger[at], progress[id], rep)];
          mutated := true;
        }
      }
      assert order[..|order|] == order;
      assert forall i :: 0 <= i < |before| ==> before[i].id !in order ==> before[i].id !in progress;
      assert ledger == UpdatedItems(before, rep);
      if mutated { repo.db := repo.db.(items := ledger); }
    }
  }

  function IndexOf(items: seq<HungerItem>, id: string): (i: nat)
    ensures i <= |items| && (i < |items| ==> items[i].id == id)
    ensures forall k :: 0 <= k < i ==> items[k].id != id
  {
    if items == [] || items[0].id == id then 0 else 1 + IndexOf(items[1..], id)
  }

  // ---- the gap as a function of the accepted keys --------------------------------------------

  /** `k / n`, built up one check at a time. */
  function Share(k: nat, n: nat): real
    requires n > 0
  {
    if k == 0 then 0.0 else Share(k - 1, n) + 1.0 / n as real
  }

  lemma {:induction false} ShareIsQuotient(k: nat, n: nat)
    requires n > 0
    ensures Share(k, n) == k as real / n as real
  {
    if k > 0 {
      ShareIsQuotient(k - 1, n);
      QuotientStep(k, n as real);
    }
  }

  lemma QuotientStep(k: nat, r: real)
    requires k > 0 && r > 0.0
    ensures k as real / r == (k - 1) as real / r + 1.0 / r
  {
  }

  lemma {:induction false} ShareAdds(j: nat, k: nat, n: nat)
    requires n > 0
    ensures Share(j + k, n) == Share(j, n) + Share(k, n)
    ensures k > 0 ==> Share(k, n) >= Share(1, n) > 0.0
  {
    if k > 0 { ShareAdds(j, k - 1, n); }
  }

  lemma {:induction false} WholeShare(n: nat)
    requires n > 0
    ensures Share(n, n) == 1.0
  {
    ShareIsQuotient(n, n);
  }

  /** What a gap ought to be, read off the accepted keys alone. */
  function GapOf(item: HungerItem, accepted: set<string>): real {
    match item.mode
    case ModeAll => Snap(1.0 - Share(|KeysOf(item) * accepted|, TotalChecks(item)))
    case ModeAny => if KeysOf(item) * accepted != {} then 0.0 else 1.0
  }

  lemma {:induction false} KeyCount(id: string, n: nat)
    ensures |set i | 0 <= i < n :: MakeCheckKey(id, i)| == n
  {
    if n > 0 {
      KeyCount(id, n - 1);
      var fewer := set i | 0 <= i < n - 1 :: MakeCheckKey(id, i);
      var last := MakeCheckKey(id, n - 1);
      if i :| 0 <= i < n - 1 && MakeCheckKey(id, i) == last { CheckKeyInjective(id, i, id, n - 1); }
      assert (set i | 0 <= i < n :: MakeCheckKey(id, i)) == fewer + {last};
    }
  }

  /** Counting a report's keys by id counts the item's checks among them. */
  lemma {:induction false} CountIsCardinality(item: HungerItem, newly: seq<string>)
    requires ':' !in item.id && Distinct(newly)
    requires forall k :: k in newly && ItemIdOf(k) == item.id ==> k in KeysOf(item)
    ensures CountFor(newly, item.id) == |KeysOf(item) * Elements(newly)|
  {
    if newly == [] {
      assert KeysOf(item) * Elements(newly) == {};
    } else {
      var init, key := newly[..|newly| - 1], newly[|newly| - 1];
      assert newly == init + [key] && key !in init;
      CountIsCardinality(item, init);
      var before := KeysOf(item) * Elements(init);
      if key in KeysOf(item) {
        var i :| 0 <= i < item.checks && key == MakeCheckKey(item.id, i);
        ItemIdOfCheckKey(item.id, i);
        assert KeysOf(item) * Elements(newly) == before + {key};
      } else {
        assert KeysOf(item) * Elements(newly) == before;
      }
    }
  }

  lemma GapStep(had: nat, count: nat, n: nat, satisfied: bool)
    requires n > 0 && had + count <= n && (satisfied ==> had + count == n)
    ensures NextGap(Snap(1.0 - Share(had, n)), Share(count, n), satisfied) == Snap(1.0 - Share(had + count, n))
  {
    ShareAdds(had, count, n);
    ShareAdds(had + count, n - had - count, n);
    WholeShare(n);
  }

  /** The passing keys of the item, before and after a report without regressions. */
  lemma KeysBeforeAndAfter(item: HungerItem, before: set<string>, rep: Report)
    requires ':' !in item.id && ReportsAgainst(rep, before) && rep.regressed == []
    requires forall k :: k in rep.newly && ItemIdOf(k) == item.id ==> k in KeysOf(item)
    ensures var count := CountFor(rep.newly, item.id);
            && |KeysOf(item) * rep.current| == |KeysOf(item) * before| + count <= item.checks
            && (Met(item, rep.current) <==>
                match item.mode
                case ModeAll => |KeysOf(item) * rep.current| == item.checks
                case ModeAny => |KeysOf(item) * rep.current| > 0)
            && (count == 0 ==> KeysOf(item) * rep.current == KeysOf(item) * before)
  {
    var keys := KeysOf(item);
    CountIsCardinality(item, rep.newly);
    var had, got := keys * before, keys * Elements(rep.newly);
    assert Elements(rep.regressed) == {};
    assert keys * rep.current == had + got && had !! got;
    KeyCount(item.id, item.checks);
    assert |keys| == item.checks;
    SubsetSize(had + got, keys);
    AllKeys(keys, rep.current);
  }

  /** One report moves the gap from what the old keys say to what the new keys say. */
  lemma GapFollowsKeys(item: HungerItem, before: set<string>, rep: Report)
    requires ':' !in item.id && ReportsAgainst(rep, before) && rep.regressed == []
    requires forall k :: k in rep.newly && ItemIdOf(k) == item.id ==> k in KeysOf(item)
    requires CountFor(rep.newly, item.id) > 0 ==> (item.id in rep.satisfied <==> Met(item, rep.current))
    requires item.gapScore == GapOf(item, before)
    ensures Touched(item, rep).gapScore == GapOf(item, rep.current)
  {
    hide Share, CountFor, ReportsAgainst, Snap;
    var count := CountFor(rep.newly, item.id);
    KeysBeforeAndAfter(item, before, rep);
    if count > 0 {
      ShareIsQuotient(count, item.checks);
      if item.mode == ModeAll {
        GapStep(|KeysOf(item) * before|, count, item.checks, item.id in rep.satisfied);
      }
    }
  }

  lemma {:induction false} CountedIff(keys: seq<string>, id: string)
    ensures CountFor(keys, id) > 0 <==> exists k :: k in keys && ':' in k && ItemIdOf(k) == id
  {
    if keys != [] {
      var init, last := keys[..|keys| - 1], keys[|keys| - 1];
      assert keys == init + [last];
      CountedIff(init, id);
      HasColonIff(last);
    }
  }

  /** An item changes exactly if the report does not fail and newly passes a key of it. Its gap then goes to zero
      if it is satisfied, or falls by a check's share at least, to zero if almost nothing is left of it; it takes the
      report's evidence and loop, and is satisfied exactly with no gap left. */
  lemma ItemChangesExactly(items: seq<HungerItem>, rep: Report, i: nat)
    requires i < |items|
    ensures
      var (item, after) := (items[i], UpdatedItems(items, rep)[i]);
      var gained := rep.verdict != FAIL && exists k :: k in rep.newly && ':' in k && ItemIdOf(k) == item.id;
      && (!gained ==> after == item)
      && (gained ==>
            && after == item.(gapScore := after.gapScore, status := after.status,
                              evidenceIds := item.evidenceIds + rep.evidenceIds, updatedAtLoop := rep.loopId)
            && after.status == (if after.gapScore == 0.0 then VALIDATED_SATISFIED else WORKING)
            && (item.id in rep.satisfied ==> after.gapScore == 0.0)
            && (after.gapScore == 0.0 ||
                0.000000001 < after.gapScore <= item.gapScore - 1.0 / (if item.checks == 0 then 1 else item.checks) as real))
  {
    CountedIff(rep.newly, items[i].id);
    var count := CountFor(rep.newly, items[i].id);
    if count > 0 { MoreShares(count, TotalChecks(items[i])); }
  }

  lemma MoreShares(count: nat, n: nat)
    requires count >= 1 && n >= 1
    ensures 1.0 / n as real <= count as real / n as real
  {
    var x, y := 1.0 / n as real, count as real / n as real;
    assert x * n as real == 1.0 && y * n as real == count as real;
    assert y < x ==> (x - y) * n as real > 0.0;
  }

  lemma SubsetSize<T>(a: set<T>, b: set<T>)
    requires a <= b
    ensures |a| <= |b|
  {
    assert b == a + (b - a);
  }

  lemma AllKeys(keys: set<string>, current: set<string>)
    ensures keys <= current <==> |keys * current| == |keys|
  {
    if keys <= current { assert keys * current == keys; }
    else {
      assert keys == keys * current + (keys - current);
      assert keys - current != {};
    }
  }

  /** Nothing passes the snap early exactly when the item has fewer than a thousand million
      checks: with more, a missing check is within EPSILON of done. */
  lemma SnapsEarlyIff(n: nat)
    requires n > 0
    ensures (exists k: nat :: k < n && Snap(1.0 - Share(k, n)) == 0.0) <==> n >= 1_000_000_000
  {
    WholeShare(n);
    if n >= 1_000_000_000 {
      ShareAdds(n - 1, 1, n);
      UnitShare(n as real);
      assert Snap(1.0 - Share(n - 1, n)) == 0.0;
    } else {
      UnitShare(n as real);
      forall k: nat | k < n ensures Snap(1.0 - Share(k, n)) != 0.0 {
        ShareAdds(k, n - k, n);
      }
    }
  }

  lemma UnitShare(r: real)
    requires r > 0.0
    ensures 1.0 / r <= EPSILON <==> r >= 1_000_000_000.0
  {
    assert (1.0 / r) * r == 1.0;
  }

  // ---- rounding ----------------------------------------------------------------------------------

  /** One round on one item: checks passed, the decrement the machine computed, and whether
      the report listed the item as satisfied. */
  datatype Round = Round(count: nat, decrement: real, satisfied: bool)

  function Passed(rounds: seq<Round>): nat {
    if rounds == [] then 0 else Passed(rounds[..|rounds| - 1]) + rounds[|rounds| - 1].count
  }

  function GapAfter(rounds: seq<Round>): real {
    if rounds == [] then 1.0
    else
      var last := rounds[|rounds| - 1];
      NextGap(GapAfter(rounds[..|rounds| - 1]), last.decrement, last.satisfied)
  }

  /** Each round's error, of the division and the subtraction together, is at most `d`;
      an item is listed as satisfied only once all its checks have passed. */
  ghost predicate Rounded(rounds: seq<Round>, n: nat, d: real)
    requires n > 0
  {
    forall i :: 0 <= i < |rounds| ==>
      && -d <= rounds[i].decrement - Share(rounds[i].count, n) <= d
      && (rounds[i].satisfied ==> Passed(rounds[..i + 1]) == n)
  }

  lemma {:induction false} PassedPrefix(rounds: seq<Round>, i: nat)
    requires i <= |rounds|
    ensures Passed(rounds[..i]) <= Passed(rounds)
    decreases |rounds|
  {
    if i < |rounds| {
      assert rounds[..|rounds| - 1][..i] == rounds[..i];
      PassedPrefix(rounds[..|rounds| - 1], i);
    } else {
      assert rounds[..i] == rounds;
    }
  }

  ghost predicate Near(gap: real, ideal: real, error: real) {
    ideal - error <= gap <= ideal + error
  }

  /** A round that leaves something to do: no snap, and the error grows by at most `d`. */
  lemma NearStep(gap: real, ideal: real, error: real, r: Round, share: real, d: real)
    requires Near(gap, ideal, error) && -d <= r.decrement - share <= d && !r.satisfied
    requires ideal - share - (error + d) > EPSILON
    ensures Near(NextGap(gap, r.decrement, r.satisfied), ideal - share, error + d)
    ensures NextGap(gap, r.decrement, r.satisfied) > EPSILON
  {
  }

  /** `k * d` */
  function Drift(k: nat, d: real): real {
    if k == 0 then 0.0 else Drift(k - 1, d) + d
  }

  lemma {:induction false} DriftGrows(a: nat, b: nat, d: real)
    requires a <= b && d >= 0.0
    ensures 0.0 <= Drift(a, d) <= Drift(b, d)
  {
    if a < b { DriftGrows(a, b - 1, d); } else if a > 0 { DriftGrows(a - 1, a - 1, d); }
  }

  lemma {:induction false} DriftIsProduct(k: nat, d: real)
    ensures Drift(k, d) == k as real * d
  {
    if k > 0 { DriftIsProduct(k - 1, d); }
  }

  /** What is known of the gap after `rounds`, within a drift that at most reaches `Drift(m, d)`. */
  ghost predicate OnTrack(gap: real, passed: nat, done: nat, n: nat, d: real)
    requires n > 0
  {
    && (passed < n ==> Near(gap, 1.0 - Share(passed, n), Drift(done, d)) && gap > EPSILON)
    && (passed == n ==> gap == 0.0)
  }

  lemma {:induction false} GapStaysNear(rounds: seq<Round>, n: nat, d: real, m: nat)
    requires n > 0 && d >= 0.0 && Rounded(rounds, n, d) && |rounds| <= m && Passed(rounds) <= n
    requires Drift(m, d) <= EPSILON < Share(1, n) - Drift(m, d)
    ensures OnTrack(GapAfter(rounds), Passed(rounds), |rounds|, n, d)
    decreases |rounds|
  {
    if rounds == [] {
      DriftGrows(0, m, d);
      WholeShare(n);
      ShareAdds(0, n, n);
    } else {
      var init, last := rounds[..|rounds| - 1], rounds[|rounds| - 1];
      RoundedPrefix(rounds, n, d, |rounds| - 1);
      assert rounds[..|rounds| - 1 + 1] == rounds;
      GapStaysNear(init, n, d, m);
      RoundStep(GapAfter(init), Passed(init), |init|, last, n, d, m);
    }
  }

  lemma {:induction false} RoundStep(gap: real, before: nat, done: nat, last: Round, n: nat, d: real, m: nat)
    requires n > 0 && d >= 0.0 && done < m && before + last.count <= n
    requires Drift(m, d) <= EPSILON < Share(1, n) - Drift(m, d)
    requires -d <= last.decrement - Share(last.count, n) <= d && (last.satisfied ==> before + last.count == n)
    requires OnTrack(gap, before, done, n, d)
    ensures OnTrack(NextGap(gap, last.decrement, last.satisfied), before + last.count, done + 1, n, d)
  {
    var passed := before + last.count;
    DriftGrows(done + 1, m, d);
    DriftGrows(1, m, d);
    ShareAdds(before, last.count, n);
    ShareAdds(passed, n - passed, n);
    WholeShare(n);
    if passed < n {
      NearStep(gap, 1.0 - Share(before, n), Drift(done, d), last, Share(last.count, n), d);
    }
  }

  lemma RoundedPrefix(rounds: seq<Round>, n: nat, d: real, i: nat)
    requires n > 0 && Rounded(rounds, n, d) && i <= |rounds|
    ensures Rounded(rounds[..i], n, d)
  {
    forall j | 0 <= j < i
      ensures -d <= rounds[..i][j].decrement - Share(rounds[..i][j].count, n) <= d
      ensures rounds[..i][j].satisfied ==> Passed(rounds[..i][..j + 1]) == n
    {
      assert rounds[..i][..j + 1] == rounds[..j + 1];
    }
  }

  /** Convergence under rounding: the item is satisfied when its last check passes, not before
      and not after, whether or not the report lists it. `Drift(m, d)` is `m * d`. */
  lemma {:induction false} SatisfiedExactlyAtTheEnd(rounds: seq<Round>, n: nat, d: real)
    requires n > 0 && d >= 0.0 && Rounded(rounds, n, d) && Passed(rounds) <= n
    requires Drift(|rounds|, d) <= EPSILON < 1.0 / n as real - Drift(|rounds|, d)
    ensures forall i :: 0 <= i <= |rounds| ==> (GapAfter(rounds[..i]) == 0.0 <==> Passed(rounds[..i]) == n)
  {
    forall i | 0 <= i <= |rounds| ensures GapAfter(rounds[..i]) == 0.0 <==> Passed(rounds[..i]) == n {
      PrefixOnTrack(rounds, i, n, d);
    }
  }

  lemma {:induction false} PrefixOnTrack(rounds: seq<Round>, i: nat, n: nat, d: real)
    requires n > 0 && d >= 0.0 && Rounded(rounds, n, d) && Passed(rounds) <= n && i <= |rounds|
    requires Drift(|rounds|, d) <= EPSILON < Share(1, n) - Drift(|rounds|, d)
    ensures GapAfter(rounds[..i]) == 0.0 <==> Passed(rounds[..i]) == n
  {
    PassedPrefix(rounds, i);
    RoundedPrefix(rounds, n, d, i);
    GapStaysNear(rounds[..i], n, d, |rounds|);
  }
}
