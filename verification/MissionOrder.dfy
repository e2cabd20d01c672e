// mission_state_updater._ordered_*_for_phase and mission_loader._merge_ids: the order of ids.
module MissionOrder {
  import opened Domain
  import opened Ordering
  import opened MissionMirror
  import opened MissionRoundTrip

  /** Position of the last occurrence; the dictionary keeps the later index. */
  function LastIndex(ids: seq<string>, id: string): (i: nat)
    ensures i < |ids| || (id !in ids && i == |ids|)
    ensures id in ids ==> i < |ids| && ids[i] == id
  {
    if ids == [] then 0
    else if ids[|ids| - 1] == id then |ids| - 1
    else var i := LastIndex(ids[..|ids| - 1], id); if i == |ids| - 1 then |ids| else i
  }

  /** `feature_index.get(id, len(feature_index))` */
  function Rank(ids: seq<string>, id: string): nat {
    if id in ids then LastIndex(ids, id) else |Elements(ids)|
  }

  function ByRank(ids: seq<string>): (Entry, Entry) -> bool {
    (a: Entry, b: Entry) =>
      Rank(ids, a.id) < Rank(ids, b.id) || (Rank(ids, a.id) == Rank(ids, b.id) && StrLe(a.id, b.id))
  }

  /** The entries of one phase in the order they are written. */
  function Ordered(ids: seq<string>, es: seq<Entry>): seq<Entry> {
    Sort(ByRank(ids), es)
  }

  lemma ByRankIsOrder(ids: seq<string>)
    ensures TotalPreorder(ByRank(ids))
  {
    hide Rank, StrLe;
    var le := ByRank(ids);
    forall a, b ensures le(a, b) || le(b, a) { StrLeTotal(a.id, b.id); }
    forall a, b, c | le(a, b) && le(b, c) ensures le(a, c) {
      if StrLe(a.id, b.id) && StrLe(b.id, c.id) { StrLeTransitive(a.id, b.id, c.id); }
    }
  }

  lemma ByRankSeparates(ids: seq<string>, es: seq<Entry>)
    requires Distinct(Ids(es))
    ensures Antisymmetric(ByRank(ids), es)
  {
    hide Rank;
    forall x, y | x in es && y in es && ByRank(ids)(x, y) && ByRank(ids)(y, x) ensures x == y {
      StrLeAntisymmetric(x.id, y.id);
      var i :| 0 <= i < |es| && es[i] == x;
      var j :| 0 <= j < |es| && es[j] == y;
      assert Ids(es)[i] == Ids(es)[j];
    }
  }

  lemma {:induction false} IndexInDistinct(ids: seq<string>, i: nat)
    requires Distinct(ids) && i < |ids|
    ensures LastIndex(ids, ids[i]) == i
  {
    assert ids[i] in ids;
  }

  lemma {:induction false} SortedIdsStayDistinct(le: (Entry, Entry) -> bool, es: seq<Entry>)
    requires Distinct(Ids(es))
    ensures Distinct(Ids(Sort(le, es)))
  {
    SortKeepsElements(le, es);
    var s := Sort(le, es);
    forall i, j | 0 <= i < j < |s| ensures Ids(s)[i] != Ids(s)[j] {
      if s[i].id == s[j].id { SameIdTwice(es, s, i, j); }
    }
  }

  lemma SameIdTwice(es: seq<Entry>, s: seq<Entry>, i: nat, j: nat)
    requires multiset(es) == multiset(s) && i < j < |s| && s[i].id == s[j].id
    ensures !Distinct(Ids(es))
  {
    assert s[i] in multiset(s) && s[j] in multiset(s);
    var p :| 0 <= p < |es| && es[p] == s[i];
    var q :| 0 <= q < |es| && es[q] == s[j];
    if p != q {
      assert Ids(es)[p] == Ids(es)[q];
    } else {
      TwoInTheCount(s, i, j);
      OnceInTheCount(es, p);
    }
  }

  lemma TwoInTheCount(s: seq<Entry>, i: nat, j: nat)
    requires i < j < |s| && s[i] == s[j]
    ensures multiset(s)[s[i]] >= 2
  {
    assert s == s[..i] + [s[i]] + s[i + 1..j] + [s[j]] + s[j + 1..];
  }

  lemma OnceInTheCount(es: seq<Entry>, p: nat)
    requires p < |es| && multiset(es)[es[p]] >= 2
    ensures !Distinct(Ids(es))
  {
    var rest := es[..p] + es[p + 1..];
    assert es == es[..p] + [es[p]] + es[p + 1..];
    assert multiset(rest)[es[p]] >= 1;
    var q :| 0 <= q < |rest| && rest[q] == es[p];
    var k := if q < p then q else q + 1;
    assert es[k] == es[p] && k != p && Ids(es)[k] == Ids(es)[p];
  }

  /** Listing the ids in the order they were written writes them in that order again, whatever the list
      said before and however the features themselves are arranged. What the parser makes of the
      written ids is in `MissionRewrite`. */
  lemma {:induction false} OrderSettles(ids: seq<string>, es: seq<Entry>, es': seq<Entry>)
    requires Distinct(Ids(es)) && multiset(es) == multiset(es')
    ensures Ordered(Ids(Ordered(ids, es)), es') == Ordered(ids, es)
  {
    var s := Ordered(ids, es);
    var le := ByRank(Ids(s));
    SortKeepsElements(ByRank(ids), es);
    SortedIdsStayDistinct(ByRank(ids), es);
    ByRankIsOrder(Ids(s));
    ByRankSeparates(Ids(s), es);
    SortSorts(le, es');
    SortKeepsElements(le, es');
    forall i, j | 0 <= i < j < |s| ensures le(s[i], s[j]) {
      IndexInDistinct(Ids(s), i);
      IndexInDistinct(Ids(s), j);
      assert Ids(s)[i] == s[i].id && Ids(s)[j] == s[j].id;
    }
    assert Antisymmetric(le, s) by {
      assert forall x :: x in s <==> x in multiset(s);
      assert forall x :: x in es <==> x in multiset(es);
    }
    SortedUnique(le, s, Sort(le, es'));
  }

  // ---- merging ids from the YAML side -------------------------------------------------------------

  function KeepDesired(existing: seq<string>, desired: seq<string>): seq<string> {
    if existing == [] then []
    else
      KeepDesired(existing[..|existing| - 1], desired)
      + if existing[|existing| - 1] in desired then [existing[|existing| - 1]] else []
  }

  function AddMissing(ordered: seq<string>, desired: seq<string>): seq<string> {
    if desired == [] then ordered
    else
      var before := AddMissing(ordered, desired[..|desired| - 1]);
      if desired[|desired| - 1] in before then before else before + [desired[|desired| - 1]]
  }

  /** `_merge_ids` */
  function MergeIds(existing: seq<string>, desired: seq<string>): seq<string> {
    AddMissing(KeepDesired(existing, desired), desired)
  }

  lemma {:induction false} KeepDesiredFacts(existing: seq<string>, desired: seq<string>)
    ensures forall id :: id in KeepDesired(existing, desired) <==> id in existing && id in desired
    ensures (forall id :: id in existing ==> id in desired) ==> KeepDesired(existing, desired) == existing
  {
    if existing != [] {
      KeepDesiredFacts(existing[..|existing| - 1], desired);
      assert existing == existing[..|existing| - 1] + [existing[|existing| - 1]];
    }
  }

  lemma {:induction false} KeepDesiredDistinct(existing: seq<string>, desired: seq<string>)
    requires Distinct(existing)
    ensures Distinct(KeepDesired(existing, desired))
  {
    if existing != [] {
      var init, last := existing[..|existing| - 1], existing[|existing| - 1];
      KeepDesiredDistinct(init, desired);
      KeepDesiredFacts(init, desired);
      assert last !in init;
    }
  }

  lemma {:induction false} AddMissingFacts(ordered: seq<string>, desired: seq<string>)
    ensures forall id :: id in AddMissing(ordered, desired) <==> id in ordered || id in desired
    ensures ordered <= AddMissing(ordered, desired)
    ensures Distinct(ordered) ==> Distinct(AddMissing(ordered, desired))
    ensures (forall id :: id in desired ==> id in ordered) ==> AddMissing(ordered, desired) == ordered
    decreases |desired|
  {
    if desired != [] {
      AddMissingFacts(ordered, desired[..|desired| - 1]);
      assert desired == desired[..|desired| - 1] + [desired[|desired| - 1]];
    }
  }

  /** The merge holds exactly the desired ids, keeps the order already there, repeats no id that was
      not repeated before, and merging again changes nothing. */
  lemma {:induction false} MergeSettles(existing: seq<string>, desired: seq<string>)
    ensures var r := MergeIds(existing, desired);
            && (forall id :: id in r <==> id in desired)
            && KeepDesired(existing, desired) <= r && (Distinct(existing) ==> Distinct(r))
            && MergeIds(r, desired) == r
  {
    var r := MergeIds(existing, desired);
    KeepDesiredFacts(existing, desired);
    if Distinct(existing) { KeepDesiredDistinct(existing, desired); }
    AddMissingFacts(KeepDesired(existing, desired), desired);
    KeepDesiredFacts(r, desired);
    AddMissingFacts(r, desired);
  }
}
