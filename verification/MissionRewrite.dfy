// mission.md written, read, and written again: what becomes of the order of ids.
module MissionRewrite {
  import opened Text
  import opened Domain
  import opened Ordering
  import opened MissionMirror
  import opened MissionRoundTrip
  import opened MissionReadBack
  import opened MissionFile
  import opened MissionOrder

  // ---- what a bullet is read as -------------------------------------------------------------------

  /** The id the parser takes from the bullet of `id`: what stands before the first colon, if anything. */
  function ReadId(id: string): Option<string> {
    var head := id[..IndexOf(id, ':')];
    if head == "" then None else Some(Strip(head))
  }

  lemma {:induction false} IndexOfAbsent(s: string, c: char)
    requires c !in s
    ensures IndexOf(s, c) == |s|
  {
    if s != "" { IndexOfAbsent(s[1..], c); }
  }

  lemma AfterIdReads(id: string, rest: string)
    ensures IdAfterWord(" " + id + [':'] + rest) == ReadId(id)
  {
    AfterIdAny(id, rest);
    if ':' in id {
      var front, k := " " + id, IndexOf(id, ':');
      var x := front + [':'] + rest;
      assert x == front + ([':'] + rest);
      IndexOfInside(front, ':', [':'] + rest);
      assert front[1..] == id && IndexOf(front, ':') == k + 1;
      IndexOfInside(id, ':', "");
      assert id + "" == id;
      assert x[..k + 1] == " " + id[..k];
      StripAfterSpace(id[..k]);
    } else {
      IndexOfAbsent(id, ':');
      assert id[..|id|] == id;
    }
  }

  /** However a bullet's title goes on, its first line is read as what its id says. */
  lemma BulletReads(e: Entry, word: string, rest: string)
    requires PlainStatus(e) && NoBreaks(e.id) && word in {"Feature", "Assertion"}
    ensures BulletId(Strip(FirstLine(Bullet(e.status, word, e.id, rest))), word) == ReadId(e.id)
  {
    hide BulletId, Strip, ReadId, IdAfterWord, FirstLine, Bullet, Head;
    var tail := FirstLineIsHead(e.status, word, e.id, rest);
    HeadIsRead(e.status, word, e.id, tail);
    AfterIdReads(e.id, RStrip(tail));
  }

  function ReadIds(ids: seq<string>): seq<string> {
    if ids == [] then []
    else ReadIds(ids[..|ids| - 1]) + match ReadId(ids[|ids| - 1]) case Some(id) => [id] case None => []
  }

  /** The id list the parser makes of bullets for `ids`. */
  function Readings(ids: seq<string>): seq<string> {
    Dedup(ReadIds(ids))
  }

  lemma {:induction false} PickedReads(lines: seq<string>, word: string, ids: seq<string>)
    requires |lines| == |ids| && forall i :: 0 <= i < |ids| ==> BulletId(Strip(lines[i]), word) == ReadId(ids[i])
    ensures Picked(lines, word) == ReadIds(ids)
  {
    hide BulletId, Strip, ReadId;
    if ids != [] {
      var n := |ids| - 1;
      assert forall i :: 0 <= i < n ==> lines[..n][i] == lines[i] && ids[..n][i] == ids[i];
      PickedReads(lines[..n], word, ids[..n]);
    }
  }

  lemma {:induction false} FeaturesRead(es: seq<Entry>)
    requires AllLines(Ids(es))
    requires forall i :: 0 <= i < |es| ==> PlainStatus(es[i]) && Inert(FeatureBullet(es[i]), "Feature")
    ensures Dedup(Picked(FeatureLines(es), "Feature")) == Readings(Ids(es))
  {
    var bullets := FeatureBullets(es);
    NoneIsInert("Feature");
    assert forall i :: 0 <= i < |bullets| ==> Inert(bullets[i], "Feature");
    OnlyFirstsAreRead(bullets, "Feature");
    if es == [] {
      NoneReads("Feature");
    } else {
      forall i | 0 <= i < |es| ensures BulletId(Strip(Firsts(bullets)[i]), "Feature") == ReadId(Ids(es)[i]) {
        FeatureShape(es[i]);
        assert NoBreaks(Ids(es)[i]);
        BulletReads(es[i], "Feature", FeatureRest(es[i]));
      }
      hide BulletId, Strip, ReadId, Inert, FirstLine, FeatureBullet;
      PickedReads(Firsts(bullets), "Feature", Ids(es));
    }
  }

  lemma {:induction false} AssertionsRead(es: seq<Entry>)
    requires AllLines(Ids(es))
    requires forall i :: 0 <= i < |es| ==> PlainStatus(es[i]) && Inert(AssertionBullet(es[i]), "Assertion")
    ensures Dedup(Picked(AssertionLines(es), "Assertion")) == Readings(Ids(es))
  {
    var bullets := AssertionBullets(es);
    NoneIsInert("Assertion");
    assert forall i :: 0 <= i < |bullets| ==> Inert(bullets[i], "Assertion");
    OnlyFirstsAreRead(bullets, "Assertion");
    if es == [] {
      NoneReads("Assertion");
    } else {
      forall i | 0 <= i < |es| ensures BulletId(Strip(Firsts(bullets)[i]), "Assertion") == ReadId(Ids(es)[i]) {
        AssertionShape(es[i]);
        assert NoBreaks(Ids(es)[i]);
        BulletReads(es[i], "Assertion", AssertionRest(es[i]));
      }
      hide BulletId, Strip, ReadId, Inert, FirstLine, AssertionBullet;
      PickedReads(Firsts(bullets), "Assertion", Ids(es));
    }
  }

  // ---- the order of what is read ------------------------------------------------------------------

  /** Some bullet is read as `x`. */
  predicate IsRead(ids: seq<string>, x: string) {
    exists p :: 0 <= p < |ids| && ReadId(ids[p]) == Some(x)
  }

  /** Going down the list, a bullet is read as `x` before any is read as `y`. */
  predicate ReadsBefore(ids: seq<string>, x: string, y: string) {
    exists p :: 0 <= p < |ids| && ReadId(ids[p]) == Some(x) && forall q :: 0 <= q <= p ==> ReadId(ids[q]) != Some(y)
  }

  lemma {:induction false} ReadingsOfLast(ids: seq<string>)
    requires ids != []
    ensures var before, last := Readings(ids[..|ids| - 1]), ReadId(ids[|ids| - 1]);
            Readings(ids) == if last.Some? && last.value !in before then before + [last.value] else before
  {
    var l, last := ReadIds(ids[..|ids| - 1]), ReadId(ids[|ids| - 1]);
    if last.Some? { assert (l + [last.value])[..|l|] == l; } else { assert l + [] == l; }
  }

  lemma {:induction false} ReadingsFacts(ids: seq<string>)
    ensures Distinct(Readings(ids)) && forall x :: x in Readings(ids) <==> IsRead(ids, x)
  {
    hide ReadId;
    DedupFacts(ReadIds(ids));
    if ids != [] {
      var n := |ids| - 1;
      ReadingsOfLast(ids);
      ReadingsFacts(ids[..n]);
      forall x ensures IsRead(ids, x) <==> IsRead(ids[..n], x) || ReadId(ids[n]) == Some(x) {
        if p :| 0 <= p < n && ReadId(ids[..n][p]) == Some(x) { assert ReadId(ids[p]) == Some(x); }
        if p :| 0 <= p < |ids| && ReadId(ids[p]) == Some(x) { if p < n { assert ids[..n][p] == ids[p]; } }
      }
    }
  }

  lemma ReadsBeforeOfLast(ids: seq<string>, x: string, y: string)
    requires ids != [] && !IsRead(ids[..|ids| - 1], y)
    ensures var n := |ids| - 1;
            ReadsBefore(ids, x, y) <==> IsRead(ids[..n], x) || (ReadId(ids[n]) == Some(x) && x != y)
  {
    hide ReadId;
    var n := |ids| - 1;
    assert forall p :: 0 <= p < n ==> ids[..n][p] == ids[p];
    assert forall p :: 0 <= p < n ==> ReadId(ids[..n][p]) != Some(y);
    if IsRead(ids[..n], x) {
      var p :| 0 <= p < n && ReadId(ids[..n][p]) == Some(x);
      assert ReadId(ids[p]) == Some(x);
    }
    if ReadId(ids[n]) == Some(x) && x != y { assert 0 <= n < |ids|; }
  }

  lemma ReadsBeforeInit(ids: seq<string>, x: string, y: string)
    requires ids != [] && IsRead(ids[..|ids| - 1], y)
    ensures ReadsBefore(ids, x, y) <==> ReadsBefore(ids[..|ids| - 1], x, y)
  {
    hide ReadId;
    var n := |ids| - 1;
    assert forall p :: 0 <= p < n ==> ids[..n][p] == ids[p];
    var r :| 0 <= r < n && ReadId(ids[..n][r]) == Some(y);
    assert ReadId(ids[r]) == Some(y);
    if p :| 0 <= p < |ids| && ReadId(ids[p]) == Some(x) && forall q :: 0 <= q <= p ==> ReadId(ids[q]) != Some(y) {
      assert p < n;
      assert ReadId(ids[..n][p]) == Some(x);
    }
    if p :| 0 <= p < n && ReadId(ids[..n][p]) == Some(x) && forall q :: 0 <= q <= p ==> ReadId(ids[..n][q]) != Some(y) {
      forall q | 0 <= q <= p ensures ReadId(ids[q]) != Some(y) { assert ids[..n][q] == ids[q]; }
      assert ReadId(ids[p]) == Some(x);
    }
  }

  lemma {:induction false} IndexOfAppended(r: seq<string>, v: string, x: string)
    requires Distinct(r + [v]) && x in r + [v]
    ensures LastIndex(r + [v], x) == if x == v then |r| else LastIndex(r, x)
    ensures x != v ==> x in r && LastIndex(r, x) < |r|
  {
    assert (r + [v])[..|r|] == r;
  }

  lemma {:induction false} ReadingsOrder(ids: seq<string>, x: string, y: string)
    requires x in Readings(ids) && y in Readings(ids)
    ensures LastIndex(Readings(ids), x) < LastIndex(Readings(ids), y) <==> ReadsBefore(ids, x, y)
  {
    ReadingsFacts(ids);
    if ids != [] {
      var n := |ids| - 1;
      var before, last := Readings(ids[..n]), ReadId(ids[n]);
      ReadingsOfLast(ids);
      ReadingsFacts(ids[..n]);
      hide Readings, ReadId, LastIndex, IsRead, ReadsBefore;
      if y in before { ReadsBeforeInit(ids, x, y); } else { ReadsBeforeOfLast(ids, x, y); }
      if last.Some? && last.value !in before {
        IndexOfAppended(before, last.value, x);
        IndexOfAppended(before, last.value, y);
        if y != last.value && x == last.value { NotReadNotBefore(ids[..n], x, y); }
      }
      if x in before && y in before { ReadingsOrder(ids[..n], x, y); }
    }
  }

  lemma NotReadNotBefore(ids: seq<string>, x: string, y: string)
    requires !IsRead(ids, x)
    ensures !ReadsBefore(ids, x, y)
  {
  }

  // ---- when a second writing keeps the order ------------------------------------------------------

  /** Of any two ids the upper one is read before the lower one if that is read at all; ids that no bullet
      is read as stand in ascending order. */
  predicate Settled(ids: seq<string>) {
    forall i, j :: 0 <= i < j < |ids| ==>
      && (IsRead(ids, ids[j]) ==> ReadsBefore(ids, ids[i], ids[j]))
      && (!IsRead(ids, ids[i]) && !IsRead(ids, ids[j]) ==> StrLe(ids[i], ids[j]))
  }

  lemma {:induction false} DistinctSize(s: seq<string>)
    requires Distinct(s)
    ensures |Elements(s)| == |s|
  {
    if s != [] {
      var init, last := s[..|s| - 1], s[|s| - 1];
      DistinctSize(init);
      assert s == init + [last];
      assert Elements(s) == Elements(init) + {last} && last !in Elements(init);
    }
  }

  lemma RankOfReadings(ids: seq<string>, a: Entry, b: Entry)
    requires a.id != b.id
    ensures ByRank(Readings(ids))(a, b) <==>
            && (IsRead(ids, b.id) ==> ReadsBefore(ids, a.id, b.id))
            && (!IsRead(ids, a.id) && !IsRead(ids, b.id) ==> StrLe(a.id, b.id))
  {
    ReadingsFacts(ids);
    DistinctSize(Readings(ids));
    hide Readings, LastIndex, ReadId, StrLe;
    var r := Readings(ids);
    if a.id in r && b.id in r {
      ReadingsOrder(ids, a.id, b.id);
      ReadingsOrder(ids, b.id, a.id);
      DifferentPlaces(r, a.id, b.id);
    }
    if a.id !in r { NotReadNotBefore(ids, a.id, b.id); }
  }

  lemma {:induction false} DifferentPlaces(r: seq<string>, x: string, y: string)
    requires x in r && y in r && x != y
    ensures LastIndex(r, x) != LastIndex(r, y) && LastIndex(r, x) < |r| && LastIndex(r, y) < |r|
  {
    assert r[LastIndex(r, x)] == x && r[LastIndex(r, y)] == y;
  }

  lemma SettledIsSorted(es: seq<Entry>)
    requires Distinct(Ids(es))
    ensures Settled(Ids(es)) <==> Sorted(ByRank(Readings(Ids(es))), es)
  {
    hide IsRead, ReadsBefore, StrLe, ByRank, Readings;
    var ids := Ids(es);
    forall i, j | 0 <= i < j < |es|
      ensures ByRank(Readings(ids))(es[i], es[j]) <==>
              && (IsRead(ids, ids[j]) ==> ReadsBefore(ids, ids[i], ids[j]))
              && (!IsRead(ids, ids[i]) && !IsRead(ids, ids[j]) ==> StrLe(ids[i], ids[j]))
    {
      assert ids[i] != ids[j];
      RankOfReadings(ids, es[i], es[j]);
    }
  }

  /** Writing again in the order read keeps the order exactly when it is settled. */
  lemma {:induction false} ReorderIff(es: seq<Entry>, first: seq<Entry>)
    requires Distinct(Ids(first)) && multiset(es) == multiset(first)
    ensures Ordered(Readings(Ids(first)), es) == first <==> Settled(Ids(first))
  {
    var le := ByRank(Readings(Ids(first)));
    SettledIsSorted(first);
    ByRankIsOrder(Readings(Ids(first)));
    ByRankSeparates(Readings(Ids(first)), first);
    SortIgnoresArrangement(le, first, es);
    if Settled(Ids(first)) { SortOfSorted(le, first); }
    SortSorts(le, es);
    hide Settled, Readings, ByRank;
  }

  // ---- the third writing --------------------------------------------------------------------------

  /** A reading is stripped and holds no colon, so its own bullet, unless empty, is read as it is. */
  lemma ReadingsReadThemselves(id: string)
    requires ReadId(id).Some? && ReadId(id).value != ""
    ensures ReadId(ReadId(id).value) == ReadId(id)
  {
    var head := id[..IndexOf(id, ':')];
    var x := Strip(head);
    if ':' in id {
      IndexOfInside(id, ':', "");
      assert id + "" == id;
    } else {
      IndexOfAbsent(id, ':');
      assert head == id;
    }
    StripFacts(head);
    assert ':' !in x;
    IndexOfAbsent(x, ':');
    assert x[..|x|] == x;
    StripIdempotent(head);
  }

  lemma ReadSelf(ids: seq<string>, x: string)
    requires IsRead(ids, x)
    ensures x != "" ==> ReadId(x) == Some(x)
    ensures x == "" ==> ReadId(x) == None
  {
    var p :| 0 <= p < |ids| && ReadId(ids[p]) == Some(x);
    if x != "" { ReadingsReadThemselves(ids[p]); }
  }

  /** If the empty id is among the ids and some bullet is read as it, then every other id that is read, is
      read before it. */
  predicate EmptyLast(ids: seq<string>) {
    "" in ids && IsRead(ids, "") ==> forall x :: x in ids && x != "" && IsRead(ids, x) ==> ReadsBefore(ids, x, "")
  }

  /** The order a second writing gives: read ids in the order of reading, then the others. */
  ghost predicate Rewritten(ids: seq<string>, again: seq<string>) {
    && multiset(again) == multiset(ids) && Distinct(again)
    && forall i, j :: 0 <= i < j < |again| ==>
         && (IsRead(ids, again[j]) ==> ReadsBefore(ids, again[i], again[j]))
         && (!IsRead(ids, again[i]) && !IsRead(ids, again[j]) ==> StrLe(again[i], again[j]))
  }

  lemma SameElementsSameReads(a: seq<string>, b: seq<string>, x: string)
    requires multiset(a) == multiset(b)
    ensures IsRead(a, x) <==> IsRead(b, x)
  {
    if p :| 0 <= p < |a| && ReadId(a[p]) == Some(x) {
      assert a[p] in multiset(b);
      var q :| 0 <= q < |b| && b[q] == a[p];
      assert ReadId(b[q]) == Some(x);
    }
    if p :| 0 <= p < |b| && ReadId(b[p]) == Some(x) {
      assert b[p] in multiset(a);
      var q :| 0 <= q < |a| && a[q] == b[p];
      assert ReadId(a[q]) == Some(x);
    }
  }

  /** In a rewritten list the read ids come first, and each of them but the empty one is first read at its
      own bullet. */
  lemma ReadAtHome(ids: seq<string>, again: seq<string>, i: nat, j: nat)
    requires Rewritten(ids, again) && i < |again| && j < |again| && IsRead(again, again[i]) && again[i] != ""
    requires again[j] != again[i] && IsRead(again, again[j])
    ensures again[j] != "" ==> (ReadsBefore(again, again[i], again[j]) <==> i < j)
    ensures again[j] == "" ==> ReadsBefore(again, again[i], again[j])
  {
    hide ReadId, StrLe;
    forall q | 0 <= q <= i ensures IsRead(again, again[q]) {
      SameElementsSameReads(ids, again, again[i]);
      SameElementsSameReads(ids, again, again[q]);
      if q < i { ReadsBeforeIsRead(ids, again[q], again[i]); }
    }
    forall q | 0 <= q <= i ensures again[q] != "" ==> ReadId(again[q]) == Some(again[q])
                           ensures again[q] == "" ==> ReadId(again[q]) == None {
      ReadSelf(again, again[q]);
    }
    if again[j] == "" || i < j {
      assert forall q :: 0 <= q <= i ==> ReadId(again[q]) != Some(again[j]);
      assert ReadId(again[i]) == Some(again[i]);
    } else {
      ReadSelf(again, again[j]);
      assert ReadId(again[j]) == Some(again[j]);
      forall p | 0 <= p < j ensures ReadId(again[p]) != Some(again[i]) {}
    }
  }

  lemma ReadsBeforeIsRead(ids: seq<string>, x: string, y: string)
    requires ReadsBefore(ids, x, y)
    ensures IsRead(ids, x)
  {
  }

  lemma ReadsBeforeOneWay(ids: seq<string>, x: string, y: string)
    requires ReadsBefore(ids, x, y)
    ensures !ReadsBefore(ids, y, x)
  {
    hide ReadId;
    var p :| 0 <= p < |ids| && ReadId(ids[p]) == Some(x) && forall q :: 0 <= q <= p ==> ReadId(ids[q]) != Some(y);
    assert forall r :: 0 <= r < |ids| && ReadId(ids[r]) == Some(y) ==> p < r;
  }

  /** A rewritten list is settled exactly when the empty id gave no trouble in the first. */
  lemma RewrittenSettlesIff(ids: seq<string>, again: seq<string>)
    requires Rewritten(ids, again)
    ensures Settled(again) <==> EmptyLast(ids)
  {
    hide ReadId, StrLe;
    forall x ensures IsRead(ids, x) <==> IsRead(again, x) { SameElementsSameReads(ids, again, x); }
    assert forall x :: x in again <==> x in multiset(again);
    assert forall x :: x in ids <==> x in multiset(ids);
    hide IsRead, Settled, EmptyLast;
    if EmptyLast(ids) { EmptyLastSettles(ids, again); }
    if Settled(again) { SettledMeansEmptyLast(ids, again); }
  }

  lemma SettledMeansEmptyLast(ids: seq<string>, again: seq<string>)
    requires Rewritten(ids, again) && Settled(again)
    requires forall x :: IsRead(ids, x) <==> IsRead(again, x)
    requires forall x :: x in ids <==> x in again
    ensures EmptyLast(ids)
  {
    hide ReadId, StrLe, IsRead, ReadsBefore;
    if "" in ids && IsRead(ids, "") {
      forall x | x in ids && x != "" && IsRead(ids, x) ensures ReadsBefore(ids, x, "") {
        var i :| 0 <= i < |again| && again[i] == x;
        var j :| 0 <= j < |again| && again[j] == "";
        ReadAtHome(ids, again, i, j);
        ReadsBeforeOneWay(again, x, "");
        assert i < j;
      }
    }
  }

  lemma EmptyLastSettles(ids: seq<string>, again: seq<string>)
    requires Rewritten(ids, again) && EmptyLast(ids)
    requires forall x :: IsRead(ids, x) <==> IsRead(again, x)
    requires forall x :: x in ids <==> x in again
    ensures Settled(again)
  {
    hide ReadId, StrLe;
    forall i, j | 0 <= i < j < |again| && IsRead(again, again[j]) ensures ReadsBefore(again, again[i], again[j]) {
      ReadsBeforeIsRead(ids, again[i], again[j]);
      ReadsBeforeOneWay(ids, again[i], again[j]);
      assert again[i] != "";
      ReadAtHome(ids, again, i, j);
    }
  }

  lemma {:induction false} SecondOrder(es: seq<Entry>, first: seq<Entry>)
    requires Distinct(Ids(first)) && multiset(es) == multiset(first)
    ensures var second := Ordered(Readings(Ids(first)), es);
            multiset(second) == multiset(es) && Distinct(Ids(second)) && Rewritten(Ids(first), Ids(second))
  {
    hide Readings, StrLe, IsRead, ReadsBefore, Rank;
    var r := Readings(Ids(first));
    var second := Ordered(r, es);
    var le := ByRank(r);
    ByRankIsOrder(r);
    ByRankSeparates(r, first);
    SortIgnoresArrangement(le, first, es);
    SortKeepsElements(le, es);
    SortedIdsStayDistinct(le, first);
    SortSorts(le, es);
    IdsOfSameEntries(first, second);
    forall i, j | 0 <= i < j < |second|
      ensures IsRead(Ids(first), Ids(second)[j]) ==> ReadsBefore(Ids(first), Ids(second)[i], Ids(second)[j])
      ensures !IsRead(Ids(first), Ids(second)[i]) && !IsRead(Ids(first), Ids(second)[j]) ==> StrLe(Ids(second)[i], Ids(second)[j])
    {
      assert Ids(second)[i] != Ids(second)[j];
      RankOfReadings(Ids(first), second[i], second[j]);
    }
  }

  lemma {:induction false} IdsOfSameEntries(a: seq<Entry>, b: seq<Entry>)
    requires multiset(a) == multiset(b)
    ensures multiset(Ids(a)) == multiset(Ids(b))
    decreases |a|
  {
    if a == [] {
      assert |b| == |multiset(b)| == 0;
    } else {
      var l, r := LocateHead(a, b);
      IdsOfSameEntries(a[1..], l + r);
      IdsAround([], a[0], a[1..]);
      IdsAround(l, a[0], r);
      assert a == [] + [a[0]] + a[1..] && [] + a[1..] == a[1..];
    }
  }

  lemma IdsAround(l: seq<Entry>, e: Entry, r: seq<Entry>)
    ensures multiset(Ids(l + [e] + r)) == multiset(Ids(l + r)) + multiset{e.id}
  {
    assert Ids(l + [e] + r) == Ids(l) + [e.id] + Ids(r);
    assert Ids(l + r) == Ids(l) + Ids(r);
  }

  /** The order of one list over three writings. */
  lemma {:induction false} ThirdOrderIff(es: seq<Entry>, first: seq<Entry>)
    requires Distinct(Ids(first)) && multiset(es) == multiset(first)
    ensures var second := Ordered(Readings(Ids(first)), es);
            Ordered(Readings(Ids(second)), es) == second <==> EmptyLast(Ids(first))
  {
    hide Readings, EmptyLast, Settled, Rewritten;
    var second := Ordered(Readings(Ids(first)), es);
    SecondOrder(es, first);
    ReorderIff(es, second);
    RewrittenSettlesIff(Ids(first), Ids(second));
  }

  // ---- the file -----------------------------------------------------------------------------------

  /** A phase as the mission keeps it: its entries in the mission's own arrangement, and its id lists. */
  datatype PhaseRow = PhaseRow(text: PhaseText, featureIds: seq<string>, assertionIds: seq<string>)
  datatype MissionRow = MissionRow(title: string, description: string, phases: seq<PhaseRow>, notes: seq<string>)

  function Written(p: PhaseRow): PhaseText {
    p.text.(features := Ordered(p.featureIds, p.text.features), assertions := Ordered(p.assertionIds, p.text.assertions))
  }

  /** What the updater writes, as `Render` takes it. */
  function File(m: MissionRow): MissionText {
    MissionText(m.title, m.description, seq(|m.phases|, i requires 0 <= i < |m.phases| => Written(m.phases[i])), m.notes)
  }

  function WithRead(p: PhaseRow, r: ParsedPhase): PhaseRow {
    PhaseRow(p.text.(id := r.id, title := r.title, status := r.status, description := r.description),
             r.featureIds, r.assertionIds)
  }

  /** The mission with what the parser makes of its file put back into it, phase by phase. */
  function Reread(m: MissionRow): MissionRow {
    match Parse(Render(File(m)))
    case Err(_) => m
    case Ok(read) =>
      if |read.phases| != |m.phases| then m
      else MissionRow(read.title, read.description,
                      seq(|m.phases|, i requires 0 <= i < |m.phases| => WithRead(m.phases[i], read.phases[i])), m.notes)
  }

  ghost predicate LineIds(p: PhaseText) {
    AllLines(Ids(p.features)) && AllLines(Ids(p.assertions))
  }

  ghost predicate CleanPhaseRow(p: PhaseRow) {
    && CleanTexts(p.text) && TamePhase(p.text) && LineIds(p.text)
    && Distinct(Ids(p.text.features)) && Distinct(Ids(p.text.assertions))
  }

  /** Clean texts, and titles tame; the ids are arbitrary lines, each feature and assertion with its own. */
  ghost predicate CleanRow(m: MissionRow) {
    && CleanTitle(m.title) && CleanDescription(m.description) && NoPhasesLine(m.description)
    && forall i :: 0 <= i < |m.phases| ==> CleanPhaseRow(m.phases[i])
  }

  function FeatureOrder(p: PhaseRow): seq<string> { Ids(Written(p).features) }
  function AssertionOrder(p: PhaseRow): seq<string> { Ids(Written(p).assertions) }

  function RereadPhase(p: PhaseRow): PhaseRow {
    p.(featureIds := Readings(FeatureOrder(p)), assertionIds := Readings(AssertionOrder(p)))
  }

  lemma {:induction false} OrderedStaysTame(p: PhaseRow)
    requires TamePhase(p.text) && LineIds(p.text)
    ensures TamePhase(Written(p)) && LineIds(Written(p))
  {
    SortMembers(ByRank(p.featureIds), p.text.features);
    SortMembers(ByRank(p.assertionIds), p.text.assertions);
    hide TameEntry, NoBreaks, FeatureBullet, AssertionBullet, ByRank, Sort;
    var f, a := Written(p).features, Written(p).assertions;
    forall i | 0 <= i < |f| ensures TameEntry(f[i], FeatureBullet(f[i]), "Feature") && NoBreaks(Ids(f)[i]) {
      assert f[i] in p.text.features;
      var j :| 0 <= j < |p.text.features| && p.text.features[j] == f[i];
      assert NoBreaks(Ids(p.text.features)[j]);
    }
    forall i | 0 <= i < |a| ensures TameEntry(a[i], AssertionBullet(a[i]), "Assertion") && NoBreaks(Ids(a)[i]) {
      assert a[i] in p.text.assertions;
      var j :| 0 <= j < |p.text.assertions| && p.text.assertions[j] == a[i];
      assert NoBreaks(Ids(p.text.assertions)[j]);
    }
  }

  lemma WrittenIsClean(p: PhaseRow)
    requires CleanPhaseRow(p)
    ensures CleanTexts(Written(p)) && QuietPhase(Written(p))
    ensures ReadPhase(Written(p)) == ParsedPhase(p.text.id, p.text.title, p.text.status, p.text.description,
                                                 Readings(FeatureOrder(p)), Readings(AssertionOrder(p)))
  {
    OrderedStaysTame(p);
    InertPhase(Written(p));
    IdsReadBack(Written(p));
    FeaturesRead(Written(p).features);
    AssertionsRead(Written(p).assertions);
    hide CleanWord, CleanTitle, CleanPhaseDescription, Readings, Picked, FeatureLines, AssertionLines, Ordered, AllLines, QuietPhase, TamePhase;
  }

  lemma RereadIs(m: MissionRow)
    requires CleanRow(m)
    ensures Reread(m) == m.(phases := seq(|m.phases|, i requires 0 <= i < |m.phases| => RereadPhase(m.phases[i])))
    ensures CleanRow(Reread(m))
  {
    hide CleanTitle, CleanDescription, NoPhasesLine, CleanTexts, TamePhase, QuietPhase, Parse, Render, ReadPhase, Readings, Ordered, Written;
    forall i | 0 <= i < |m.phases|
      ensures CleanTexts(File(m).phases[i]) && QuietPhase(File(m).phases[i])
      ensures WithRead(m.phases[i], ReadPhase(File(m).phases[i])) == RereadPhase(m.phases[i])
    {
      assert CleanPhaseRow(m.phases[i]);
      WrittenIsClean(m.phases[i]);
    }
    FileReadsBack(File(m));
    assert Reread(m).phases == seq(|m.phases|, i requires 0 <= i < |m.phases| => RereadPhase(m.phases[i]));
    forall i | 0 <= i < |m.phases| ensures CleanPhaseRow(Reread(m).phases[i]) {
      assert CleanPhaseRow(m.phases[i]);
      assert Reread(m).phases[i].text == m.phases[i].text;
    }
  }

  lemma OrderedFacts(ids: seq<string>, es: seq<Entry>)
    requires Distinct(Ids(es))
    ensures multiset(Ordered(ids, es)) == multiset(es) && Distinct(Ids(Ordered(ids, es)))
  {
    SortKeepsElements(ByRank(ids), es);
    SortedIdsStayDistinct(ByRank(ids), es);
  }

  ghost predicate SamePhases(a: seq<PhaseText>, b: seq<PhaseText>) {
    |a| == |b| && forall i :: 0 <= i < |a| ==> a[i] == b[i]
  }

  lemma PhaseAgainIff(p: PhaseRow)
    requires CleanPhaseRow(p)
    ensures Written(RereadPhase(p)) == Written(p) <==> Settled(FeatureOrder(p)) && Settled(AssertionOrder(p))
  {
    OrderedFacts(p.featureIds, p.text.features);
    OrderedFacts(p.assertionIds, p.text.assertions);
    ReorderIff(p.text.features, Written(p).features);
    ReorderIff(p.text.assertions, Written(p).assertions);
    hide Ordered, Settled, Readings, CleanTexts, TamePhase, QuietPhase;
  }

  lemma FileAgain(m: MissionRow)
    requires CleanRow(m)
    ensures File(Reread(m)) == File(m) <==>
            forall i :: 0 <= i < |m.phases| ==> Written(RereadPhase(m.phases[i])) == Written(m.phases[i])
  {
    hide *;
    RereadIs(m);
    FilesAgree(m, Reread(m));
  }

  lemma FilesAgree(m: MissionRow, again: MissionRow)
    requires again == m.(phases := again.phases) && |again.phases| == |m.phases|
    requires forall i :: 0 <= i < |m.phases| ==> again.phases[i] == RereadPhase(m.phases[i])
    ensures File(again) == File(m) <==>
            forall i :: 0 <= i < |m.phases| ==> Written(RereadPhase(m.phases[i])) == Written(m.phases[i])
  {
    hide Written, RereadPhase;
    assert forall i :: 0 <= i < |m.phases| ==>
      File(again).phases[i] == Written(RereadPhase(m.phases[i])) && File(m).phases[i] == Written(m.phases[i]);
    assert File(again) == File(m) <==> SamePhases(File(again).phases, File(m).phases);
  }

  /** Write, parse, put the read ids back, write again: for clean texts and arbitrary ids the second file is
      the first, order and all, exactly when every list of the first file is settled. */
  lemma SecondFileIff(m: MissionRow)
    requires CleanRow(m)
    ensures File(Reread(m)) == File(m) <==>
            forall i :: 0 <= i < |m.phases| ==> Settled(FeatureOrder(m.phases[i])) && Settled(AssertionOrder(m.phases[i]))
  {
    FileAgain(m);
    forall i | 0 <= i < |m.phases|
      ensures Written(RereadPhase(m.phases[i])) == Written(m.phases[i]) <==>
              Settled(FeatureOrder(m.phases[i])) && Settled(AssertionOrder(m.phases[i]))
    {
      assert CleanPhaseRow(m.phases[i]);
      PhaseAgainIff(m.phases[i]);
    }
    hide Reread, File, Written, RereadPhase, Settled, FeatureOrder, AssertionOrder, CleanRow;
  }

  lemma PhaseThirdIff(p: PhaseRow)
    requires CleanPhaseRow(p)
    ensures Written(RereadPhase(RereadPhase(p))) == Written(RereadPhase(p)) <==>
            EmptyLast(FeatureOrder(p)) && EmptyLast(AssertionOrder(p))
  {
    OrderedFacts(p.featureIds, p.text.features);
    OrderedFacts(p.assertionIds, p.text.assertions);
    ThirdOrderIff(p.text.features, Written(p).features);
    ThirdOrderIff(p.text.assertions, Written(p).assertions);
    hide Ordered, EmptyLast, Readings, CleanTexts, TamePhase, QuietPhase;
  }

  /** One more round settles it: the third file is the second for all ids but the empty one, and with that
      one exactly when it is read last. */
  lemma ThirdFileIff(m: MissionRow)
    requires CleanRow(m)
    ensures File(Reread(Reread(m))) == File(Reread(m)) <==>
            forall i :: 0 <= i < |m.phases| ==> EmptyLast(FeatureOrder(m.phases[i])) && EmptyLast(AssertionOrder(m.phases[i]))
  {
    RereadIs(m);
    var once := Reread(m);
    FileAgain(once);
    forall i | 0 <= i < |m.phases|
      ensures Written(RereadPhase(once.phases[i])) == Written(once.phases[i]) <==>
              EmptyLast(FeatureOrder(m.phases[i])) && EmptyLast(AssertionOrder(m.phases[i]))
    {
      assert CleanPhaseRow(m.phases[i]) && once.phases[i] == RereadPhase(m.phases[i]);
      PhaseThirdIff(m.phases[i]);
    }
    hide Reread, File, Written, RereadPhase, EmptyLast, FeatureOrder, AssertionOrder, CleanRow;
  }

  // ---- ids that do not meet, and one list that moves ----------------------------------------------

  /** No bullet is read as the id of another. */
  predicate NoAliases(ids: seq<string>) {
    forall i, j :: 0 <= i < |ids| && 0 <= j < |ids| && ReadId(ids[i]) == Some(ids[j]) ==> i == j
  }

  lemma CleanReadsItself(id: string)
    requires NoBreaks(id)
    ensures ReadId(id) == Some(id) <==> CleanId(id)
  {
    AfterIdReads(id, "");
    AfterIdAny(id, "");
    if ':' !in id { StripFacts(id); }
  }

  /** Where no two ids meet, a list is settled exactly when its clean ids come first and the others ascend. */
  lemma SettledPlainlyIff(ids: seq<string>)
    requires Distinct(ids) && NoAliases(ids) && AllLines(ids)
    ensures Settled(ids) <==> forall i, j :: 0 <= i < j < |ids| ==>
              (CleanId(ids[j]) ==> CleanId(ids[i])) && (!CleanId(ids[i]) && !CleanId(ids[j]) ==> StrLe(ids[i], ids[j]))
  {
    hide ReadId, CleanId, StrLe, NoBreaks;
    forall i | 0 <= i < |ids| ensures IsRead(ids, ids[i]) <==> CleanId(ids[i]) {
      CleanReadsItself(ids[i]);
      if CleanId(ids[i]) { assert ReadId(ids[i]) == Some(ids[i]); }
    }
    forall i, j | 0 <= i < j < |ids| && CleanId(ids[j]) ensures ReadsBefore(ids, ids[i], ids[j]) <==> CleanId(ids[i]) {
      CleanReadsItself(ids[i]);
      if CleanId(ids[i]) { assert ReadId(ids[i]) == Some(ids[i]); } else { NotReadNotBefore(ids, ids[i], ids[j]); }
    }
    hide IsRead, ReadsBefore, NoAliases;
  }

  lemma TwoReadIds()
    ensures ReadId("a:b") == Some("a") && ReadId("c") == Some("c")
  {
    assert IndexOf("a:b", ':') == 1 by { assert "a:b"[1..] == ":b"; }
    assert "a:b"[..1] == "a";
    IndexOfAbsent("c", ':');
    assert "c"[..1] == "c";
    StripFixed("a");
    StripFixed("c");
  }

  lemma TwoBullets()
    ensures Readings(["a:b", "c"]) == ["a", "c"]
  {
    TwoReadIds();
    hide IndexOf, Strip, Dedup;
    var x, ids := "a:b", ["a:b", "c"];
    assert ids[..1] == [x] && [x][..0] == [];
    assert ReadIds([]) == [] && ReadIds([x]) == [] + ["a"];
    assert ReadIds(ids) == ["a"] + ["c"] == ["a", "c"];
    TwoDistinct("a", "c");
    DedupOfDistinct(["a", "c"]);
  }

  lemma TwoDistinct(x: string, y: string)
    requires x != y
    ensures Distinct([x, y])
  {
  }

  lemma {:induction false} TwoSorted(le: (Entry, Entry) -> bool, a: Entry, b: Entry)
    ensures Sort(le, [a, b]) == if le(a, b) then [a, b] else [b, a]
  {
    assert [b][1..] == [] && Sort(le, [b]) == Insert(le, b, []) == [b];
    assert [a, b][1..] == [b] && Sort(le, [a, b]) == Insert(le, a, [b]);
    assert Insert(le, a, []) == [a];
  }

  lemma TwoRanks(a: Entry, c: Entry)
    requires a.id == "a:b" && c.id == "c"
    ensures ByRank(["a:b", "c"])(a, c) && !ByRank(["a", "c"])(a, c)
  {
    IndexInDistinct(["a:b", "c"], 0);
    IndexInDistinct(["a:b", "c"], 1);
    IndexInDistinct(["a", "c"], 1);
    DistinctSize(["a", "c"]);
    hide LastIndex, StrLe;
  }

  lemma TwoOrders(a: Entry, c: Entry)
    requires a.id == "a:b" && c.id == "c"
    ensures Ordered(["a:b", "c"], [a, c]) == [a, c] && Ordered(["a", "c"], [a, c]) == [c, a]
    ensures Ids([a, c]) == ["a:b", "c"] && Ids([c, a]) == ["c", "a:b"]
  {
    TwoRanks(a, c);
    TwoSorted(ByRank(["a:b", "c"]), a, c);
    TwoSorted(ByRank(["a", "c"]), a, c);
    hide ByRank, Sort;
  }

  lemma TwoInPhase(p: PhaseRow, a: Entry, c: Entry)
    requires p.text.features == [a, c] && a.id == "a:b" && c.id == "c" && p.featureIds == ["a:b", "c"]
    ensures FeatureOrder(p) == ["a:b", "c"] && RereadPhase(p).featureIds == ["a", "c"]
    ensures FeatureOrder(RereadPhase(p)) == ["c", "a:b"]
  {
    TwoBullets();
    TwoOrders(a, c);
    hide Ordered, Ids, Readings;
  }

  /** Features `a:b` and `c`, listed in this order: the file shows them so, is read as `a` and `c`, and is
      written next with `c` first. */
  lemma ColonMovesDown(m: MissionRow, a: Entry, c: Entry)
    requires CleanRow(m) && |m.phases| == 1 && m.phases[0].text.features == [a, c] && a.id == "a:b" && c.id == "c"
    requires m.phases[0].featureIds == ["a:b", "c"]
    ensures FeatureOrder(m.phases[0]) == ["a:b", "c"]
    ensures |Reread(m).phases| == 1 && Reread(m).phases[0].featureIds == ["a", "c"]
    ensures FeatureOrder(Reread(m).phases[0]) == ["c", "a:b"]
  {
    TwoInPhase(m.phases[0], a, c);
    RereadIs(m);
    hide *;
  }

  // ---- importing: the ids the file lost are added back --------------------------------------------

  /** A list that names every entry once is the order they are written in. */
  lemma {:induction false} ListedOrder(l: seq<string>, es: seq<Entry>)
    requires Distinct(l) && Distinct(Ids(es)) && forall id :: id in l <==> id in Ids(es)
    ensures Ids(Ordered(l, es)) == l
  {
    var le := ByRank(l);
    var s := Ordered(l, es);
    OrderedFacts(l, es);
    ByRankIsOrder(l);
    SortSorts(le, es);
    SortMembers(le, es);
    IdsOfSameEntries(s, es);
    assert forall id :: id in Ids(s) <==> id in multiset(Ids(s));
    assert forall id :: id in Ids(es) <==> id in multiset(Ids(es));
    hide StrLe;
    forall i, j | 0 <= i < j < |s| ensures LastIndex(l, Ids(s)[i]) < LastIndex(l, Ids(s)[j]) {
      assert Ids(s)[i] in l && Ids(s)[j] in l && Ids(s)[i] != Ids(s)[j] && le(s[i], s[j]);
      DifferentPlaces(l, Ids(s)[i], Ids(s)[j]);
    }
    AscendingIsWhole(l, Ids(s));
  }

  lemma {:induction false} AscendingIsWhole(l: seq<string>, s: seq<string>)
    requires Distinct(l) && Distinct(s) && forall id :: id in l <==> id in s
    requires forall i, j :: 0 <= i < j < |s| ==> LastIndex(l, s[i]) < LastIndex(l, s[j])
    ensures s == l
  {
    var le := (a: string, b: string) => LastIndex(l, a) <= LastIndex(l, b);
    DistinctMultisets(l, s);
    forall i, j | 0 <= i < j < |l| ensures le(l[i], l[j]) {
      IndexInDistinct(l, i);
      IndexInDistinct(l, j);
    }
    forall x, y | x in l && y in l && le(x, y) && le(y, x) ensures x == y {
      if x != y { DifferentPlaces(l, x, y); }
    }
    SortedUnique(le, l, s);
  }

  lemma {:induction false} DistinctMultisets(a: seq<string>, b: seq<string>)
    requires Distinct(a) && Distinct(b) && forall x :: x in a <==> x in b
    ensures multiset(a) == multiset(b)
  {
    forall x ensures multiset(a)[x] == multiset(b)[x] {
      AtMostOnce(a, x);
      AtMostOnce(b, x);
    }
  }

  lemma {:induction false} AtMostOnce(s: seq<string>, x: string)
    requires Distinct(s)
    ensures multiset(s)[x] == if x in s then 1 else 0
  {
    if s != [] {
      AtMostOnce(s[..|s| - 1], x);
      assert s == s[..|s| - 1] + [s[|s| - 1]];
    }
  }

  lemma {:induction false} SelfReading(ids: seq<string>)
    requires Distinct(ids) && forall i :: 0 <= i < |ids| ==> ReadId(ids[i]) == Some(ids[i])
    ensures Readings(ids) == ids
  {
    hide ReadId;
    if ids != [] {
      var init := ids[..|ids| - 1];
      assert forall i :: 0 <= i < |init| ==> init[i] == ids[i];
      SelfReading(init);
      ReadingsOfLast(ids);
      assert ids[|ids| - 1] !in init && ids == init + [ids[|ids| - 1]];
    }
  }

  lemma {:induction false} ReadingsGrow(a: seq<string>, b: seq<string>)
    ensures Readings(a) <= Readings(a + b)
  {
    if b == [] {
      assert a + b == a;
    } else {
      assert (a + b)[..|a + b| - 1] == a + b[..|b| - 1];
      ReadingsGrow(a, b[..|b| - 1]);
      ReadingsOfLast(a + b);
    }
  }

  lemma {:induction false} KeepDesiredAppends(a: seq<string>, b: seq<string>, desired: seq<string>)
    ensures KeepDesired(a + b, desired) == KeepDesired(a, desired) + KeepDesired(b, desired)
  {
    if b == [] {
      assert a + b == a;
    } else {
      assert (a + b)[..|a + b| - 1] == a + b[..|b| - 1];
      KeepDesiredAppends(a, b[..|b| - 1], desired);
    }
  }

  lemma {:induction false} KeepNone(s: seq<string>, desired: seq<string>)
    requires forall x :: x in s ==> x !in desired
    ensures KeepDesired(s, desired) == []
  {
    if s != [] {
      assert s[|s| - 1] in s;
      KeepNone(s[..|s| - 1], desired);
    }
  }

  /** The order after an import: ids read back in the order of reading, then the ids the file lost. */
  function ImportedIds(order: seq<string>, desired: seq<string>): seq<string> {
    MergeIds(Readings(order), desired)
  }

  lemma {:induction false} ImportedFacts(order: seq<string>, desired: seq<string>)
    requires Distinct(desired)
    ensures var l := ImportedIds(order, desired);
            Distinct(l) && (forall id :: id in l <==> id in desired) && KeepDesired(Readings(order), desired) <= l
  {
    ReadingsFacts(order);
    MergeSettles(Readings(order), desired);
  }

  lemma {:induction false} KeptReadsItself(order: seq<string>, desired: seq<string>)
    requires "" !in desired
    ensures var kept := KeepDesired(Readings(order), desired);
            Readings(kept) == kept && forall x :: x in kept <==> IsRead(order, x) && x in desired
  {
    hide ReadId, Readings, IsRead;
    var kept := KeepDesired(Readings(order), desired);
    ReadingsFacts(order);
    KeepDesiredFacts(Readings(order), desired);
    KeepDesiredDistinct(Readings(order), desired);
    forall i | 0 <= i < |kept| ensures ReadId(kept[i]) == Some(kept[i]) {
      assert kept[i] in kept;
      ReadSelf(order, kept[i]);
    }
    SelfReading(kept);
  }

  lemma {:induction false} NothingWantedIsLeft(again: seq<string>, kept: seq<string>, desired: seq<string>)
    requires Distinct(again) && kept <= again && forall x :: x in again && x in desired ==> x in kept
    ensures KeepDesired(again[|kept|..], desired) == []
  {
    var rest := again[|kept|..];
    forall x | x in rest ensures x !in desired {
      var j :| 0 <= j < |rest| && rest[j] == x;
      assert again[|kept| + j] == x;
      assert forall i :: 0 <= i < |kept| ==> kept[i] == again[i] != again[|kept| + j];
    }
    KeepNone(rest, desired);
  }

  /** What an import reads of its own order: the same ids, first and in the same order. */
  lemma {:induction false} KeptAgain(order: seq<string>, desired: seq<string>)
    requires Distinct(desired) && "" !in desired && forall id :: id in order <==> id in desired
    ensures KeepDesired(Readings(ImportedIds(order, desired)), desired) == KeepDesired(Readings(order), desired)
  {
    hide ReadId, Readings, IsRead, ImportedIds, KeepDesired;
    var l := ImportedIds(order, desired);
    var kept, again := KeepDesired(Readings(order), desired), Readings(l);
    KeptReadsItself(order, desired);
    ImportedFacts(order, desired);
    assert l == kept + l[|kept|..];
    ReadingsGrow(kept, l[|kept|..]);
    assert again == kept + again[|kept|..];
    ReadingsFacts(l);
    forall x | x in again && x in desired ensures x in kept { SameMembersSameReads(l, order, x); }
    NothingWantedIsLeft(again, kept, desired);
    KeepDesiredAppends(kept, again[|kept|..], desired);
    KeepDesiredFacts(kept, desired);
  }

  lemma SameMembersSameReads(a: seq<string>, b: seq<string>, x: string)
    requires (forall id :: id in a <==> id in b) && IsRead(a, x)
    ensures IsRead(b, x)
  {
    var p :| 0 <= p < |a| && ReadId(a[p]) == Some(x);
    assert a[p] in b;
    var q :| 0 <= q < |b| && b[q] == a[p];
    assert ReadId(b[q]) == Some(x);
  }

  lemma ImportAgain(order: seq<string>, desired: seq<string>)
    requires Distinct(desired) && "" !in desired && forall id :: id in order <==> id in desired
    ensures ImportedIds(ImportedIds(order, desired), desired) == ImportedIds(order, desired)
  {
    KeptAgain(order, desired);
  }

  function ImportedPhase(p: PhaseRow): PhaseRow {
    p.(featureIds := MergeIds(p.featureIds, Ids(p.text.features)), assertionIds := MergeIds(p.assertionIds, Ids(p.text.assertions)))
  }

  /** `mission import` of the file: the read ids, merged with those of the phase's features and assertions. */
  function Imported(m: MissionRow): MissionRow {
    var read := Reread(m);
    read.(phases := seq(|read.phases|, i requires 0 <= i < |read.phases| => ImportedPhase(read.phases[i])))
  }

  lemma OrderHasTheIds(ids: seq<string>, es: seq<Entry>)
    ensures forall id :: id in Ids(Ordered(ids, es)) <==> id in Ids(es)
  {
    SortKeepsElements(ByRank(ids), es);
    IdsOfSameEntries(Ordered(ids, es), es);
    assert forall id :: id in Ids(Ordered(ids, es)) <==> id in multiset(Ids(Ordered(ids, es)));
    assert forall id :: id in Ids(es) <==> id in multiset(Ids(es));
  }

  lemma ImportedListSettles(ids: seq<string>, es: seq<Entry>)
    requires Distinct(Ids(es)) && "" !in Ids(es)
    ensures var l := ImportedIds(Ids(Ordered(ids, es)), Ids(es));
            ImportedIds(Ids(Ordered(l, es)), Ids(es)) == l
  {
    OrderHasTheIds(ids, es);
    var order := Ids(Ordered(ids, es));
    ImportedFacts(order, Ids(es));
    ListedOrder(ImportedIds(order, Ids(es)), es);
    ImportAgain(order, Ids(es));
  }

  lemma ImportedIs(m: MissionRow)
    requires CleanRow(m)
    ensures CleanRow(Imported(m)) && |Imported(m).phases| == |m.phases|
    ensures Imported(m) == m.(phases := Imported(m).phases)
    ensures forall i :: 0 <= i < |m.phases| ==> Imported(m).phases[i] == ImportedPhase(RereadPhase(m.phases[i]))
  {
    RereadIs(m);
    hide Reread, RereadPhase, CleanTexts, TamePhase, QuietPhase, CleanTitle, CleanDescription, NoPhasesLine, MergeIds;
    forall i | 0 <= i < |m.phases| ensures CleanPhaseRow(Imported(m).phases[i]) {
      assert CleanPhaseRow(Reread(m).phases[i]);
    }
  }

  lemma PhaseImportSettles(p: PhaseRow)
    requires CleanPhaseRow(p) && "" !in Ids(p.text.features) && "" !in Ids(p.text.assertions)
    ensures var once := ImportedPhase(RereadPhase(p));
            ImportedPhase(RereadPhase(once)) == once
  {
    ImportedListSettles(p.featureIds, p.text.features);
    ImportedListSettles(p.assertionIds, p.text.assertions);
    hide Readings, MergeIds, Ordered, Ids, CleanTexts, TamePhase, QuietPhase;
  }

  /** Importing settles at once: importing the next file changes neither the mission nor the file. */
  lemma ImportSettles(m: MissionRow)
    requires CleanRow(m)
    requires forall i :: 0 <= i < |m.phases| ==>
               "" !in Ids(m.phases[i].text.features) && "" !in Ids(m.phases[i].text.assertions)
    ensures Imported(Imported(m)) == Imported(m)
  {
    ImportedIs(m);
    ImportedIs(Imported(m));
    hide Imported, RereadPhase, ImportedPhase;
    var once, twice := Imported(m), Imported(Imported(m));
    forall i | 0 <= i < |m.phases| ensures twice.phases[i] == once.phases[i] {
      assert CleanPhaseRow(m.phases[i]);
      PhaseImportSettles(m.phases[i]);
    }
    assert twice.phases == once.phases;
  }
}
