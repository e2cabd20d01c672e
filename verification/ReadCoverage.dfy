// context_builder._render_read_coverage: the merged line ranges of one file.
module ReadCoverage {
  import opened Ordering

  datatype Range = Range(start: int, end: int)

  /** The order of `sorted` on pairs. */
  predicate RangeLe(a: Range, b: Range) {
    a.start < b.start || (a.start == b.start && a.end <= b.end)
  }

  predicate Covers(ranges: seq<Range>, line: int) {
    exists i :: 0 <= i < |ranges| && ranges[i].start <= line <= ranges[i].end
  }

  ghost predicate SameCover(a: seq<Range>, b: seq<Range>) {
    forall line :: Covers(a, line) <==> Covers(b, line)
  }

  /** In order, with at least one uncovered line between any two. */
  ghost predicate Apart(ranges: seq<Range>) {
    && (forall i, j :: 0 <= i < j < |ranges| ==> ranges[i].start <= ranges[j].start)
    && (forall i, j :: 0 <= i < j < |ranges| ==> ranges[i].end + 1 < ranges[j].start)
  }

  ghost predicate NonEmpty(ranges: seq<Range>) {
    forall i :: 0 <= i < |ranges| ==> ranges[i].start <= ranges[i].end
  }

  // ---- specification: one range at a time --------------------------------------------------------

  function Absorb(merged: seq<Range>, r: Range): seq<Range> {
    if merged == [] || r.start > merged[|merged| - 1].end + 1 then merged + [r]
    else
      var last := merged[|merged| - 1];
      merged[..|merged| - 1] + [Range(last.start, if last.end < r.end then r.end else last.end)]
  }

  function MergeSorted(ranges: seq<Range>): seq<Range> {
    if ranges == [] then [] else Absorb(MergeSorted(ranges[..|ranges| - 1]), ranges[|ranges| - 1])
  }

  function Merged(ranges: seq<Range>): seq<Range> {
    MergeSorted(Sort(RangeLe, ranges))
  }

  // ---- what a merge keeps ------------------------------------------------------------------------

  lemma CoversOneMore(ranges: seq<Range>, r: Range, line: int)
    ensures Covers(ranges + [r], line) <==> Covers(ranges, line) || r.start <= line <= r.end
  {
    var s := ranges + [r];
    if i :| 0 <= i < |ranges| && ranges[i].start <= line <= ranges[i].end { assert s[i] == ranges[i]; }
    if r.start <= line <= r.end { assert s[|ranges|] == r; }
  }

  lemma AbsorbCovers(merged: seq<Range>, r: Range, line: int)
    requires merged != [] ==> merged[|merged| - 1].start <= r.start
    ensures Covers(Absorb(merged, r), line) <==> Covers(merged, line) || r.start <= line <= r.end
  {
    CoversOneMore(merged, r, line);
    hide Covers;
    if merged != [] {
      var init, last := merged[..|merged| - 1], merged[|merged| - 1];
      assert merged == init + [last];
      CoversOneMore(init, last, line);
      CoversOneMore(init, Range(last.start, if last.end < r.end then r.end else last.end), line);
    }
  }

  lemma AbsorbKeepsApart(merged: seq<Range>, r: Range)
    requires Apart(merged) && (merged != [] ==> merged[|merged| - 1].start <= r.start)
    ensures var m := Absorb(merged, r);
            && Apart(m) && (NonEmpty(merged) && r.start <= r.end ==> NonEmpty(m))
            && m != [] && m[|m| - 1].start <= r.start
  {
  }

  lemma {:induction false} MergeSortedFacts(ranges: seq<Range>)
    requires Sorted(RangeLe, ranges)
    ensures SameCover(MergeSorted(ranges), ranges) && Apart(MergeSorted(ranges))
    ensures NonEmpty(ranges) ==> NonEmpty(MergeSorted(ranges))
    ensures ranges != [] ==>
              var m := MergeSorted(ranges);
              m != [] && m[|m| - 1].start <= ranges[|ranges| - 1].start
  {
    if ranges != [] {
      var init, last := ranges[..|ranges| - 1], ranges[|ranges| - 1];
      MergeSortedFacts(init);
      assert ranges == init + [last];
      assert init != [] ==> RangeLe(ranges[|init| - 1], last);
      forall line ensures Covers(MergeSorted(ranges), line) <==> Covers(ranges, line) {
        AbsorbCovers(MergeSorted(init), last, line);
        CoversOneMore(init, last, line);
      }
      AbsorbKeepsApart(MergeSorted(init), last);
    }
  }

  lemma RangeLeIsOrder()
    ensures TotalPreorder(RangeLe)
  {
  }

  lemma {:induction false} SortKeepsCover(ranges: seq<Range>)
    ensures SameCover(Sort(RangeLe, ranges), ranges)
    ensures NonEmpty(ranges) ==> NonEmpty(Sort(RangeLe, ranges))
  {
    SortMembers(RangeLe, ranges);
    var s := Sort(RangeLe, ranges);
    forall line ensures Covers(s, line) <==> Covers(ranges, line) {
      if i :| 0 <= i < |s| && s[i].start <= line <= s[i].end {
        assert s[i] in ranges;
        var j :| 0 <= j < |ranges| && ranges[j] == s[i];
      }
      if i :| 0 <= i < |ranges| && ranges[i].start <= line <= ranges[i].end {
        assert ranges[i] in s;
        var j :| 0 <= j < |s| && s[j] == ranges[i];
      }
    }
    if NonEmpty(ranges) {
      forall i | 0 <= i < |s| ensures s[i].start <= s[i].end {
        assert s[i] in ranges;
      }
    }
  }

  /** The merged ranges cover exactly the lines of the input, whatever the input, empty and
      reversed ranges included; they are in order and never touch. */
  lemma MergeKeepsCoverage(ranges: seq<Range>)
    ensures SameCover(Merged(ranges), ranges) && Apart(Merged(ranges))
    ensures NonEmpty(ranges) ==> NonEmpty(Merged(ranges))
  {
    RangeLeIsOrder();
    SortSorts(RangeLe, ranges);
    SortKeepsCover(ranges);
    var s := Sort(RangeLe, ranges);
    MergeSortedFacts(s);
    forall line ensures Covers(Merged(ranges), line) <==> Covers(ranges, line) {
      assert Covers(MergeSorted(s), line) <==> Covers(s, line);
    }
  }

  // ---- the merge is canonical ------------------------------------------------------------------------

  lemma CoversRest(ranges: seq<Range>, line: int)
    requires ranges != [] && Apart(ranges) && NonEmpty(ranges)
    ensures Covers(ranges[1..], line) <==> Covers(ranges, line) && line > ranges[0].end
    ensures Covers(ranges, line) ==> line >= ranges[0].start
    ensures ranges[0].start <= line <= ranges[0].end ==> Covers(ranges, line)
    ensures !Covers(ranges, ranges[0].end + 1)
  {
    if i :| 0 <= i < |ranges[1..]| && ranges[1..][i].start <= line <= ranges[1..][i].end {
      assert ranges[i + 1].start <= line <= ranges[i + 1].end;
    }
    if i :| 0 <= i < |ranges| && ranges[i].start <= line <= ranges[i].end && i > 0 {
      assert ranges[1..][i - 1].start <= line <= ranges[1..][i - 1].end;
    }
  }

  lemma TailStaysApart(ranges: seq<Range>)
    requires ranges != [] && Apart(ranges) && NonEmpty(ranges)
    ensures Apart(ranges[1..]) && NonEmpty(ranges[1..])
  {
  }

  lemma {:induction false} CanonicalIsUnique(a: seq<Range>, b: seq<Range>)
    requires Apart(a) && NonEmpty(a) && Apart(b) && NonEmpty(b) && SameCover(a, b)
    ensures a == b
    decreases |a| + |b|
  {
    if a == [] || b == [] {
      if a != [] { assert Covers(a, a[0].start) by { CoversRest(a, a[0].start); } }
      if b != [] { assert Covers(b, b[0].start) by { CoversRest(b, b[0].start); } }
    } else {
      SameHead(a, b);
      TailStaysApart(a);
      TailStaysApart(b);
      hide Covers, Apart, NonEmpty;
      forall line ensures Covers(a[1..], line) <==> Covers(b[1..], line) {
        CoversRest(a, line);
        CoversRest(b, line);
      }
      CanonicalIsUnique(a[1..], b[1..]);
      assert a == [a[0]] + a[1..] && b == [b[0]] + b[1..];
    }
  }

  lemma SameHead(a: seq<Range>, b: seq<Range>)
    requires a != [] && b != [] && Apart(a) && NonEmpty(a) && Apart(b) && NonEmpty(b) && SameCover(a, b)
    ensures a[0] == b[0]
  {
    CoversRest(a, a[0].start);
    CoversRest(b, a[0].start);
    CoversRest(a, b[0].start);
    CoversRest(b, b[0].start);
    CoversRest(b, a[0].end + 1);
    CoversRest(a, b[0].end + 1);
  }

  /** For non-empty ranges the merge depends on the covered lines alone: not on the order of the
      reads, on repetition, or on how one read was split into several. */
  lemma MergeDependsOnCoverage(a: seq<Range>, b: seq<Range>)
    requires NonEmpty(a) && NonEmpty(b)
    ensures SameCover(a, b) <==> Merged(a) == Merged(b)
  {
    MergeKeepsCoverage(a);
    MergeKeepsCoverage(b);
    if SameCover(a, b) {
      forall line ensures Covers(Merged(a), line) <==> Covers(Merged(b), line) {
        assert Covers(a, line) <==> Covers(b, line);
      }
      CanonicalIsUnique(Merged(a), Merged(b));
    } else {
      var line :| Covers(a, line) != Covers(b, line);
      assert Covers(Merged(a), line) != Covers(Merged(b), line);
    }
  }

  // ---- the code -----------------------------------------------------------------------------------------

  /** The inner loop of `_render_read_coverage`, for the ranges of one path. */
  method Merge(ranges: seq<Range>) returns (merged: seq<Range>)
    ensures merged == Merged(ranges)
  {
    hide Sort;
    var sorted := Sort(RangeLe, ranges);
    merged := [];
    for i := 0 to |sorted|
      invariant merged == MergeSorted(sorted[..i])
    {
      assert sorted[..i + 1][..i] == sorted[..i] && sorted[..i + 1][i] == sorted[i];
      var Range(start, end) := sorted[i];
      if merged == [] || start > merged[|merged| - 1].end + 1 {
        merged := merged + [Range(start, end)];
      } else {
        var last := merged[|merged| - 1];
        ghost var before := merged;
        merged := merged[|merged| - 1 := Range(last.start, if last.end < end then end else last.end)];
        assert merged == Absorb(before, sorted[i]);
      }
    }
    assert sorted[..|sorted|] == sorted;
  }
}
