// context_builder._apply_history_cap: three-stage eviction under a character cap, measured on
// the block that prior_loop_context renders.
module HistoryCap {
  import opened Text
  import opened Domain
  import opened CheckKeys

  const MAX_HISTORY_CHARS := 12000
  const DEGRADED_FAILURE_LINE_CHARS := 120
  const MAX_RECENT_SUMMARY_CHARS := 2000

  // ---- prior_loop_context.render_prior_loop_context_block ---------------------------------------

  /** The parts of the block that are never evicted. */
  datatype Context = Context(loopId: nat, lastSummary: Option<string>, priorSummary: string,
                             bestSummary: Option<string>, bestFiles: seq<string>)

  predicate HasContext(c: Context, failures: seq<string>, evidence: seq<string>) {
    c.lastSummary.Some? || c.priorSummary != "" || failures != [] || evidence != [] || c.bestFiles != []
  }

  function OrElse(value: Option<string>, other: string): string {
    if value.Some? && value.value != "" then value.value else other
  }

  function Indent(prefix: string, lines: seq<string>): seq<string> {
    seq(|lines|, i requires 0 <= i < |lines| => prefix + lines[i])
  }

  function Header(c: Context): seq<string> {
    ["Prior loop context (loop " + Decimal(c.loopId) + " of this task):",
     "- last attempt summary: " + OrElse(c.lastSummary, "n/a")]
    + (if c.priorSummary == "" then []
       else ["- prior handoff summary:"] + Indent("  ", SplitLines(c.priorSummary)))
    + ["- best state: " + OrElse(c.bestSummary, "empty")]
    + (if c.bestFiles == [] then [] else ["- files in best/: " + Join(c.bestFiles, ", ")])
  }

  function FailureTitle(): string {
    "- patterns to avoid (do NOT repeat these actions; they did not move any check):"
  }

  function EvidenceTitle(): string {
    "- successful actions already on record (refer to these instead of re-running):"
  }

  function Footer(): seq<string> {
    ["",
     "If a previous loop already created a file you need, prefer",
     "patch_file over a fresh write_file.",
     "If you already explored the workspace last loop, do NOT explore",
     "again \U{2014} act on the patterns-to-avoid above.",
     ""]
  }

  function Section(title: string, lines: seq<string>): seq<string> {
    if lines == [] then [] else [title] + Indent("  - ", lines)
  }

  function BlockLines(c: Context, failures: seq<string>, evidence: seq<string>): seq<string> {
    Header(c) + Section(FailureTitle(), failures) + Section(EvidenceTitle(), evidence) + Footer()
  }

  function Block(c: Context, failures: seq<string>, evidence: seq<string>): string {
    if HasContext(c, failures, evidence) then Join(BlockLines(c, failures, evidence), "\n") + "\n" else ""
  }

  // ---- clipping --------------------------------------------------------------------------------

  /** `_clip_required` */
  function Clip(value: string, max: nat): string
    requires max > 0
  {
    if |value| <= max then value else value[..max - 1] + "\U{2026}"
  }

  lemma ClipFacts(value: string, max: nat)
    requires max > 0
    ensures |Clip(value, max)| <= max && |Clip(value, max)| <= |value|
    ensures Clip(Clip(value, max), max) == Clip(value, max)
    ensures Clip(value, max) == value <==> |value| <= max
  {
  }

  function Degrade(line: string): string {
    Clip(line, DEGRADED_FAILURE_LINE_CHARS)
  }

  /** The failure lines with everything from `d` on clipped. */
  function DegradedFrom(failures: seq<string>, d: nat): (r: seq<string>)
    ensures |r| == |failures|
  {
    seq(|failures|, i requires 0 <= i < |failures| => if i >= d then Degrade(failures[i]) else failures[i])
  }

  /** `_clip_recent_summaries` */
  function ClipRecent(c: Context): Context {
    var prior := if |c.priorSummary| <= MAX_RECENT_SUMMARY_CHARS then c.priorSummary
                 else c.priorSummary[..MAX_RECENT_SUMMARY_CHARS];
    var room := MAX_RECENT_SUMMARY_CHARS - |prior|;
    c.(priorSummary := prior,
       lastSummary := match c.lastSummary
                      case None => None
                      case Some(s) => Some(if |s| <= room then s else s[..room]))
  }

  // ---- what eviction must achieve -----------------------------------------------------------------

  /** The size of the block left by `failures` and `evidence`. */
  type Measure = (seq<string>, seq<string>) -> nat

  predicate Fits(size: Measure, failures: seq<string>, evidence: seq<string>) {
    size(failures, evidence) <= MAX_HISTORY_CHARS
  }

  /** `e` evidence lines are kept, failure lines are clipped from `d` on, `f` of them are kept:
      each stage gives up as little as it can, and starts only once the one before is used up. */
  ghost predicate LeastLoss(size: Measure, evidence: seq<string>, failures: seq<string>, floor: nat,
                            e: nat, d: nat, f: nat)
  {
    && e <= |evidence| && f <= |failures| && d <= |failures|
    && (forall j :: e < j <= |evidence| ==> !Fits(size, failures, evidence[..j]))
    && (forall j :: d < j <= |failures| ==> !Fits(size, DegradedFrom(failures, j), []))
    && (forall j :: f < j <= |failures| ==> !Fits(size, DegradedFrom(failures, d)[..j], []))
    && (d < |failures| ==> e == 0 && d >= floor)
    && (f < |failures| ==> e == 0 && d <= floor)
    && (Fits(size, DegradedFrom(failures, d)[..f], evidence[..e]) || (e == 0 && f == 0))
  }

  /** The outcome is determined: no two triples satisfy `LeastLoss`. */
  lemma LeastLossIsUnique(size: Measure, evidence: seq<string>, failures: seq<string>, floor: nat,
                          e: nat, d: nat, f: nat, e': nat, d': nat, f': nat)
    requires LeastLoss(size, evidence, failures, floor, e, d, f)
    requires LeastLoss(size, evidence, failures, floor, e', d', f')
    ensures e == e' && d == d' && f == f'
  {
    assert DegradedFrom(failures, |failures|) == failures;
    assert DegradedFrom(failures, d)[..|failures|] == DegradedFrom(failures, d);
    assert DegradedFrom(failures, d')[..|failures|] == DegradedFrom(failures, d');
  }

  // ---- the code --------------------------------------------------------------------------------------

  datatype TruncationInfo = TruncationInfo(charsBefore: nat, charsAfter: nat, droppedFailures: nat,
                                           droppedEvidence: nat, degradedFailures: nat,
                                           truncatedBestSummary: bool)

  /** How many lines from `d` on the clipping shortened. */
  function Shortened(failures: seq<string>, d: nat): nat
    decreases |failures| - d
  {
    if d >= |failures| then 0
    else Shortened(failures, d + 1) + if Degrade(failures[d]) != failures[d] then 1 else 0
  }

  /** First stage: evidence lines go, last first, with their ids. */
  method DropEvidence(size: Measure, ids: seq<string>, evidence: seq<string>, failures: seq<string>)
    returns (keptIds: seq<string>, kept: seq<string>, dropped: nat)
    requires |ids| == |evidence|
    ensures |kept| <= |evidence| && kept == evidence[..|kept|] && keptIds == ids[..|kept|]
    ensures dropped == |evidence| - |kept|
    ensures forall j :: |kept| < j <= |evidence| ==> !Fits(size, failures, evidence[..j])
    ensures Fits(size, failures, kept) || kept == []
  {
    keptIds, kept, dropped := ids, evidence, 0;
    assert evidence[..|evidence|] == evidence && ids[..|ids|] == ids;
    while !Fits(size, failures, kept) && kept != []
      invariant |kept| <= |evidence| && kept == evidence[..|kept|] && keptIds == ids[..|kept|]
      invariant dropped == |evidence| - |kept|
      invariant forall j :: |kept| < j <= |evidence| ==> !Fits(size, failures, evidence[..j])
      decreases |kept|
    {
      kept, keptIds, dropped := kept[..|kept| - 1], keptIds[..|keptIds| - 1], dropped + 1;
    }
  }

  /** Second stage: unprotected failure lines are clipped, last first. */
  method DegradeFailures(size: Measure, failures: seq<string>, evidence: seq<string>, floor: nat)
    returns (clipped: seq<string>, degraded: nat, d: nat)
    requires floor >= 1
    ensures d <= |failures| && clipped == DegradedFrom(failures, d) && degraded == Shortened(failures, d)
    ensures d < |failures| ==> d >= floor
    ensures forall j :: d < j <= |failures| ==> !Fits(size, DegradedFrom(failures, j), evidence)
    ensures Fits(size, clipped, evidence) || d <= floor
    ensures Fits(size, failures, evidence) ==> d == |failures|
  {
    clipped, degraded, d := failures, 0, |failures|;
    assert DegradedFrom(failures, |failures|) == failures;
    while !Fits(size, clipped, evidence) && d >= floor + 1
      invariant d <= |failures| && clipped == DegradedFrom(failures, d) && degraded == Shortened(failures, d)
      invariant d < |failures| ==> d >= floor
      invariant forall j :: d < j <= |failures| ==> !Fits(size, DegradedFrom(failures, j), evidence)
      invariant Fits(size, failures, evidence) ==> d == |failures|
      decreases d
    {
      d := d - 1;
      var line := Degrade(failures[d]);
      if line != clipped[d] {
        clipped := clipped[d := line];
        degraded := degraded + 1;
      }
      assert clipped == DegradedFrom(failures, d);
    }
  }

  /** Third stage: failure lines go, last first. */
  method DropFailures(size: Measure, failures: seq<string>, evidence: seq<string>)
    returns (kept: seq<string>, dropped: nat)
    ensures |kept| <= |failures| && kept == failures[..|kept|] && dropped == |failures| - |kept|
    ensures forall j :: |kept| < j <= |failures| ==> !Fits(size, failures[..j], evidence)
    ensures Fits(size, kept, evidence) || kept == []
  {
    kept, dropped := failures, 0;
    assert failures[..|failures|] == failures;
    while !Fits(size, kept, evidence) && kept != []
      invariant |kept| <= |failures| && kept == failures[..|kept|] && dropped == |failures| - |kept|
      invariant forall j :: |kept| < j <= |failures| ==> !Fits(size, failures[..j], evidence)
      decreases |kept|
    {
      kept, dropped := kept[..|kept| - 1], dropped + 1;
    }
  }

  /** The three stages in a row, on a block that is too long. */
  method Evict(size: Measure, ids: seq<string>, evidence: seq<string>, failures: seq<string>, floor: nat, truncated: bool)
    returns (keptIds: seq<string>, keptEvidence: seq<string>, keptFailures: seq<string>, info: TruncationInfo, d: nat)
    requires |ids| == |evidence| && floor >= 1
    ensures LeastLoss(size, evidence, failures, floor, |keptEvidence|, d, |keptFailures|)
    ensures keptEvidence == evidence[..|keptEvidence|] && keptIds == ids[..|keptEvidence|]
    ensures keptFailures == DegradedFrom(failures, d)[..|keptFailures|]
    ensures info == TruncationInfo(size(failures, evidence), size(keptFailures, keptEvidence),
                                   |failures| - |keptFailures|, |evidence| - |keptEvidence|,
                                   Shortened(failures, d), truncated)
  {
    var before := size(failures, evidence);
    var droppedEvidence, degraded, droppedFailures, clipped;
    keptIds, keptEvidence, droppedEvidence := DropEvidence(size, ids, evidence, failures);
    clipped, degraded, d := DegradeFailures(size, failures, keptEvidence, floor);
    keptFailures, droppedFailures := DropFailures(size, clipped, keptEvidence);
    info := TruncationInfo(before, size(keptFailures, keptEvidence), droppedFailures, droppedEvidence, degraded, truncated);
    assert clipped[..|clipped|] == clipped && keptFailures == DegradedFrom(failures, d)[..|keptFailures|];
    assert d < |failures| ==> keptEvidence == [];
    assert DegradedFrom(failures, |failures|) == failures;
    assert |keptFailures| < |failures| ==> !Fits(size, clipped, keptEvidence);
    assert |keptFailures| < |failures| ==> keptEvidence == [];
  }

  function BlockSize(c: Context): Measure {
    (failures: seq<string>, evidence: seq<string>) => |Block(c, failures, evidence)|
  }

  /** The cap is on the characters of the rendered block. */
  lemma FitsIff(c: Context, failures: seq<string>, evidence: seq<string>)
    ensures Fits(BlockSize(c), failures, evidence) <==> |Block(c, failures, evidence)| <= 12000
  {
  }

  /** `_apply_history_cap` */
  method ApplyCap(c: Context, ids: seq<string>, evidence: seq<string>, failures: seq<string>,
                  truncated: bool, protectedLines: int)
    returns (c': Context, keptIds: seq<string>, keptEvidence: seq<string>, keptFailures: seq<string>,
             info: Option<TruncationInfo>, d: nat)
    requires |ids| == |evidence|
    ensures c' == ClipRecent(c)
    ensures LeastLoss(BlockSize(c'), evidence, failures, if protectedLines > 1 then protectedLines else 1,
                      |keptEvidence|, d, |keptFailures|)
    ensures keptEvidence == evidence[..|keptEvidence|] && keptIds == ids[..|keptEvidence|]
    ensures keptFailures == DegradedFrom(failures, d)[..|keptFailures|]
    ensures info.None? <==> Fits(BlockSize(c'), failures, evidence)
    ensures info.Some? ==>
              info.value == TruncationInfo(|Block(c', failures, evidence)|, |Block(c', keptFailures, keptEvidence)|,
                                           |failures| - |keptFailures|, |evidence| - |keptEvidence|,
                                           Shortened(failures, d), truncated)
  {
    hide Block, LeastLoss;
    c' := ClipRecent(c);
    var size := BlockSize(c');
    if size(failures, evidence) <= MAX_HISTORY_CHARS {
      keptIds, keptEvidence, keptFailures, info, d := ids, evidence, failures, None, |failures|;
      NothingLost(size, evidence, failures, if protectedLines > 1 then protectedLines else 1);
      return;
    }
    var floor := if protectedLines > 1 then protectedLines else 1;
    var i;
    keptIds, keptEvidence, keptFailures, i, d := Evict(size, ids, evidence, failures, floor, truncated);
    info := Some(i);
  }

  lemma NothingLost(size: Measure, evidence: seq<string>, failures: seq<string>, floor: nat)
    requires Fits(size, failures, evidence)
    ensures LeastLoss(size, evidence, failures, floor, |evidence|, |failures|, |failures|)
    ensures failures == DegradedFrom(failures, |failures|)[..|failures|] && evidence == evidence[..|evidence|]
  {
    assert DegradedFrom(failures, |failures|) == failures;
    assert failures[..|failures|] == failures && evidence[..|evidence|] == evidence;
  }

  // ---- what a reader of the result can rely on ---------------------------------------------------------

  /** Failure lines change only once no evidence is left, and go only once every unprotected one
      is clipped; a protected line is never clipped; and the result fits unless both lists are empty. */
  lemma EvictionOrder(size: Measure, evidence: seq<string>, failures: seq<string>, floor: nat, e: nat, d: nat, f: nat)
    requires floor >= 1 && LeastLoss(size, evidence, failures, floor, e, d, f)
    ensures var kept := DegradedFrom(failures, d)[..f];
            && (kept != failures ==> e == 0)
            && (f < |failures| ==> kept == DegradedFrom(failures, floor)[..f])
            && (forall i :: 0 <= i < f && i < floor ==> kept[i] == failures[i])
            && (forall i :: 0 <= i < f ==>
                  kept[i] == if i < d || |failures[i]| <= 120 then failures[i] else failures[i][..119] + "\U{2026}")
            && (Fits(size, kept, evidence[..e]) || (e == 0 && f == 0))
  {
    if d == |failures| && f == |failures| { assert DegradedFrom(failures, d)[..f] == failures; }
  }

  predicate TooLong(lines: seq<string>, i: nat) {
    i < |lines| && |lines[i]| > 120
  }

  lemma {:induction false} ShortenedCounts(failures: seq<string>, d: nat)
    requires d <= |failures|
    ensures Shortened(failures, d) == |set i | d <= i < |failures| && TooLong(failures, i)|
    decreases |failures| - d
  {
    var all := set i | d <= i < |failures| && TooLong(failures, i);
    if d < |failures| {
      ShortenedCounts(failures, d + 1);
      ClipFacts(failures[d], DEGRADED_FAILURE_LINE_CHARS);
      assert all == (set i | d + 1 <= i < |failures| && TooLong(failures, i)) + (if TooLong(failures, d) then {d} else {});
    } else {
      assert all == {};
    }
  }

  /** The two recent summaries share 2000 characters, the earlier one first; only what is over is cut, from the end. */
  lemma RecentSummariesShare(c: Context)
    ensures var c' := ClipRecent(c);
            var last, last' := if c.lastSummary.Some? then c.lastSummary.value else "", if c'.lastSummary.Some? then c'.lastSummary.value else "";
            && c' == c.(priorSummary := c'.priorSummary, lastSummary := c'.lastSummary)
            && (c'.lastSummary.Some? <==> c.lastSummary.Some?)
            && c'.priorSummary <= c.priorSummary && last' <= last
            && |c'.priorSummary| == (if |c.priorSummary| < 2000 then |c.priorSummary| else 2000)
            && |c'.priorSummary| + |last'| == (if |c'.priorSummary| + |last| < 2000 then |c'.priorSummary| + |last| else 2000)
  {
  }

  /** There is a block exactly if there is something to say. */
  lemma BlockExists(c: Context, failures: seq<string>, evidence: seq<string>)
    ensures Block(c, failures, evidence) == "" <==>
            c.lastSummary == None && c.priorSummary == "" && failures == [] && evidence == [] && c.bestFiles == []
    ensures Block(c, failures, evidence) != "" ==>
              Block(c, failures, evidence) == Join(BlockLines(c, failures, evidence), "\n") + "\n"
  {
    hide BlockLines, Join;
  }

  /** The lines that are never evicted: what there is to say of the task, the last attempt, the last handoff and best. */
  lemma HeaderSays(c: Context)
    ensures forall line :: line in Header(c) <==>
              || line == "Prior loop context (loop " + Decimal(c.loopId) + " of this task):"
              || line == "- last attempt summary: "
                         + (if c.lastSummary == None || c.lastSummary.value == "" then "n/a" else c.lastSummary.value)
              || (c.priorSummary != "" && (line == "- prior handoff summary:"
                                           || exists p :: p in SplitLines(c.priorSummary) && line == "  " + p))
              || line == "- best state: "
                         + (if c.bestSummary == None || c.bestSummary.value == "" then "empty" else c.bestSummary.value)
              || (c.bestFiles != [] && line == "- files in best/: " + Join(c.bestFiles, ", "))
  {
    IndentMembers("  ", SplitLines(c.priorSummary));
    hide Indent, SplitLines, Decimal, Join;
  }

  /** The lines between header and footer: every failure and every evidence line that was kept, each list under its title. */
  lemma SectionsSay(c: Context, failures: seq<string>, evidence: seq<string>)
    ensures forall line :: line in BlockLines(c, failures, evidence) <==>
              || line in Header(c) || line in Footer()
              || (failures != [] && (line == FailureTitle() || exists f :: f in failures && line == "  - " + f))
              || (evidence != [] && (line == EvidenceTitle() || exists e :: e in evidence && line == "  - " + e))
  {
    IndentMembers("  - ", failures);
    IndentMembers("  - ", evidence);
    hide Indent, Footer, Header, FailureTitle, EvidenceTitle;
  }

  lemma IndentMembers(prefix: string, lines: seq<string>)
    ensures forall line :: line in Indent(prefix, lines) <==> exists p :: p in lines && line == prefix + p
  {
    forall line ensures line in Indent(prefix, lines) <==> exists p :: p in lines && line == prefix + p {
      if line in Indent(prefix, lines) {
        var i :| 0 <= i < |lines| && Indent(prefix, lines)[i] == line;
        assert lines[i] in lines;
      }
      if p :| p in lines && line == prefix + p {
        var i :| 0 <= i < |lines| && lines[i] == p;
        assert Indent(prefix, lines)[i] == line;
      }
    }
  }

  function TextSize(lines: seq<string>): nat {
    if lines == [] then 0 else |lines[0]| + 1 + TextSize(lines[1..])
  }

  lemma {:induction false} JoinSize(lines: seq<string>)
    requires lines != []
    ensures |Join(lines, "\n")| + 1 == TextSize(lines)
  {
    if |lines| > 1 { JoinSize(lines[1..]); }
  }

  lemma {:induction false} TextSizeAppends(a: seq<string>, b: seq<string>)
    ensures TextSize(a + b) == TextSize(a) + TextSize(b)
  {
    if a == [] {
      assert a + b == b;
    } else {
      TextSizeAppends(a[1..], b);
      assert (a + b)[1..] == a[1..] + b;
    }
  }

  lemma {:induction false} BlockTextSize(c: Context, failures: seq<string>, evidence: seq<string>)
    ensures HasContext(c, failures, evidence) ==>
              |Block(c, failures, evidence)| ==
              TextSize(Header(c)) + TextSize(Section(FailureTitle(), failures))
              + TextSize(Section(EvidenceTitle(), evidence)) + TextSize(Footer())
  {
    hide Header, Section, Footer, FailureTitle, EvidenceTitle;
    var (h, s, t, g) := (Header(c), Section(FailureTitle(), failures), Section(EvidenceTitle(), evidence), Footer());
    TextSizeAppends(h + s + t, g);
    TextSizeAppends(h + s, t);
    TextSizeAppends(h, s);
    FooterLines();
    JoinSize(BlockLines(c, failures, evidence));
  }

  lemma FooterLines()
    ensures Footer() != []
  {
  }

  lemma {:induction false} SectionShrinks(title: string, lines: seq<string>)
    requires lines != []
    ensures TextSize(Section(title, lines[..|lines| - 1])) < TextSize(Section(title, lines))
  {
    var init, last := lines[..|lines| - 1], lines[|lines| - 1];
    assert Indent("  - ", lines) == Indent("  - ", init) + ["  - " + last];
    TextSizeAppends(Indent("  - ", init), ["  - " + last]);
    TextSizeAppends([title], Indent("  - ", init));
    TextSizeAppends([title], Indent("  - ", lines));
  }

  /** Each eviction really shortens the measured block, so the lines kept are the most that fit:
      with one line fewer the block is strictly shorter. */
  lemma EvictionShrinksBlock(c: Context, failures: seq<string>, evidence: seq<string>)
    ensures evidence != [] ==>
              |Block(c, failures, evidence[..|evidence| - 1])| < |Block(c, failures, evidence)|
    ensures failures != [] ==>
              |Block(c, failures[..|failures| - 1], evidence)| < |Block(c, failures, evidence)|
  {
    hide Block;
    if evidence != [] { BlockShrinks(c, failures, failures, evidence[..|evidence| - 1], evidence); }
    if failures != [] { BlockShrinks(c, failures[..|failures| - 1], failures, evidence, evidence); }
  }

  lemma BlockShrinks(c: Context, f: seq<string>, f': seq<string>, e: seq<string>, e': seq<string>)
    requires f == f' || (f' != [] && f == f'[..|f'| - 1])
    requires e == e' || (e' != [] && e == e'[..|e'| - 1])
    requires f != f' || e != e'
    ensures |Block(c, f, e)| < |Block(c, f', e')|
  {
    hide Block, Header, Section, Footer, FailureTitle, EvidenceTitle, TextSize;
    BlockTextSize(c, f, e);
    BlockTextSize(c, f', e');
    if f != f' { SectionShrinks(FailureTitle(), f'); }
    if e != e' { SectionShrinks(EvidenceTitle(), e'); }
    if !HasContext(c, f, e) { NoBlock(c, f, e); }
    HeaderHasText(c);
  }

  lemma NoBlock(c: Context, failures: seq<string>, evidence: seq<string>)
    requires !HasContext(c, failures, evidence)
    ensures Block(c, failures, evidence) == ""
  {
  }

  lemma {:induction false} HeaderHasText(c: Context)
    ensures TextSize(Header(c)) > 0
  {
    hide TextSize;
    assert Header(c) != [];
    SomeText(Header(c));
  }

  lemma {:induction false} SomeText(lines: seq<string>)
    requires lines != []
    ensures TextSize(lines) > 0
  {
  }
}
