// mission.md: exactly which missions survive being written and read back.
module MissionRoundTrip {
  import opened Text
  import opened Domain
  import opened Ordering
  import opened HungerEngine
  import opened MissionMirror

  // ---- what a mission must look like -------------------------------------------------------------

  predicate CleanTitle(title: string) {
    title != "" && Strip(title) == title && NoBreaks(title)
  }

  predicate CleanWord(id: string) {
    id != "" && WordLength(id) == |id|
  }

  /** Newline-separated lines, the first and the last not blank, none opening a section. */
  predicate CleanDescription(text: string) {
    var lines := SplitLines(text);
    Join(lines, "\n") == text && Trim(lines) == lines && forall i :: 0 <= i < |lines| ==> !OpensSection(lines[i])
  }

  /** A line of a phase description the parser gives back as it is. */
  predicate PlainLine(line: string) {
    && RStrip(line) == line && !OpensSection(line) && !OpensPhase(line)
    && StatusOf(Strip(line)).None? && Strip(line) !in {"Features:", "Assertions:"}
  }

  predicate CleanPhaseDescription(text: string) {
    var lines := SplitLines(text);
    Join(lines, "\n") == text && Trim(lines) == lines && forall i :: 0 <= i < |lines| ==> PlainLine(lines[i])
  }

  predicate CleanId(id: string) {
    id != "" && Strip(id) == id && ':' !in id && NoBreaks(id)
  }

  function Ids(es: seq<Entry>): seq<string> {
    seq(|es|, i requires 0 <= i < |es| => es[i].id)
  }

  ghost predicate CleanIds(es: seq<Entry>) {
    (forall i :: 0 <= i < |es| ==> CleanId(es[i].id)) && Distinct(Ids(es))
  }

  ghost predicate Clean(m: MissionText) {
    && CleanTitle(m.title) && CleanDescription(m.description)
    && forall i :: 0 <= i < |m.phases| ==>
         && CleanWord(m.phases[i].id) && CleanTitle(m.phases[i].title) && CleanPhaseDescription(m.phases[i].description)
         && CleanIds(m.phases[i].features) && CleanIds(m.phases[i].assertions)
  }

  /** Fields that are written but never read back stay on one line; statuses are plain words. */
  ghost predicate OneLineEntry(e: Entry) {
    NoBreaks(e.status) && NoBreaks(e.title) && NoBreaks(e.extra) && e.status != "" && ']' !in e.status
  }

  ghost predicate OneLineEntries(es: seq<Entry>) {
    forall i :: 0 <= i < |es| ==> OneLineEntry(es[i])
  }

  ghost predicate OneLine(m: MissionText) {
    forall i :: 0 <= i < |m.phases| ==> OneLineEntries(m.phases[i].features) && OneLineEntries(m.phases[i].assertions)
  }

  /** The description does not itself hold the line that opens the phases. */
  predicate NoPhasesLine(text: string) {
    var lines := SplitLines(text);
    forall i :: 0 <= i < |lines| ==> Strip(lines[i]) != "## Phases"
  }

  /** What the parser should give back. */
  function ViewPhase(p: PhaseText): ParsedPhase {
    ParsedPhase(p.id, p.title, p.status, p.description, Ids(p.features), Ids(p.assertions))
  }

  function View(m: MissionText): ParsedMission {
    ParsedMission(m.title, m.description, seq(|m.phases|, i requires 0 <= i < |m.phases| => ViewPhase(m.phases[i])))
  }

  // ---- the parser's range ------------------------------------------------------------------------------

  lemma {:induction false} StripKeepsLine(s: string)
    requires NoBreaks(s)
    ensures NoBreaks(Strip(s)) && NoBreaks(RStrip(s))
  {
    StripFacts(s);
    RStripFacts(s);
    forall i | 0 <= i < |Strip(s)| ensures !IsBreak(Strip(s)[i]) {
      assert Strip(s)[i] in s;
      var j :| 0 <= j < |s| && s[j] == Strip(s)[i];
    }
  }

  lemma TailKeepsLine(s: string, i: nat)
    requires NoBreaks(s) && i <= |s|
    ensures NoBreaks(s[i..]) && NoBreaks(s[..i])
  {
  }

  lemma {:induction false} TitleInRange(lines: seq<string>)
    requires AllLines(lines) && TitleOf(lines).Ok?
    ensures CleanTitle(TitleOf(lines).value)
  {
    var line := lines[0];
    if "# " <= line && Strip(line[2..]) != "" {
      TailKeepsLine(line, 2);
      StripKeepsLine(line[2..]);
      StripIdempotent(line[2..]);
    } else {
      TitleInRange(lines[1..]);
    }
  }

  lemma {:induction false} AfterHeaderSuffix(lines: seq<string>, header: string)
    ensures exists k :: 0 <= k <= |lines| && AfterHeader(lines, header) == lines[k..]
  {
    if lines == [] {
      assert lines[0..] == [];
    } else if Strip(lines[0]) != header {
      AfterHeaderSuffix(lines[1..], header);
      var k :| 0 <= k <= |lines| - 1 && AfterHeader(lines[1..], header) == lines[1..][k..];
      assert lines[k + 1..] == lines[1..][k..];
    }
  }

  lemma {:induction false} UntilSectionFacts(lines: seq<string>)
    ensures UntilSection(lines) <= lines
    ensures forall i :: 0 <= i < |UntilSection(lines)| ==> !OpensSection(UntilSection(lines)[i])
  {
    if lines != [] && !OpensSection(lines[0]) { UntilSectionFacts(lines[1..]); }
  }

  lemma SectionInRange(lines: seq<string>, header: string)
    requires AllLines(lines)
    ensures AllLines(SectionOf(lines, header))
    ensures forall i :: 0 <= i < |SectionOf(lines, header)| ==> !OpensSection(SectionOf(lines, header)[i])
  {
    AfterHeaderSuffix(lines, header);
    var k :| 0 <= k <= |lines| && AfterHeader(lines, header) == lines[k..];
    UntilSectionFacts(lines[k..]);
    var s := SectionOf(lines, header);
    forall i | 0 <= i < |s| ensures NoBreaks(s[i]) {
      assert s[i] == lines[k..][i] == lines[k + i];
    }
  }

  ghost predicate Trimmed(lines: seq<string>) {
    lines == [] || (Strip(lines[0]) != "" && Strip(lines[|lines| - 1]) != "")
  }

  lemma {:induction false} TrimFrontFacts(lines: seq<string>)
    ensures exists k :: 0 <= k <= |lines| && TrimFront(lines) == lines[k..]
    ensures TrimFront(lines) == [] || Strip(TrimFront(lines)[0]) != ""
  {
    if lines != [] && Strip(lines[0]) == "" {
      TrimFrontFacts(lines[1..]);
      var k :| 0 <= k <= |lines| - 1 && TrimFront(lines[1..]) == lines[1..][k..];
      assert lines[k + 1..] == lines[1..][k..];
    } else {
      assert lines[0..] == lines;
    }
  }

  lemma {:induction false} TrimBackFacts(lines: seq<string>)
    ensures TrimBack(lines) <= lines
    ensures TrimBack(lines) == [] || Strip(TrimBack(lines)[|TrimBack(lines)| - 1]) != ""
  {
    if lines != [] && Strip(lines[|lines| - 1]) == "" { TrimBackFacts(lines[..|lines| - 1]); }
  }

  lemma TrimFacts(lines: seq<string>)
    ensures Trimmed(Trim(lines))
    ensures forall i :: 0 <= i < |Trim(lines)| ==> Trim(lines)[i] in lines
    ensures Trimmed(lines) ==> Trim(lines) == lines
  {
    hide Strip;
    TrimFrontFacts(lines);
    var k :| 0 <= k <= |lines| && TrimFront(lines) == lines[k..];
    TrimBackFacts(lines[k..]);
    var t := Trim(lines);
    forall i | 0 <= i < |t| ensures t[i] in lines {
      assert t[i] == lines[k..][i] == lines[k + i];
    }
  }

  /** Lines joined after trimming split back into themselves. */
  lemma TrimmedJoin(lines: seq<string>)
    requires AllLines(lines)
    ensures var t := Trim(lines);
            SplitLines(Join(t, "\n")) == t && Trim(t) == t && forall i :: 0 <= i < |t| ==> t[i] in lines
  {
    TrimFacts(lines);
    var t := Trim(lines);
    TrimFacts(t);
    assert AllLines(t) by {
      forall i | 0 <= i < |t| ensures NoBreaks(t[i]) {
        var j :| 0 <= j < |lines| && lines[j] == t[i];
      }
    }
    StripOfEmpty();
    SplitOfJoin(t);
  }

  lemma StripOfEmpty()
    ensures Strip("") == "" && RStrip("") == "" && LStrip("") == ""
  {
  }

  lemma DescriptionInRange(lines: seq<string>)
    requires AllLines(lines)
    ensures CleanDescription(Join(Trim(SectionOf(lines, "## Description")), "\n"))
  {
    SectionInRange(lines, "## Description");
    var s := SectionOf(lines, "## Description");
    TrimmedJoin(s);
    var t := Trim(s);
    forall i | 0 <= i < |t| ensures !OpensSection(t[i]) {
      var j :| 0 <= j < |s| && s[j] == t[i];
    }
  }

  /** Trailing white space does not change what `strip` leaves. */
  lemma {:induction false} StripOfRStrip(s: string)
    ensures Strip(RStrip(s)) == Strip(s) && RStrip(RStrip(s)) == RStrip(s)
  {
    if s != "" && IsSpace(s[|s| - 1]) {
      StripOfRStrip(s[..|s| - 1]);
      StripDropsLast(s);
    }
  }

  lemma {:induction false} StripDropsLast(s: string)
    requires s != "" && IsSpace(s[|s| - 1])
    ensures Strip(s[..|s| - 1]) == Strip(s)
  {
    var init := s[..|s| - 1];
    if |s| == 1 {
      assert s[1..] == "" && init == "";
    } else if IsSpace(s[0]) {
      StripDropsLast(s[1..]);
      assert s[1..][..|s| - 2] == init[1..];
    } else {
      assert LStrip(s) == s && LStrip(init) == init;
    }
  }

  ghost predicate ReadingInRange(st: Reading) {
    && AllLines(st.description) && (forall i :: 0 <= i < |st.description| ==> PlainLine(st.description[i]))
    && AllLines(st.featureIds) && AllLines(st.assertionIds)
  }

  lemma EmptyIsPlain()
    ensures PlainLine("") && NoBreaks("")
  {
    StripOfEmpty();
    assert !("Status:" <= "") && !("## " <= "") && !("### " <= "");
  }

  lemma {:induction false} PlainAfterRStrip(raw: string)
    requires NoBreaks(raw) && !OpensSection(raw) && !OpensPhase(raw)
    requires StatusOf(Strip(raw)).None? && Strip(raw) !in {"Features:", "Assertions:"}
    ensures PlainLine(RStrip(raw)) && NoBreaks(RStrip(raw))
  {
    StripOfRStrip(raw);
    StripKeepsLine(raw);
    RStripFacts(raw);
    hide Strip, RStrip, StatusOf;
    var r := RStrip(raw);
    assert "## " <= r ==> "## " <= raw;
    assert "### " <= r ==> "### " <= raw;
    assert "### " <= raw ==> OpensPhase(raw);
  }

  lemma {:induction false} LStripKeepsLine(s: string)
    requires NoBreaks(s)
    ensures NoBreaks(LStrip(s)) && |LStrip(s)| <= |s|
  {
    LStripFacts(s);
    TailKeepsLine(s, |s| - |LStrip(s)|);
  }

  lemma BulletKeepsLine(line: string, word: string)
    requires NoBreaks(line) && BulletId(line, word).Some?
    ensures NoBreaks(BulletId(line, word).value)
  {
    hide LStrip, Strip, NoBreaks, IndexOf;
    TailKeepsLine(line, 1);
    LStripKeepsLine(line[1..]);
    var t := LStrip(line[1..]);
    var k := IndexOf(t, ']');
    TailKeepsLine(t, k + 1);
    LStripKeepsLine(t[k + 1..]);
    var v := LStrip(t[k + 1..]);
    TailKeepsLine(v, |word|);
    var x := v[|word|..];
    TailKeepsLine(x, IndexOf(x, ':'));
    StripKeepsLine(x[..IndexOf(x, ':')]);
  }

  lemma ReadLineInRange(st: Reading, raw: string)
    requires ReadingInRange(st) && NoBreaks(raw) && !OpensSection(raw) && !OpensPhase(raw)
    ensures ReadingInRange(ReadLine(st, raw))
  {
    EmptyIsPlain();
    var s := Strip(raw);
    StripKeepsLine(raw);
    if StatusOf(s).None? && s !in {"Features:", "Assertions:"} { PlainAfterRStrip(raw); }
    if BulletId(s, "Feature").Some? { BulletKeepsLine(s, "Feature"); }
    if BulletId(s, "Assertion").Some? { BulletKeepsLine(s, "Assertion"); }
    hide PlainLine, Strip, RStrip, StatusOf, BulletId, NoBreaks, OpensSection, OpensPhase;
  }

  /** Every line but the first is neither a section nor a phase header. */
  ghost predicate BlockBody(lines: seq<string>) {
    AllLines(lines) && forall i :: 0 <= i < |lines| ==> !OpensSection(lines[i]) && !OpensPhase(lines[i])
  }

  lemma {:induction false} ReadLinesInRange(lines: seq<string>)
    requires BlockBody(lines)
    ensures ReadingInRange(ReadLines(START, lines))
  {
    if lines != [] {
      ReadLinesInRange(lines[..|lines| - 1]);
      ReadLineInRange(ReadLines(START, lines[..|lines| - 1]), lines[|lines| - 1]);
    }
  }

  lemma {:induction false} WordFacts(s: string)
    ensures WordLength(s[..WordLength(s)]) == WordLength(s)
    ensures WordLength(s) < |s| ==> IsSpace(s[WordLength(s)])
    ensures s != "" && !IsSpace(s[0]) ==> WordLength(s) > 0
  {
    if s != "" && !IsSpace(s[0]) {
      WordFacts(s[1..]);
      var n := WordLength(s);
      assert s[..n][1..] == s[1..][..n - 1];
    }
  }

  lemma {:induction false} WordHasNoBreaks(s: string)
    requires WordLength(s) == |s|
    ensures NoBreaks(s)
  {
    if s != "" {
      WordHasNoBreaks(s[1..]);
      assert s == [s[0]] + s[1..];
    }
  }

  lemma HeaderInRange(header: string)
    requires NoBreaks(header) && HeaderOf(header).Some?
    ensures CleanWord(HeaderOf(header).value.0) && CleanTitle(HeaderOf(header).value.1)
  {
    var t := LStrip(header[3..]);
    LStripFacts(header[3..]);
    assert t == header[3..][|header| - 3 - |t|..];
    TailKeepsLine(header, 3);
    TailKeepsLine(header[3..], |header| - 3 - |t|);
    WordFacts(t);
    var n := WordLength(t);
    var id := t[..n];
    WordHasNoBreaks(id);
    TailKeepsLine(t, n);
    StripKeepsLine(t[n..]);
    StripIdempotent(t[n..]);
    WordIsStripped(id);
  }

  lemma {:induction false} WordIsStripped(s: string)
    requires WordLength(s) == |s|
    ensures Strip(s) == s && forall i :: 0 <= i < |s| ==> !IsSpace(s[i])
  {
    if s != "" { WordIsStripped(s[1..]); }
    StripFixed(s);
  }

  ghost predicate PhaseInRange(p: ParsedPhase) {
    && CleanWord(p.id) && CleanTitle(p.title) && CleanPhaseDescription(p.description)
    && AllLines(p.featureIds) && AllLines(p.assertionIds)
  }

  lemma {:induction false} DedupKeepsLines(ids: seq<string>)
    requires AllLines(ids)
    ensures AllLines(Dedup(ids))
  {
    DedupFacts(ids);
    var d := Dedup(ids);
    forall i | 0 <= i < |d| ensures NoBreaks(d[i]) {
      assert d[i] in ids;
      var j :| 0 <= j < |ids| && ids[j] == d[i];
    }
  }

  lemma BlockInRange(block: seq<string>)
    requires block != [] && NoBreaks(block[0]) && BlockBody(block[1..]) && ParseBlock(block).Ok?
    ensures PhaseInRange(ParseBlock(block).value)
  {
    hide HeaderOf, ReadLines, PlainLine, Strip, CleanTitle, CleanWord;
    StripKeepsLine(block[0]);
    HeaderInRange(Strip(block[0]));
    ReadLinesInRange(block[1..]);
    var st := ReadLines(START, block[1..]);
    TrimmedJoin(st.description);
    var t := Trim(st.description);
    forall i | 0 <= i < |t| ensures PlainLine(t[i]) {
      var j :| 0 <= j < |st.description| && st.description[j] == t[i];
    }
    DedupKeepsLines(st.featureIds);
    DedupKeepsLines(st.assertionIds);
  }

  ghost predicate GoodBlock(block: seq<string>) {
    block != [] && NoBreaks(block[0]) && BlockBody(block[1..])
  }

  lemma {:induction false} BlockLengthFacts(lines: seq<string>)
    ensures forall i :: 0 <= i < BlockLength(lines) ==> !OpensPhase(lines[i])
  {
    if lines != [] && !OpensPhase(lines[0]) { BlockLengthFacts(lines[1..]); }
  }

  lemma {:induction false} BlocksInRange(lines: seq<string>)
    requires AllLines(lines) && forall i :: 0 <= i < |lines| ==> !OpensSection(lines[i])
    ensures forall i :: 0 <= i < |Blocks(lines)| ==> GoodBlock(Blocks(lines)[i])
    decreases |lines|
  {
    if lines != [] {
      if OpensPhase(lines[0]) {
        var n := BlockLength(lines[1..]);
        BlockLengthFacts(lines[1..]);
        assert lines[..n + 1][1..] == lines[1..][..n];
        BlocksInRange(lines[n + 1..]);
      } else {
        BlocksInRange(lines[1..]);
      }
    }
  }

  lemma {:induction false} ParsedInRange(blocks: seq<seq<string>>)
    requires forall i :: 0 <= i < |blocks| ==> GoodBlock(blocks[i])
    requires SomeLines(blocks) && ParseBlocks(blocks).Ok?
    ensures forall i :: 0 <= i < |ParseBlocks(blocks).value| ==> PhaseInRange(ParseBlocks(blocks).value[i])
  {
    if blocks != [] {
      hide ParseBlock, PhaseInRange;
      ParsedInRange(blocks[..|blocks| - 1]);
      BlockInRange(blocks[|blocks| - 1]);
    }
  }

  /** Whatever the file holds, what the parser returns is clean. */
  lemma ParseIsInRange(text: string)
    requires Parse(text).Ok?
    ensures var v := Parse(text).value;
            && CleanTitle(v.title) && CleanDescription(v.description)
            && forall i :: 0 <= i < |v.phases| ==> PhaseInRange(v.phases[i])
  {
    hide TitleOf, SectionOf, Blocks, ParseBlocks, CleanTitle, CleanDescription, PhaseInRange, Trim;
    var lines := SplitLines(text);
    SplitLinesAreLines(text);
    TitleInRange(lines);
    DescriptionInRange(lines);
    SectionInRange(lines, "## Phases");
    BlocksInRange(SectionOf(lines, "## Phases"));
    BlocksNonEmpty(SectionOf(lines, "## Phases"));
    ParsedInRange(Blocks(SectionOf(lines, "## Phases")));
  }
}
