// mission_state_updater._render_markdown and mission_loader._parse_markdown: mission.md out and in.
module MissionMirror {
  import opened Text
  import opened Domain
  import opened Ordering
  import opened HungerEngine

  // ---- what is written -------------------------------------------------------------------------

  /** A feature with its hunger item id, or an assertion with its check type. */
  datatype Entry = Entry(status: string, id: string, title: string, extra: string)

  datatype PhaseText = PhaseText(id: string, title: string, status: PhaseStatus, description: string,
                                 features: seq<Entry>, assertions: seq<Entry>)

  datatype MissionText = MissionText(title: string, description: string, phases: seq<PhaseText>, notes: seq<string>)

  function StatusName(s: PhaseStatus): string {
    match s case PENDING => "pending" case IN_PROGRESS => "in_progress" case VALIDATING => "validating" case PHASE_DONE => "done"
  }

  function FeatureBullet(e: Entry): string {
    "- [" + e.status + "] Feature " + e.id + ": " + e.title + " (hunger: " + e.extra + ")"
  }

  function AssertionBullet(e: Entry): string {
    "- [" + e.status + "] Assertion " + e.id + ": " + e.title + " (" + e.extra + ")"
  }

  function FeatureBullets(es: seq<Entry>): seq<string> {
    if es == [] then ["- None"] else seq(|es|, i requires 0 <= i < |es| => FeatureBullet(es[i]))
  }

  function AssertionBullets(es: seq<Entry>): seq<string> {
    if es == [] then ["- None"] else seq(|es|, i requires 0 <= i < |es| => AssertionBullet(es[i]))
  }

  /** Lists are never empty: without features or assertions they say so in one line. */
  lemma EmptyListsSayNone(es: seq<Entry>)
    ensures FeatureBullets(es) != [] && AssertionBullets(es) != []
    ensures es == [] <==> FeatureBullets(es) == ["- None"]
    ensures es == [] <==> AssertionBullets(es) == ["- None"]
    ensures es != [] ==> |FeatureBullets(es)| == |es| == |AssertionBullets(es)|
  {
    if es != [] {
      var none := "- None";
      assert FeatureBullets(es)[0][2] == AssertionBullets(es)[0][2] == '[' && none[2] == 'N';
      assert ["- None"][0] == none;
    }
  }

  /** `_render_phase`; the description is one element, however many lines it holds. */
  function RenderPhase(p: PhaseText): seq<string> {
    ["### " + p.id + " " + p.title, "", "Status: `" + StatusName(p.status) + "`", ""] + [p.description]
    + ["", "Features:"] + FeatureBullets(p.features)
    + ["", "Assertions:"] + AssertionBullets(p.assertions) + ["", ""]
  }

  function RenderPhases(ps: seq<PhaseText>): seq<string> {
    if ps == [] then [] else RenderPhase(ps[0]) + RenderPhases(ps[1..])
  }

  function Front(m: MissionText): seq<string> {
    ["# " + m.title, "", "## Description", ""] + [m.description] + ["", "## Phases", ""] + RenderPhases(m.phases)
  }

  function Constraints(): seq<string> {
    ["",
     "- **I-3** Check-level commits only; score-based commits are forbidden.",
     "- **I-4** Workspace isolation: workers read best and write loop workspaces.",
     "- **I-5** Targeted validation preserves previous passing checks.",
     "- **I-6** Stagnation detection counts attempted items only.",
     "- **I-7** Sandbox and path safety guard subprocess and file access.",
     "- **I-8** Cost ceiling checks run before and after LLM/tool work.",
     "- **I-9** BLOCKED is distinct from DONE and has its own stop reason.",
     "- **I-10** Requirements are compiled by rule-based compilers.",
     "",
     "## Notes",
     ""]
  }

  function Notes(notes: seq<string>): seq<string> {
    if notes == [] then ["- None"] else seq(|notes|, i requires 0 <= i < |notes| => "- " + notes[i])
  }

  /** One line a note, or one that says there is none. */
  lemma NotesSay(notes: seq<string>, line: string)
    ensures line in Notes(notes) <==> (notes == [] && line == "- None") || exists note :: note in notes && line == "- " + note
    ensures notes != [] ==> |Notes(notes)| == |notes|
  {
    if notes != [] {
      if line in Notes(notes) {
        var i :| 0 <= i < |notes| && Notes(notes)[i] == line;
        assert notes[i] in notes;
      }
      if note :| note in notes && line == "- " + note {
        var i :| 0 <= i < |notes| && notes[i] == note;
        assert Notes(notes)[i] == line;
      }
    }
  }

  /** `_render_markdown` */
  function Render(m: MissionText): string {
    Join(Front(m) + (["## Constraints"] + Constraints() + Notes(m.notes) + [""]), "\n")
  }

  // ---- what is read: the patterns ----------------------------------------------------------------

  function IndexOf(s: string, c: char): (i: nat)
    ensures i <= |s|
  {
    if s == "" || s[0] == c then 0 else 1 + IndexOf(s[1..], c)
  }

  /** Length of the first run of non-space characters. */
  function WordLength(s: string): (i: nat)
    ensures i <= |s|
  {
    if s == "" || IsSpace(s[0]) then 0 else 1 + WordLength(s[1..])
  }

  /** `^###\s+(\S+)(?:\s+(.*))?$` on a stripped line: the phase id and its title. */
  function HeaderOf(header: string): Option<(string, string)> {
    if !("###" <= header) then None
    else
      var t := LStrip(header[3..]);
      if t == "" || |t| == |header| - 3 then None
      else
        var n := WordLength(t);
        var title := Strip(t[n..]);
        Some((t[..n], if title == "" then t[..n] else title))
  }

  /** The status in what follows `Status:` and its white space (`spaced` if there was any). */
  function StatusFrom(a: string, spaced: bool): Option<string> {
    if a == "" then None
    else if a == "`" then (if spaced then Some("") else None)
    else
      var b := if a[0] == '`' then a[1..] else a;
      var c := if b[|b| - 1] == '`' then b[..|b| - 1] else b;
      if c == "" || '`' in c then None else Some(Strip(c))
  }

  /** `^Status:\s*`?([^`]+?)`?\s*$` on a stripped line: the status text, stripped. */
  function StatusOf(line: string): Option<string> {
    if !("Status:" <= line) then None
    else StatusFrom(LStrip(line[7..]), |LStrip(line[7..])| < |line| - 7)
  }

  /** `^-\s+\[[^\]]+\]\s+<word>\s+([^:]+):` on a stripped line: the id, stripped. */
  function BulletId(line: string, word: string): Option<string> {
    if line == "" || line[0] != '-' then None
    else
      var t := LStrip(line[1..]);
      if |t| == |line| - 1 || t == "" || t[0] != '[' then None
      else
        var k := IndexOf(t, ']');
        if k < 2 || k == |t| then None
        else
          var v := LStrip(t[k + 1..]);
          if |v| == |t| - k - 1 || !(word <= v) then None
          else
            var x := v[|word|..];
            var j := IndexOf(x, ':');
            if j == |x| || j < 2 || !IsSpace(x[0]) then None else Some(Strip(x[..j]))
  }

  // ---- what is read: the sections ------------------------------------------------------------------

  datatype ParsedPhase = ParsedPhase(id: string, title: string, status: PhaseStatus, description: string,
                                     featureIds: seq<string>, assertionIds: seq<string>)
  datatype ParsedMission = ParsedMission(title: string, description: string, phases: seq<ParsedPhase>)
  datatype LoadError = MissingTitle | BadHeader | BadStatus
  datatype Result<T> = Ok(value: T) | Err(error: LoadError)

  function TitleOf(lines: seq<string>): Result<string> {
    if lines == [] then Err(MissingTitle)
    else if "# " <= lines[0] && Strip(lines[0][2..]) != "" then Ok(Strip(lines[0][2..]))
    else TitleOf(lines[1..])
  }

  /** The lines after the first one that reads `header`. */
  function AfterHeader(lines: seq<string>, header: string): seq<string> {
    if lines == [] then [] else if Strip(lines[0]) == header then lines[1..] else AfterHeader(lines[1..], header)
  }

  predicate OpensSection(line: string) { "## " <= line && !("### " <= line) }
  predicate OpensPhase(line: string) { "### " <= line }

  /** Two number signs and a space open a section, three a phase. */
  lemma HeadersOpen(line: string)
    ensures OpensSection(line) <==> |line| >= 3 && line[0] == '#' && line[1] == '#' && line[2] == ' '
    ensures OpensPhase(line) <==> |line| >= 4 && line[0] == '#' && line[1] == '#' && line[2] == '#' && line[3] == ' '
  {
  }

  function UntilSection(lines: seq<string>): seq<string> {
    if lines == [] || OpensSection(lines[0]) then [] else [lines[0]] + UntilSection(lines[1..])
  }

  function SectionOf(lines: seq<string>, header: string): seq<string> {
    UntilSection(AfterHeader(lines, header))
  }

  function TrimFront(lines: seq<string>): seq<string> {
    if lines != [] && Strip(lines[0]) == "" then TrimFront(lines[1..]) else lines
  }

  function TrimBack(lines: seq<string>): seq<string> {
    if lines != [] && Strip(lines[|lines| - 1]) == "" then TrimBack(lines[..|lines| - 1]) else lines
  }

  function Trim(lines: seq<string>): seq<string> {
    TrimBack(TrimFront(lines))
  }

  /** Lines before the first phase header, and the rest. */
  function BlockLength(lines: seq<string>): (n: nat)
    ensures n <= |lines|
  {
    if lines == [] || OpensPhase(lines[0]) then 0 else 1 + BlockLength(lines[1..])
  }

  /** The blocks that start at a phase header; what precedes the first header is dropped. */
  function Blocks(lines: seq<string>): seq<seq<string>> {
    if lines == [] then []
    else if OpensPhase(lines[0]) then
      var n := BlockLength(lines[1..]);
      [lines[..n + 1]] + Blocks(lines[n + 1..])
    else Blocks(lines[1..])
  }

  datatype Part = InDescription | InFeatures | InAssertions

  datatype Reading = Reading(part: Part, status: string, description: seq<string>,
                             featureIds: seq<string>, assertionIds: seq<string>)

  function ReadLine(st: Reading, raw: string): Reading {
    var s := Strip(raw);
    if s == "" && st.part == InDescription then st.(description := st.description + [""])
    else if StatusOf(s).Some? then st.(status := StatusOf(s).value)
    else if s == "Features:" then st.(part := InFeatures)
    else if s == "Assertions:" then st.(part := InAssertions)
    else match st.part
      case InFeatures =>
        (match BulletId(s, "Feature") case Some(id) => st.(featureIds := st.featureIds + [id]) case None => st)
      case InAssertions =>
        (match BulletId(s, "Assertion") case Some(id) => st.(assertionIds := st.assertionIds + [id]) case None => st)
      case InDescription => st.(description := st.description + [RStrip(raw)])
  }

  function ReadLines(st: Reading, lines: seq<string>): Reading {
    if lines == [] then st else ReadLine(ReadLines(st, lines[..|lines| - 1]), lines[|lines| - 1])
  }

  const START := Reading(InDescription, "pending", [], [], [])

  function StatusNamed(name: string): Option<PhaseStatus> {
    if name == "pending" then Some(PENDING)
    else if name == "in_progress" then Some(IN_PROGRESS)
    else if name == "validating" then Some(VALIDATING)
    else if name == "done" then Some(PHASE_DONE)
    else None
  }

  /** A status is read from its own name and from no other text. */
  lemma StatusNamedIff(name: string)
    ensures forall s: PhaseStatus :: StatusNamed(name) == Some(s) <==> name == StatusName(s)
    ensures StatusNamed(name).None? <==> name !in ["pending", "in_progress", "validating", "done"]
  {
  }

  function ParseBlock(block: seq<string>): Result<ParsedPhase>
    requires block != []
  {
    var header := HeaderOf(Strip(block[0]));
    if header.None? then Err(BadHeader)
    else
      var st := ReadLines(START, block[1..]);
      var status := StatusNamed(st.status);
      if status.None? then Err(BadStatus)
      else Ok(ParsedPhase(header.value.0, header.value.1, status.value, Join(Trim(st.description), "\n"),
                          Dedup(st.featureIds), Dedup(st.assertionIds)))
  }

  /** Each block in turn; the first that fails is reported. */
  function ParseBlocks(blocks: seq<seq<string>>): Result<seq<ParsedPhase>>
    requires forall i :: 0 <= i < |blocks| ==> blocks[i] != []
  {
    if blocks == [] then Ok([])
    else
      var init := ParseBlocks(blocks[..|blocks| - 1]);
      if init.Err? then init
      else
        var last := ParseBlock(blocks[|blocks| - 1]);
        if last.Err? then Err(last.error) else Ok(init.value + [last.value])
  }

  lemma {:induction false} BlocksNonEmpty(lines: seq<string>)
    ensures forall i :: 0 <= i < |Blocks(lines)| ==> Blocks(lines)[i] != []
    decreases |lines|
  {
    if lines != [] {
      if OpensPhase(lines[0]) {
        BlocksNonEmpty(lines[BlockLength(lines[1..]) + 1..]);
      } else {
        BlocksNonEmpty(lines[1..]);
      }
    }
  }

  function ParseLines(lines: seq<string>): Result<ParsedMission> {
    var title := TitleOf(lines);
    if title.Err? then Err(title.error)
    else
      var blocks := Blocks(SectionOf(lines, "## Phases"));
      BlocksNonEmpty(SectionOf(lines, "## Phases"));
      var phases := ParseBlocks(blocks);
      if phases.Err? then Err(phases.error)
      else Ok(ParsedMission(title.value, Join(Trim(SectionOf(lines, "## Description")), "\n"), phases.value))
  }

  /** `_parse_markdown` */
  function Parse(text: string): Result<ParsedMission> {
    ParseLines(SplitLines(text))
  }

  // ---- the code ----------------------------------------------------------------------------------------

  method ParseTitle(lines: seq<string>) returns (r: Result<string>)
    ensures r == TitleOf(lines)
  {
    for i := 0 to |lines|
      invariant TitleOf(lines) == TitleOf(lines[i..])
    {
      var line := lines[i];
      assert lines[i..][0] == line && lines[i..][1..] == lines[i + 1..];
      if "# " <= line {
        var title := Strip(line[2..]);
        if title != "" { return Ok(title); }
      }
    }
    return Err(MissingTitle);
  }

  method SectionLines(lines: seq<string>, header: string) returns (section: seq<string>)
    ensures section == SectionOf(lines, header)
  {
    hide Strip, OpensSection;
    var start := 0;
    while start < |lines| && Strip(lines[start]) != header
      invariant start <= |lines| && AfterHeader(lines, header) == AfterHeader(lines[start..], header)
    {
      assert lines[start..][0] == lines[start] && lines[start..][1..] == lines[start + 1..];
      start := start + 1;
    }
    if start == |lines| {
      assert lines[start..] == [];
      return [];
    }
    assert lines[start..][0] == lines[start] && lines[start..][1..] == lines[start + 1..];
    start := start + 1;
    var end := start;
    while end < |lines| && !OpensSection(lines[end])
      invariant start <= end <= |lines|
      invariant UntilSection(lines[start..]) == lines[start..end] + UntilSection(lines[end..])
    {
      assert lines[end..][0] == lines[end] && lines[end..][1..] == lines[end + 1..];
      assert lines[start..end + 1] == lines[start..end] + [lines[end]];
      end := end + 1;
    }
    assert end < |lines| ==> lines[end..][0] == lines[end];
    return lines[start..end];
  }

  method TrimBlankLines(lines: seq<string>) returns (kept: seq<string>)
    ensures kept == Trim(lines)
  {
    hide Strip;
    var start, end := 0, |lines|;
    assert lines[0..] == lines;
    while start < end && Strip(lines[start]) == ""
      invariant start <= end == |lines| && TrimFront(lines) == TrimFront(lines[start..])
    {
      assert lines[start..][0] == lines[start] && lines[start..][1..] == lines[start + 1..];
      start := start + 1;
    }
    assert start < |lines| ==> lines[start..][0] == lines[start];
    assert lines[start..end] == lines[start..];
    while end > start && Strip(lines[end - 1]) == ""
      invariant start <= end <= |lines| && Trim(lines) == TrimBack(lines[start..end])
    {
      var s := lines[start..end];
      assert s[|s| - 1] == lines[end - 1] && s[..|s| - 1] == lines[start..end - 1];
      end := end - 1;
    }
    assert end > start ==> lines[start..end][end - start - 1] == lines[end - 1];
    return lines[start..end];
  }

  /** `_parse_phase_block` */
  method ParsePhaseBlock(block: seq<string>) returns (r: Result<ParsedPhase>)
    requires block != []
    ensures r == ParseBlock(block)
  {
    var header := HeaderOf(Strip(block[0]));
    if header.None? { return Err(BadHeader); }
    var st := START;
    var lines := block[1..];
    for i := 0 to |lines|
      invariant st == ReadLines(START, lines[..i])
    {
      assert lines[..i + 1][..i] == lines[..i] && lines[..i + 1][i] == lines[i];
      var raw := lines[i];
      var s := Strip(raw);
      if s == "" && st.part == InDescription {
        st := st.(description := st.description + [""]);
        continue;
      }
      var status := StatusOf(s);
      if status.Some? {
        st := st.(status := status.value);
        continue;
      }
      if s == "Features:" {
        st := st.(part := InFeatures);
        continue;
      }
      if s == "Assertions:" {
        st := st.(part := InAssertions);
        continue;
      }
      if st.part == InFeatures {
        var id := BulletId(s, "Feature");
        if id.Some? { st := st.(featureIds := st.featureIds + [id.value]); }
      } else if st.part == InAssertions {
        var id := BulletId(s, "Assertion");
        if id.Some? { st := st.(assertionIds := st.assertionIds + [id.value]); }
      } else {
        st := st.(description := st.description + [RStrip(raw)]);
      }
    }
    assert lines[..|lines|] == lines;
    var status := StatusNamed(st.status);
    if status.None? { return Err(BadStatus); }
    var description := TrimBlankLines(st.description);
    return Ok(ParsedPhase(header.value.0, header.value.1, status.value, Join(description, "\n"),
                          Dedup(st.featureIds), Dedup(st.assertionIds)));
  }

  /** The blocks still to come when `current` has been collected and `rest` not yet read. */
  function Resume(current: seq<string>, rest: seq<string>): seq<seq<string>> {
    if current == [] then Blocks(rest)
    else var n := BlockLength(rest); [current + rest[..n]] + Blocks(rest[n..])
  }

  lemma ResumeStep(current: seq<string>, line: string, rest: seq<string>)
    ensures OpensPhase(line) ==>
              Resume(current, [line] + rest) == (if current == [] then [] else [current]) + Resume([line], rest)
    ensures !OpensPhase(line) ==>
              Resume(current, [line] + rest) == Resume(if current == [] then [] else current + [line], rest)
  {
    var all, n := [line] + rest, BlockLength(rest);
    assert all[0] == line && all[1..] == rest;
    if OpensPhase(line) {
      assert all[..n + 1] == [line] + rest[..n] && all[n + 1..] == rest[n..];
      assert current + all[..0] == current && all[0..] == all;
    } else {
      assert BlockLength(all) == n + 1;
      assert all[..n + 1] == [line] + rest[..n] && all[n + 1..] == rest[n..];
      assert current + ([line] + rest[..n]) == (current + [line]) + rest[..n];
    }
  }

  ghost predicate SomeLines(blocks: seq<seq<string>>) {
    forall i :: 0 <= i < |blocks| ==> blocks[i] != []
  }

  lemma {:induction false} ErrorStays(a: seq<seq<string>>, b: seq<seq<string>>)
    requires SomeLines(a + b) && SomeLines(a) && ParseBlocks(a).Err?
    ensures ParseBlocks(a + b) == ParseBlocks(a)
    decreases |b|
  {
    var s := a + b;
    if b == [] {
      assert s == a;
    } else {
      assert s[..|s| - 1] == a + b[..|b| - 1];
      assert SomeLines(a + b[..|b| - 1]) by { assert forall i :: 0 <= i < |s| - 1 ==> s[..|s| - 1][i] == s[i]; }
      ErrorStays(a, b[..|b| - 1]);
    }
  }

  lemma {:induction false} ParseOneMore(blocks: seq<seq<string>>, block: seq<string>)
    requires SomeLines(blocks) && block != []
    ensures SomeLines(blocks + [block])
    ensures ParseBlocks(blocks).Ok? ==>
              ParseBlocks(blocks + [block]) == if ParseBlock(block).Err? then Err(ParseBlock(block).error)
                                               else Ok(ParseBlocks(blocks).value + [ParseBlock(block).value])
  {
    var s := blocks + [block];
    assert s[..|s| - 1] == blocks && s[|s| - 1] == block;
  }

  /** `_parse_phases`, on the lines of the phases section. */
  method ParsePhases(section: seq<string>) returns (r: Result<seq<ParsedPhase>>)
    requires SomeLines(Blocks(section))
    ensures r == ParseBlocks(Blocks(section))
  {
    hide ParseBlock, ParseBlocks, Resume, Blocks;
    var phases: seq<ParsedPhase>, current: seq<string> := [], [];
    ghost var done: seq<seq<string>> := [];
    assert section[0..] == section;
    NoBlocks(section);
    for i := 0 to |section|
      invariant done + Resume(current, section[i..]) == Blocks(section)
      invariant SomeLines(done) && ParseBlocks(done) == Ok(phases)
    {
      var line := section[i];
      assert section[i..] == [line] + section[i + 1..];
      ResumeStep(current, line, section[i + 1..]);
      if OpensPhase(line) {
        if current != [] {
          ParseOneMore(done, current);
          assert done + ([current] + Resume([line], section[i + 1..])) == (done + [current]) + Resume([line], section[i + 1..]);
          done := done + [current];
          var phase := ParsePhaseBlock(current);
          if phase.Err? {
            ErrorStays(done, Resume([line], section[i + 1..]));
            return Err(phase.error);
          }
          phases := phases + [phase.value];
        }
        current := [line];
      } else if current != [] {
        current := current + [line];
      }
    }
    LastBlock(current, section[|section|..]);
    assert done + [] == done;
    if current != [] {
      ParseOneMore(done, current);
      var phase := ParsePhaseBlock(current);
      if phase.Err? { return Err(phase.error); }
      phases := phases + [phase.value];
    }
    return Ok(phases);
  }

  lemma {:induction false} NoBlocks(section: seq<string>)
    ensures Resume([], section) == Blocks(section) && ParseBlocks([]) == Ok([])
  {
  }

  lemma LastBlock(current: seq<string>, rest: seq<string>)
    requires rest == []
    ensures Resume(current, rest) == if current == [] then [] else [current]
  {
    assert current + rest[..0] == current;
  }

  /** `_parse_markdown` on the text of the file. */
  method ParseMarkdown(text: string) returns (r: Result<ParsedMission>)
    ensures r == Parse(text)
  {
    var lines := SplitLines(text);
    var title := ParseTitle(lines);
    if title.Err? { return Err(title.error); }
    var section := SectionLines(lines, "## Description");
    var description := TrimBlankLines(section);
    section := SectionLines(lines, "## Phases");
    BlocksNonEmpty(section);
    var phases := ParsePhases(section);
    if phases.Err? { return Err(phases.error); }
    return Ok(ParsedMission(title.value, Join(description, "\n"), phases.value));
  }
}
