// mission.md: the whole file, and the round-trip theorem.
module MissionFile {
  import opened Text
  import opened Domain
  import opened Ordering
  import opened HungerEngine
  import opened MissionMirror
  import opened MissionRoundTrip
  import opened MissionReadBack

  function AllPhaseLines(ps: seq<PhaseText>): seq<string> {
    if ps == [] then [] else PhaseLines(ps[0]) + AllPhaseLines(ps[1..])
  }

  function Opening(m: MissionText): seq<string> {
    ["# " + m.title, "", "## Description", ""]
  }

  /** The lines of the file up to the constraints. */
  function FileLines(m: MissionText): seq<string> {
    Opening(m) + Explode(m.description) + ["", "## Phases", ""] + AllPhaseLines(m.phases)
  }

  ghost predicate CleanPhases(ps: seq<PhaseText>) {
    forall i :: 0 <= i < |ps| ==> CleanTexts(ps[i])
  }

  ghost predicate QuietPhases(ps: seq<PhaseText>) {
    forall i :: 0 <= i < |ps| ==> QuietPhase(ps[i])
  }

  // ---- the file as lines --------------------------------------------------------------------------

  lemma NoBreaksIn(a: string, b: string)
    requires NoBreaks(a) && NoBreaks(b)
    ensures NoBreaks(a + b)
  {
  }

  lemma FixedTexts()
    ensures NoBreaks("### ") && NoBreaks(" ") && NoBreaks("Status: `") && NoBreaks("`") && NoBreaks("# ")
    ensures NoBreaks("") && NoBreaks("Features:") && NoBreaks("Assertions:") && NoBreaks("- None")
    ensures NoBreaks("## Description") && NoBreaks("## Phases") && NoBreaks("## Constraints")
    ensures NoBreaks("- [") && NoBreaks("] Feature ") && NoBreaks(": ") && NoBreaks(" (hunger: ") && NoBreaks(")")
    ensures NoBreaks("] Assertion ") && NoBreaks(" (")
  {
  }

  lemma {:induction false} AllLinesAppend(a: seq<string>, b: seq<string>)
    requires AllLines(a) && AllLines(b)
    ensures AllLines(a + b)
  {
  }

  lemma HeaderIsLine(p: PhaseText)
    requires CleanTexts(p)
    ensures NoBreaks(HeaderLine(p)) && NoBreaks(StatusLine(StatusName(p.status)))
  {
    FixedTexts();
    WordHasNoBreaks(p.id);
    StatusNames(p.status);
    hide NoBreaks, StatusName;
    NoBreaksIn("### ", p.id);
    NoBreaksIn("### " + p.id, " ");
    NoBreaksIn("### " + p.id + " ", p.title);
    NoBreaksIn("Status: `", StatusName(p.status));
    NoBreaksIn("Status: `" + StatusName(p.status), "`");
  }

  lemma {:induction false} TerminatedSplice(a: seq<string>, text: string, lines: seq<string>, b: seq<string>)
    requires Terminated(lines) == text + "\n"
    ensures Terminated(a + [text] + b) == Terminated(a + lines + b)
  {
    TerminatedAppends(a + [text], b);
    TerminatedAppends(a, [text]);
    TerminatedAppends(a + lines, b);
    TerminatedAppends(a, lines);
    assert [text][1..] == [] && Terminated([text]) == text + "\n" + "";
  }

  /** A text that does not end in a line break. */
  predicate WellEnded(text: string) {
    text == "" || !IsBreak(text[|text| - 1])
  }

  /** Where the second line begins. */
  function NextLine(s: string): (n: nat)
    requires FirstBreak(s) < |s|
    ensures FirstBreak(s) < n <= |s|
  {
    var i := FirstBreak(s);
    if s[i] == '\r' && i + 1 < |s| && s[i + 1] == '\n' then i + 2 else i + 1
  }

  lemma {:induction false} SplitFirst(s: string)
    requires FirstBreak(s) < |s|
    ensures SplitLines(s) == [s[..FirstBreak(s)]] + SplitLines(s[NextLine(s)..])
  {
  }

  /** What follows a text does not move its first break. */
  lemma {:induction false} SameFirstBreak(text: string, rest: string)
    requires FirstBreak(text) < |text| && !IsBreak(text[|text| - 1])
    ensures var whole := text + "\n" + rest;
            && FirstBreak(whole) == FirstBreak(text) && NextLine(whole) == NextLine(text) < |text|
            && whole[..FirstBreak(text)] == text[..FirstBreak(text)]
            && whole[NextLine(text)..] == text[NextLine(text)..] + "\n" + rest
  {
    var i, whole := FirstBreak(text), text + "\n" + rest;
    FirstBreakFacts(text);
    assert forall k :: 0 <= k < |text| ==> whole[k] == text[k];
    BreakStays(text[..i], whole[i..]);
    assert whole == text[..i] + whole[i..];
    hide FirstBreak, IsBreak, NoBreaks;
    assert whole[..i] == text[..i];
    TailOfWhole(text, rest, NextLine(text));
  }

  lemma {:induction false} BreakStays(line: string, rest: string)
    requires NoBreaks(line) && rest != "" && IsBreak(rest[0])
    ensures FirstBreak(line + rest) == |line|
  {
    FirstBreakAt(line, rest);
  }

  lemma TailOfWhole(text: string, rest: string, n: nat)
    requires n <= |text|
    ensures (text + "\n" + rest)[n..] == text[n..] + "\n" + rest
  {
  }

  lemma {:induction false} SplitLast(text: string, rest: string)
    requires FirstBreak(text) == |text|
    ensures SplitLines(text + "\n" + rest) == Explode(text) + SplitLines(rest)
  {
    FirstBreakFacts(text);
    assert text[..|text|] == text;
    SplitOneLine(text, rest);
    FirstBreakAt(text, "");
    assert text + "" == text;
    assert Explode(text) == [text];
  }

  lemma {:induction false} ExplodeIsSplit(text: string)
    requires text != ""
    ensures Explode(text) == SplitLines(text)
  {
  }

  lemma OneAndMore(x: string, a: seq<string>, b: seq<string>)
    ensures [x] + (a + b) == [x] + a + b
  {
  }

  /** A text of any number of lines, then a newline: its lines, then those of the rest. */
  lemma {:induction false} SplitText(text: string, rest: string)
    requires WellEnded(text)
    ensures SplitLines(text + "\n" + rest) == Explode(text) + SplitLines(rest)
    decreases |text|
  {
    hide SplitLines, NextLine, IsBreak, Explode, FirstBreak;
    if FirstBreak(text) == |text| {
      SplitLast(text, rest);
    } else {
      NotEmpty(text);
      SameFirstBreak(text, rest);
      SplitFirst(text);
      SplitFirst(text + "\n" + rest);
      var more := text[NextLine(text)..];
      assert more[|more| - 1] == text[|text| - 1];
      SplitText(more, rest);
      ExplodeIsSplit(text);
      ExplodeIsSplit(more);
      OneAndMore(text[..FirstBreak(text)], SplitLines(more), SplitLines(rest));
    }
  }

  lemma {:induction false} NotEmpty(text: string)
    requires FirstBreak(text) != |text|
    ensures text != "" && FirstBreak(text) < |text|
  {
  }

  lemma {:induction false} SplitElements(texts: seq<string>, rest: string)
    requires forall i :: 0 <= i < |texts| ==> WellEnded(texts[i])
    ensures SplitLines(Terminated(texts) + rest) == ExplodeAll(texts) + SplitLines(rest)
  {
    hide SplitLines, Explode, WellEnded;
    if texts == [] {
      assert Terminated(texts) + rest == rest;
    } else {
      var more := Terminated(texts[1..]) + rest;
      assert Terminated(texts) + rest == texts[0] + "\n" + more;
      SplitText(texts[0], more);
      SplitElements(texts[1..], rest);
    }
  }

  lemma {:induction false} ExplodeAppends(a: seq<string>, b: seq<string>)
    ensures ExplodeAll(a + b) == ExplodeAll(a) + ExplodeAll(b)
  {
    hide Explode;
    if a == [] {
      assert a + b == b;
    } else {
      assert (a + b)[0] == a[0] && (a + b)[1..] == a[1..] + b;
      ExplodeAppends(a[1..], b);
    }
  }

  lemma {:induction false} ExplodeLines(texts: seq<string>)
    requires AllLines(texts)
    ensures ExplodeAll(texts) == texts
  {
    if texts != [] {
      FirstBreakAt(texts[0], "");
      assert texts[0] + "" == texts[0] && Explode(texts[0]) == [texts[0]];
      ExplodeLines(texts[1..]);
      assert texts == [texts[0]] + texts[1..];
    }
  }

  lemma {:induction false} ExplodeOne(text: string)
    ensures ExplodeAll([text]) == Explode(text)
  {
    hide Explode;
    assert [text][1..] == [] && ExplodeAll([]) == [];
    assert Explode(text) + [] == Explode(text);
  }

  lemma {:induction false} DescriptionEnds(text: string)
    requires Join(SplitLines(text), "\n") == text && Trim(SplitLines(text)) == SplitLines(text)
    ensures WellEnded(text)
  {
    if text != "" {
      ExplodedLines(text);
      var lines := SplitLines(text);
      StripOfEmpty();
      assert Strip(lines[|lines| - 1]) != "" && NoBreaks(lines[|lines| - 1]);
      hide SplitLines, Trim, Strip, IsBreak, Explode, Terminated;
      JoinEndsAsLast(lines);
    }
  }

  lemma {:induction false} JoinEndsAsLast(lines: seq<string>)
    requires lines != [] && lines[|lines| - 1] != ""
    ensures var last, text := lines[|lines| - 1], Join(lines, "\n");
            text != "" && text[|text| - 1] == last[|last| - 1]
  {
    var init, last := lines[..|lines| - 1], lines[|lines| - 1];
    assert lines == init + [last];
    JoinIsTerminated(init, [last]);
    assert Join([last], "\n") == last;
  }

  lemma BulletsEndWell(p: PhaseText)
    ensures forall i :: 0 <= i < |FeatureBullets(p.features)| ==> WellEnded(FeatureBullets(p.features)[i])
    ensures forall i :: 0 <= i < |AssertionBullets(p.assertions)| ==> WellEnded(AssertionBullets(p.assertions)[i])
  {
    forall i | 0 <= i < |p.features| ensures WellEnded(FeatureBullet(p.features[i])) { FeatureShape(p.features[i]); }
    forall i | 0 <= i < |p.assertions| ensures WellEnded(AssertionBullet(p.assertions[i])) { AssertionShape(p.assertions[i]); }
    assert WellEnded("- None");
  }

  ghost predicate AllEndWell(texts: seq<string>) {
    forall i :: 0 <= i < |texts| ==> WellEnded(texts[i])
  }

  lemma LinesEndWell(texts: seq<string>)
    requires AllLines(texts)
    ensures AllEndWell(texts)
  {
  }

  function PhaseHead(p: PhaseText): seq<string> {
    ["### " + p.id + " " + p.title, "", "Status: `" + StatusName(p.status) + "`", ""]
  }

  lemma FixedLines(p: PhaseText)
    requires CleanTexts(p)
    ensures AllLines(PhaseHead(p)) && AllLines(["", "Features:"]) && AllLines(["", "Assertions:"]) && AllLines(["", ""])
  {
    FixedTexts();
    HeaderIsLine(p);
    assert PhaseHead(p)[0] == HeaderLine(p) && PhaseHead(p)[2] == StatusLine(StatusName(p.status));
    hide NoBreaks, StatusName, HeaderLine, StatusLine, CleanTexts;
  }

  lemma {:induction false} LinesAreThemselves(texts: seq<string>)
    requires AllLines(texts)
    ensures AllEndWell(texts) && ExplodeAll(texts) == texts
  {
    LinesEndWell(texts);
    ExplodeLines(texts);
  }

  lemma PhaseEndsWell(p: PhaseText)
    requires CleanTexts(p)
    ensures AllEndWell(RenderPhase(p)) && ExplodeAll(RenderPhase(p)) == PhaseLines(p)
  {
    FixedLines(p);
    DescriptionEnds(p.description);
    BulletsEndWell(p);
    hide Explode, ExplodeAll, FeatureBullets, AssertionBullets, StatusName, NoBreaks, CleanTexts, WellEnded, AllLines;
    var b, c, d := ["", "Features:"], ["", "Assertions:"], ["", ""];
    LinesAreThemselves(PhaseHead(p));
    LinesAreThemselves(b);
    LinesAreThemselves(c);
    LinesAreThemselves(d);
    ExplodeOne(p.description);
    ExplodeSeven(PhaseHead(p), [p.description], b, FeatureBullets(p.features), c, AssertionBullets(p.assertions), d);
  }

  lemma {:induction false} ExplodeSeven(a: seq<string>, e: seq<string>, b: seq<string>, f: seq<string>, c: seq<string>, g: seq<string>, d: seq<string>)
    ensures ExplodeAll(a + e + b + f + c + g + d)
            == ExplodeAll(a) + ExplodeAll(e) + ExplodeAll(b) + ExplodeAll(f) + ExplodeAll(c) + ExplodeAll(g) + ExplodeAll(d)
    ensures AllEndWell(a) && AllEndWell(e) && AllEndWell(b) && AllEndWell(f) && AllEndWell(c) && AllEndWell(g) && AllEndWell(d)
            ==> AllEndWell(a + e + b + f + c + g + d)
  {
    hide ExplodeAll, WellEnded;
    ExplodeAppends(a, e);
    ExplodeAppends(a + e, b);
    ExplodeAppends(a + e + b, f);
    ExplodeAppends(a + e + b + f, c);
    ExplodeAppends(a + e + b + f + c, g);
    ExplodeAppends(a + e + b + f + c + g, d);
    AllEndWellAppend(a, e);
    AllEndWellAppend(a + e, b);
    AllEndWellAppend(a + e + b, f);
    AllEndWellAppend(a + e + b + f, c);
    AllEndWellAppend(a + e + b + f + c, g);
    AllEndWellAppend(a + e + b + f + c + g, d);
    hide AllEndWell;
  }

  lemma AllEndWellAppend(a: seq<string>, b: seq<string>)
    ensures AllEndWell(a) && AllEndWell(b) ==> AllEndWell(a + b)
  {
  }

  lemma {:induction false} PhasesEndWell(ps: seq<PhaseText>)
    requires CleanPhases(ps)
    ensures AllEndWell(RenderPhases(ps)) && ExplodeAll(RenderPhases(ps)) == AllPhaseLines(ps)
  {
    if ps != [] {
      PhaseEndsWell(ps[0]);
      PhasesEndWell(ps[1..]);
      hide RenderPhase, PhaseLines, ExplodeAll, AllEndWell;
      ExplodeAppends(RenderPhase(ps[0]), RenderPhases(ps[1..]));
      AllEndWellAppend(RenderPhase(ps[0]), RenderPhases(ps[1..]));
    }
  }

  lemma FrontEndsWell(m: MissionText)
    requires CleanTitle(m.title) && CleanDescription(m.description) && CleanPhases(m.phases)
    ensures AllEndWell(Front(m)) && ExplodeAll(Front(m)) == FileLines(m)
  {
    FixedTexts();
    NoBreaksIn("# ", m.title);
    DescriptionEnds(m.description);
    PhasesEndWell(m.phases);
    var mid := ["", "## Phases", ""];
    assert AllLines(Opening(m)) && AllLines(mid);
    hide Explode, NoBreaks, WellEnded, CleanDescription, CleanPhases, RenderPhases, AllPhaseLines, ExplodeAll;
    LinesEndWell(Opening(m));
    LinesEndWell(mid);
    ExplodeLines(Opening(m));
    ExplodeLines(mid);
    ExplodeOne(m.description);
    ExplodeAppends(Opening(m), [m.description]);
    ExplodeAppends(Opening(m) + [m.description], mid);
    ExplodeAppends(Opening(m) + [m.description] + mid, RenderPhases(m.phases));
    AllEndWellAppend(Opening(m), [m.description]);
    AllEndWellAppend(Opening(m) + [m.description], mid);
    AllEndWellAppend(Opening(m) + [m.description] + mid, RenderPhases(m.phases));
  }

  /** The file splits into the front lines, the constraints header, and something the parser ignores. */
  lemma RenderedLines(m: MissionText) returns (rest: seq<string>)
    requires CleanTitle(m.title) && CleanDescription(m.description) && CleanPhases(m.phases)
    ensures SplitLines(Render(m)) == FileLines(m) + (["## Constraints"] + rest)
  {
    hide Constraints, Notes, Front, FileLines, Terminated, SplitLines, ExplodeAll, WellEnded;
    var after := Constraints() + Notes(m.notes) + [""];
    var tail := ["## Constraints"] + Constraints() + Notes(m.notes) + [""];
    assert tail == ["## Constraints"] + after;
    JoinIsTerminated(Front(m), tail);
    JoinIsTerminated(["## Constraints"], after);
    FrontEndsWell(m);
    TerminatedOne("## Constraints");
    SplitElements(Front(m), Join(tail, "\n"));
    FixedTexts();
    SplitOneLine("## Constraints", Join(after, "\n"));
    rest := SplitLines(Join(after, "\n"));
  }

  lemma {:induction false} TerminatedOne(line: string)
    ensures Terminated([line]) == line + "\n"
  {
    assert [line][1..] == [];
  }

  // ---- the sections -------------------------------------------------------------------------------

  lemma {:induction false} AfterFirst(a: seq<string>, header: string, b: seq<string>)
    requires forall i :: 0 <= i < |a| ==> Strip(a[i]) != header
    requires Strip(header) == header
    ensures AfterHeader(a + [header] + b, header) == b
  {
    var s := a + [header] + b;
    if a == [] {
      assert s[0] == header && s[1..] == b;
    } else {
      assert s[0] == a[0] && s[1..] == a[1..] + [header] + b;
      AfterFirst(a[1..], header, b);
    }
  }

  lemma {:induction false} UntilFirst(a: seq<string>, header: string, b: seq<string>)
    requires forall i :: 0 <= i < |a| ==> !OpensSection(a[i])
    requires OpensSection(header)
    ensures UntilSection(a + [header] + b) == a
  {
    var s := a + [header] + b;
    if a == [] {
      assert s[0] == header;
    } else {
      assert s[0] == a[0] && s[1..] == a[1..] + [header] + b;
      UntilFirst(a[1..], header, b);
      assert a == [a[0]] + a[1..];
    }
  }

  lemma Headers()
    ensures Strip("## Description") == "## Description" && Strip("## Phases") == "## Phases"
    ensures OpensSection("## Phases") && OpensSection("## Constraints") && !OpensSection("")
    ensures Strip("") == "" && "## Description" != "## Phases" && !OpensPhase("")
  {
    StripFixed("## Description");
    StripFixed("## Phases");
    assert "## Description"[3] == 'D' && "## Phases"[3] == 'P' && "### "[2] == '#';
    assert "## Phases"[2] == ' ' && "## Constraints"[2] == ' ';
    assert "## " <= "## Phases" && "## " <= "## Constraints";
  }

  lemma TitleLine(title: string)
    requires CleanTitle(title)
    ensures var line := "# " + title;
            && "# " <= line && line[2..] == title && Strip(line) == line && line[1] == ' '
            && line != "## Description" && line != "## Phases"
  {
    StripFixed(title);
    var line := "# " + title;
    assert line[|line| - 1] == title[|title| - 1] && line[0] == '#';
    StripFixed(line);
    assert "## Description"[1] == '#' && "## Phases"[1] == '#';
  }

  lemma {:induction false} TitleReadsBack(m: MissionText, lines: seq<string>, more: seq<string>)
    requires CleanTitle(m.title) && lines == Opening(m) + more
    ensures TitleOf(lines) == Ok(m.title)
  {
    TitleLine(m.title);
    assert lines[0] == "# " + m.title;
  }

  /** The description section is the description between blank lines. */
  lemma DescriptionSection(m: MissionText, more: seq<string>)
    requires CleanTitle(m.title) && CleanDescription(m.description)
    ensures SectionOf(Opening(m) + Explode(m.description) + ["", "## Phases", ""] + more, "## Description")
            == [""] + Explode(m.description) + [""]
  {
    Headers();
    TitleLine(m.title);
    hide Strip, OpensSection, Explode;
    var lines := Opening(m) + Explode(m.description) + ["", "## Phases", ""] + more;
    var body, rest := [""] + Explode(m.description) + [""], [""] + more;
    assert lines == ["# " + m.title, ""] + ["## Description"] + (body + ["## Phases"] + rest);
    AfterFirst(["# " + m.title, ""], "## Description", body + ["## Phases"] + rest);
    ExplodedOpensNothing(m.description);
    UntilFirst(body, "## Phases", rest);
  }

  lemma ExplodedOpensNothing(text: string)
    requires CleanDescription(text)
    ensures forall i :: 0 <= i < |Explode(text)| ==> !OpensSection(Explode(text)[i])
  {
    Headers();
  }

  lemma ExplodedNamesNoPhases(text: string)
    requires NoPhasesLine(text)
    ensures forall i :: 0 <= i < |Explode(text)| ==> Strip(Explode(text)[i]) != "## Phases"
  {
    Headers();
  }

  lemma PhaseLinesOpenNothing(p: PhaseText)
    requires CleanTexts(p) && QuietPhase(p)
    ensures forall i :: 0 <= i < |PhaseLines(p)| ==> !OpensSection(PhaseLines(p)[i])
    ensures |PhaseLines(p)| > 0 && OpensPhase(PhaseLines(p)[0])
    ensures forall i :: 0 < i < |PhaseLines(p)| ==> !OpensPhase(PhaseLines(p)[i])
  {
    HeaderReadsBack(p);
    PhaseLinesShape(p);
    FrontOpensNothing(p);
    BackOpensNothing(p);
    hide OpensSection, OpensPhase, PhaseLines, HeaderLine, FrontLines, BackLines, CleanTexts, QuietPhase, Strip, HeaderOf;
    var f, b := FrontLines(p), BackLines(p);
    var all := f + b;
    assert forall i :: 0 <= i < |all| ==> !OpensSection(all[i]) && !OpensPhase(all[i]);
    assert PhaseLines(p)[0] == HeaderLine(p) && forall i :: 0 < i < |PhaseLines(p)| ==> PhaseLines(p)[i] == all[i - 1];
  }

  ghost predicate OpenNothing(lines: seq<string>) {
    forall i :: 0 <= i < |lines| ==> !OpensSection(lines[i]) && !OpensPhase(lines[i])
  }

  lemma OpenNothingAppend(a: seq<string>, b: seq<string>)
    requires OpenNothing(a) && OpenNothing(b)
    ensures OpenNothing(a + b)
  {
    hide OpensSection, OpensPhase;
  }

  lemma FrontOpensNothing(p: PhaseText)
    requires CleanTexts(p)
    ensures OpenNothing(FrontLines(p))
  {
    Headers();
    StatusOpensNothing(StatusName(p.status));
    ExplodedIsPlain(p.description);
    MarkersOpenNothing();
    hide OpensSection, OpensPhase, Explode, StatusName, StatusLine, Strip, RStrip, StatusOf, CleanTexts;
    var head := ["", StatusLine(StatusName(p.status)), ""];
    assert OpenNothing(head) && OpenNothing(Explode(p.description)) && OpenNothing(["", "Features:"]);
    OpenNothingAppend(head, Explode(p.description));
    OpenNothingAppend(head + Explode(p.description), ["", "Features:"]);
  }

  lemma BackOpensNothing(p: PhaseText)
    requires QuietPhase(p)
    ensures OpenNothing(BackLines(p))
  {
    Headers();
    MarkersOpenNothing();
    QuietOpensNothing(p);
    hide OpensSection, OpensPhase, FeatureLines, AssertionLines, QuietPhase;
    var f, a := FeatureLines(p.features), AssertionLines(p.assertions);
    assert OpenNothing(f) && OpenNothing(a) && OpenNothing(["", "Assertions:"]) && OpenNothing(["", ""]);
    OpenNothingAppend(f, ["", "Assertions:"]);
    OpenNothingAppend(f + ["", "Assertions:"], a);
    OpenNothingAppend(f + ["", "Assertions:"] + a, ["", ""]);
  }

  lemma QuietOpensNothing(p: PhaseText)
    requires QuietPhase(p)
    ensures forall i :: 0 <= i < |FeatureLines(p.features)| ==>
              !OpensSection(FeatureLines(p.features)[i]) && !OpensPhase(FeatureLines(p.features)[i])
    ensures forall i :: 0 <= i < |AssertionLines(p.assertions)| ==>
              !OpensSection(AssertionLines(p.assertions)[i]) && !OpensPhase(AssertionLines(p.assertions)[i])
  {
    assert forall i :: 0 <= i < |FeatureLines(p.features)| ==> EntryLine(FeatureLines(p.features)[i]);
    assert forall i :: 0 <= i < |AssertionLines(p.assertions)| ==> EntryLine(AssertionLines(p.assertions)[i]);
    hide Strip, StatusOf;
  }

  lemma StatusOpensNothing(name: string)
    ensures !OpensSection(StatusLine(name)) && !OpensPhase(StatusLine(name))
  {
    assert StatusLine(name)[0] == 'S' && "## "[0] == '#' && "### "[0] == '#';
  }

  lemma MarkersOpenNothing()
    ensures !OpensSection("Features:") && !OpensPhase("Features:")
    ensures !OpensSection("Assertions:") && !OpensPhase("Assertions:")
  {
    assert "Features:"[0] == 'F' && "Assertions:"[0] == 'A' && "## "[0] == '#' && "### "[0] == '#';
  }

  lemma {:induction false} AllPhaseLinesOpenNothing(ps: seq<PhaseText>)
    requires CleanPhases(ps) && QuietPhases(ps)
    ensures forall i :: 0 <= i < |AllPhaseLines(ps)| ==> !OpensSection(AllPhaseLines(ps)[i])
    ensures ps != [] ==> |AllPhaseLines(ps)| > 0 && OpensPhase(AllPhaseLines(ps)[0])
  {
    if ps != [] {
      PhaseLinesOpenNothing(ps[0]);
      AllPhaseLinesOpenNothing(ps[1..]);
    }
  }

  lemma SectionBetween(before: seq<string>, body: seq<string>, more: seq<string>)
    requires forall i :: 0 <= i < |before| ==> Strip(before[i]) != "## Phases"
    requires forall i :: 0 <= i < |body| ==> !OpensSection(body[i])
    ensures SectionOf(before + ["## Phases"] + (body + ["## Constraints"] + more), "## Phases") == body
  {
    Headers();
    hide Strip, OpensSection;
    AfterFirst(before, "## Phases", body + ["## Constraints"] + more);
    UntilFirst(body, "## Constraints", more);
  }

  lemma NothingNamesPhases(m: MissionText)
    requires CleanTitle(m.title) && NoPhasesLine(m.description)
    ensures var before := Opening(m) + Explode(m.description) + [""];
            forall i :: 0 <= i < |before| ==> Strip(before[i]) != "## Phases"
  {
    Headers();
    TitleLine(m.title);
    ExplodedNamesNoPhases(m.description);
    hide Strip, Explode;
  }

  lemma PhasesSection(m: MissionText, more: seq<string>)
    requires CleanTitle(m.title) && NoPhasesLine(m.description) && CleanPhases(m.phases) && QuietPhases(m.phases)
    ensures SectionOf(FileLines(m) + (["## Constraints"] + more), "## Phases") == [""] + AllPhaseLines(m.phases)
  {
    NothingNamesPhases(m);
    AllPhaseLinesOpenNothing(m.phases);
    Headers();
    hide Strip, OpensSection, OpensPhase, Explode, AllPhaseLines, NoPhasesLine, CleanPhases, QuietPhases, CleanTitle, Opening, SectionOf;
    var before := Opening(m) + Explode(m.description) + [""];
    var body := [""] + AllPhaseLines(m.phases);
    FileInThree(Opening(m), Explode(m.description), AllPhaseLines(m.phases), more);
    SectionBetween(before, body, more);
  }

  lemma FileInThree(opening: seq<string>, description: seq<string>, phases: seq<string>, more: seq<string>)
    ensures opening + description + ["", "## Phases", ""] + phases + (["## Constraints"] + more)
            == opening + description + [""] + ["## Phases"] + ([""] + phases + ["## Constraints"] + more)
  {
    var mid := ["", "## Phases", ""];
    assert mid == [""] + ["## Phases"] + [""];
  }

  // ---- the blocks -----------------------------------------------------------------------------------

  lemma {:induction false} BlockLengthUntil(a: seq<string>, b: seq<string>)
    requires forall i :: 0 <= i < |a| ==> !OpensPhase(a[i])
    requires b == [] || OpensPhase(b[0])
    ensures BlockLength(a + b) == |a|
  {
    var s := a + b;
    if a == [] {
      assert s == b;
    } else {
      assert s[0] == a[0] && s[1..] == a[1..] + b;
      BlockLengthUntil(a[1..], b);
    }
  }

  function BlocksOf(ps: seq<PhaseText>): seq<seq<string>> {
    seq(|ps|, i requires 0 <= i < |ps| => PhaseLines(ps[i]))
  }

  lemma {:induction false} BlockThenRest(block: seq<string>, rest: seq<string>)
    requires block != [] && OpensPhase(block[0]) && forall i :: 0 < i < |block| ==> !OpensPhase(block[i])
    requires rest == [] || OpensPhase(rest[0])
    ensures Blocks(block + rest) == [block] + Blocks(rest)
  {
    hide OpensPhase;
    var all := block + rest;
    assert all[0] == block[0] && all[1..] == block[1..] + rest;
    BlockLengthUntil(block[1..], rest);
    assert all[..|block|] == block && all[|block|..] == rest;
  }

  lemma {:induction false} FirstPhase(ps: seq<PhaseText>)
    requires ps != [] && CleanPhases(ps) && QuietPhases(ps)
    ensures CleanPhases(ps[1..]) && CleanTexts(ps[0]) && QuietPhases(ps[1..]) && QuietPhase(ps[0])
    ensures AllPhaseLines(ps) == PhaseLines(ps[0]) + AllPhaseLines(ps[1..])
    ensures BlocksOf(ps) == [PhaseLines(ps[0])] + BlocksOf(ps[1..])
  {
    hide PhaseLines, CleanTexts, QuietPhase;
  }

  lemma {:induction false} PhasesSplitIntoBlocks(ps: seq<PhaseText>)
    requires CleanPhases(ps) && QuietPhases(ps)
    ensures Blocks(AllPhaseLines(ps)) == BlocksOf(ps)
  {
    if ps == [] {
      assert BlocksOf(ps) == [] && AllPhaseLines(ps) == [];
    } else {
      hide *;
      FirstPhase(ps);
      PhaseLinesOpenNothing(ps[0]);
      AllPhaseLinesOpenNothing(ps[1..]);
      PhasesSplitIntoBlocks(ps[1..]);
      NothingOrHeader(ps[1..]);
      BlockThenRest(PhaseLines(ps[0]), AllPhaseLines(ps[1..]));
    }
  }

  lemma {:induction false} NothingOrHeader(ps: seq<PhaseText>)
    ensures ps == [] ==> AllPhaseLines(ps) == []
  {
  }

  function ReadPhases(ps: seq<PhaseText>): seq<ParsedPhase> {
    seq(|ps|, i requires 0 <= i < |ps| => ReadPhase(ps[i]))
  }

  lemma SomePhaseLines(p: PhaseText)
    ensures PhaseLines(p) != []
  {
    PhaseLinesShape(p);
  }

  lemma BlocksOfLast(ps: seq<PhaseText>)
    requires ps != []
    ensures BlocksOf(ps) == BlocksOf(ps[..|ps| - 1]) + [PhaseLines(ps[|ps| - 1])]
  {
    hide PhaseLines;
  }

  lemma ReadPhasesOfLast(ps: seq<PhaseText>)
    requires ps != []
    ensures ReadPhases(ps) == ReadPhases(ps[..|ps| - 1]) + [ReadPhase(ps[|ps| - 1])]
  {
    hide ReadPhase;
  }

  lemma LastPhase(ps: seq<PhaseText>)
    requires ps != [] && CleanPhases(ps) && QuietPhases(ps)
    ensures CleanPhases(ps[..|ps| - 1]) && CleanTexts(ps[|ps| - 1])
    ensures QuietPhases(ps[..|ps| - 1]) && QuietPhase(ps[|ps| - 1])
  {
    hide CleanTexts, QuietPhase;
  }

  lemma NoPhasesReadBack()
    ensures ParseBlocks(BlocksOf([])) == Ok(ReadPhases([]))
  {
    assert BlocksOf([]) == [] && ReadPhases([]) == [];
  }

  lemma {:induction false} PhasesReadBack(ps: seq<PhaseText>)
    requires CleanPhases(ps) && QuietPhases(ps)
    ensures SomeLines(BlocksOf(ps)) && ParseBlocks(BlocksOf(ps)) == Ok(ReadPhases(ps))
  {
    BlocksAreNotEmpty(ps);
    hide *;
    if ps == [] {
      NoPhasesReadBack();
    } else {
      LastPhase(ps);
      BlocksOfLast(ps);
      ReadPhasesOfLast(ps);
      SomePhaseLines(ps[|ps| - 1]);
      PhasesReadBack(ps[..|ps| - 1]);
      PhaseReadsBack(ps[|ps| - 1]);
      ParseOneMore(BlocksOf(ps[..|ps| - 1]), PhaseLines(ps[|ps| - 1]));
    }
  }

  lemma BlocksAreNotEmpty(ps: seq<PhaseText>)
    ensures SomeLines(BlocksOf(ps))
  {
    forall i | 0 <= i < |ps| ensures BlocksOf(ps)[i] != [] { PhaseLinesShape(ps[i]); }
  }

  // ---- the theorem --------------------------------------------------------------------------------------

  /** What the parser makes of a mission whose texts are clean, whatever its ids are. */
  function ReadMission(m: MissionText): ParsedMission {
    ParsedMission(m.title, m.description, ReadPhases(m.phases))
  }

  lemma {:induction false} PartsMakeTheWhole(lines: seq<string>, title: string, description: string, blocks: seq<seq<string>>,
                          phases: seq<ParsedPhase>)
    requires TitleOf(lines) == Ok(title) && Join(Trim(SectionOf(lines, "## Description")), "\n") == description
    requires SomeLines(blocks) && Blocks(SectionOf(lines, "## Phases")) == blocks && ParseBlocks(blocks) == Ok(phases)
    ensures ParseLines(lines) == Ok(ParsedMission(title, description, phases))
  {
  }

  lemma FileReadsBack(m: MissionText)
    requires CleanTitle(m.title) && CleanDescription(m.description) && CleanPhases(m.phases) && QuietPhases(m.phases)
    requires NoPhasesLine(m.description)
    ensures Parse(Render(m)) == Ok(ReadMission(m))
  {
    hide *;
    var rest := RenderedLines(m);
    var lines := FileLines(m) + (["## Constraints"] + rest);
    FirstSections(m, rest);
    PhasesSection(m, rest);
    PhasesSplitIntoBlocks(m.phases);
    FirstLineDropped(AllPhaseLines(m.phases));
    BlocksNonEmpty(SectionOf(lines, "## Phases"));
    PhasesReadBack(m.phases);
    PartsMakeTheWhole(lines, m.title, m.description, BlocksOf(m.phases), ReadPhases(m.phases));
    ParseIsOfLines(Render(m));
    ReadMissionIs(m);
  }

  lemma {:induction false} ParseIsOfLines(text: string)
    ensures Parse(text) == ParseLines(SplitLines(text))
  {
  }

  lemma ReadMissionIs(m: MissionText)
    ensures ReadMission(m) == ParsedMission(m.title, m.description, ReadPhases(m.phases))
  {
  }

  /** Title and description of the rendered file. */
  lemma FirstSections(m: MissionText, rest: seq<string>)
    requires CleanTitle(m.title) && CleanDescription(m.description)
    ensures var lines := FileLines(m) + (["## Constraints"] + rest);
            TitleOf(lines) == Ok(m.title) && Join(Trim(SectionOf(lines, "## Description")), "\n") == m.description
  {
    hide Explode, AllPhaseLines, CleanTitle, CleanDescription, SectionOf, Trim, Join, TitleOf, Opening;
    var mid, more := ["", "## Phases", ""], AllPhaseLines(m.phases) + (["## Constraints"] + rest);
    var lines := FileLines(m) + (["## Constraints"] + rest);
    assert lines == Opening(m) + (Explode(m.description) + mid + more);
    TitleReadsBack(m, lines, Explode(m.description) + mid + more);
    assert lines == Opening(m) + Explode(m.description) + mid + more;
    DescriptionSection(m, more);
    DescriptionTrims(m.description);
  }

  lemma DescriptionTrims(text: string)
    requires CleanDescription(text)
    ensures Join(Trim([""] + Explode(text) + [""]), "\n") == text
  {
    TrimExploded([""], text, [""]);
  }

  lemma {:induction false} FirstLineDropped(lines: seq<string>)
    ensures Blocks([""] + lines) == Blocks(lines)
  {
    Headers();
    assert ([""] + lines)[0] == "" && ([""] + lines)[1..] == lines;
  }

  lemma FeatureIdsRead(es: seq<Entry>)
    requires forall i :: 0 <= i < |es| ==> PlainStatus(es[i]) && Inert(FeatureBullet(es[i]), "Feature")
    ensures (forall l :: l in FeatureLines(es) ==> EntryLine(l))
    ensures Dedup(Picked(FeatureLines(es), "Feature")) == Ids(es) <==> CleanIds(es)
  {
    var bullets := FeatureBullets(es);
    NoneIsInert("Feature");
    assert forall i :: 0 <= i < |bullets| ==> Inert(bullets[i], "Feature");
    OnlyFirstsAreRead(bullets, "Feature");
    if es == [] {
      NoneReads("Feature");
    } else {
      forall i | 0 <= i < |es|
        ensures (BulletId(Strip(Firsts(bullets)[i]), "Feature") == Some(es[i].id) <==> CleanId(es[i].id)) && EntryLine(Firsts(bullets)[i])
      {
        FeatureShape(es[i]);
        FirstLineReads(es[i].status, "Feature", es[i].id, FeatureRest(es[i]));
      }
      hide BulletId, Strip, CleanId, EntryLine, Inert, FirstLine, FeatureBullet;
      IdsReadBackIff(Firsts(bullets), "Feature", es);
      FirstsAreEntries(bullets);
    }
  }

  lemma AssertionIdsRead(es: seq<Entry>)
    requires forall i :: 0 <= i < |es| ==> PlainStatus(es[i]) && Inert(AssertionBullet(es[i]), "Assertion")
    ensures (forall l :: l in AssertionLines(es) ==> EntryLine(l))
    ensures Dedup(Picked(AssertionLines(es), "Assertion")) == Ids(es) <==> CleanIds(es)
  {
    var bullets := AssertionBullets(es);
    NoneIsInert("Assertion");
    assert forall i :: 0 <= i < |bullets| ==> Inert(bullets[i], "Assertion");
    OnlyFirstsAreRead(bullets, "Assertion");
    if es == [] {
      NoneReads("Assertion");
    } else {
      forall i | 0 <= i < |es|
        ensures (BulletId(Strip(Firsts(bullets)[i]), "Assertion") == Some(es[i].id) <==> CleanId(es[i].id)) && EntryLine(Firsts(bullets)[i])
      {
        AssertionShape(es[i]);
        FirstLineReads(es[i].status, "Assertion", es[i].id, AssertionRest(es[i]));
      }
      hide BulletId, Strip, CleanId, EntryLine, Inert, FirstLine, AssertionBullet;
      IdsReadBackIff(Firsts(bullets), "Assertion", es);
      FirstsAreEntries(bullets);
    }
  }

  lemma FirstsAreEntries(bullets: seq<string>)
    requires forall i :: 0 <= i < |bullets| ==> EntryLine(Firsts(bullets)[i])
    ensures forall l :: l in Firsts(bullets) ==> EntryLine(l)
  {
    hide EntryLine;
  }

  lemma {:induction false} NoneIsInert(word: string)
    ensures Inert("- None", word) && Firsts(["- None"]) == ["- None"]
  {
    FirstBreakAt("- None", "");
    assert NoBreaks("- None") && "- None" + "" == "- None";
    assert Explode("- None") == ["- None"];
  }

  lemma {:induction false} NoneReads(word: string)
    requires word in {"Feature", "Assertion"}
    ensures Picked(["- None"], word) == [] && EntryLine("- None") && Ids([]) == [] && Dedup<string>([]) == []
  {
    NoneLine();
    assert ["- None"][..0] == [];
  }

  /** Unread texts may take several lines, as long as what a bullet says after its first line is read as nothing. */
  ghost predicate TameEntry(e: Entry, bullet: string, word: string) {
    PlainStatus(e) && (NoBreaks(e.id) ==> Inert(bullet, word))
  }

  ghost predicate TamePhase(p: PhaseText) {
    && (forall i :: 0 <= i < |p.features| ==> TameEntry(p.features[i], FeatureBullet(p.features[i]), "Feature"))
    && (forall i :: 0 <= i < |p.assertions| ==> TameEntry(p.assertions[i], AssertionBullet(p.assertions[i]), "Assertion"))
  }

  ghost predicate Tame(m: MissionText) {
    forall i :: 0 <= i < |m.phases| ==> TamePhase(m.phases[i])
  }

  lemma {:induction false} OneLineIsInert(bullet: string, word: string)
    requires NoBreaks(bullet)
    ensures Inert(bullet, word)
  {
    FirstBreakAt(bullet, "");
    assert bullet + "" == bullet;
  }

  /** Texts on one line are tame, whatever the ids. */
  lemma OneLineIsTame(m: MissionText)
    requires OneLine(m)
    ensures Tame(m)
  {
    forall i | 0 <= i < |m.phases| ensures TamePhase(m.phases[i]) {
      var p := m.phases[i];
      forall k | 0 <= k < |p.features| ensures TameEntry(p.features[k], FeatureBullet(p.features[k]), "Feature") {
        assert OneLineEntry(p.features[k]);
        if NoBreaks(p.features[k].id) { EntryOnOneLine(p.features[k]); OneLineIsInert(FeatureBullet(p.features[k]), "Feature"); }
      }
      forall k | 0 <= k < |p.assertions| ensures TameEntry(p.assertions[k], AssertionBullet(p.assertions[k]), "Assertion") {
        assert OneLineEntry(p.assertions[k]);
        if NoBreaks(p.assertions[k].id) { EntryOnOneLine(p.assertions[k]); OneLineIsInert(AssertionBullet(p.assertions[k]), "Assertion"); }
      }
    }
  }

  lemma EntryOnOneLine(e: Entry)
    requires OneLineEntry(e) && NoBreaks(e.id)
    ensures NoBreaks(FeatureBullet(e)) && NoBreaks(AssertionBullet(e))
  {
    FixedTexts();
    hide NoBreaks;
    NoBreaksIn("- [", e.status);
    NoBreaksIn("- [" + e.status, "] Feature ");
    NoBreaksIn("- [" + e.status + "] Feature ", e.id);
    NoBreaksIn("- [" + e.status + "] Feature " + e.id, ": ");
    NoBreaksIn("- [" + e.status + "] Feature " + e.id + ": ", e.title);
    NoBreaksIn("- [" + e.status + "] Feature " + e.id + ": " + e.title, " (hunger: ");
    NoBreaksIn("- [" + e.status + "] Feature " + e.id + ": " + e.title + " (hunger: ", e.extra);
    NoBreaksIn("- [" + e.status + "] Feature " + e.id + ": " + e.title + " (hunger: " + e.extra, ")");
    NoBreaksIn("- [" + e.status, "] Assertion ");
    NoBreaksIn("- [" + e.status + "] Assertion ", e.id);
    NoBreaksIn("- [" + e.status + "] Assertion " + e.id, ": ");
    NoBreaksIn("- [" + e.status + "] Assertion " + e.id + ": ", e.title);
    NoBreaksIn("- [" + e.status + "] Assertion " + e.id + ": " + e.title, " (");
    NoBreaksIn("- [" + e.status + "] Assertion " + e.id + ": " + e.title + " (", e.extra);
    NoBreaksIn("- [" + e.status + "] Assertion " + e.id + ": " + e.title + " (" + e.extra, ")");
  }

  lemma IdsReadBack(p: PhaseText)
    requires TamePhase(p) && AllLines(Ids(p.features)) && AllLines(Ids(p.assertions))
    ensures QuietPhase(p) && (ReadPhase(p) == ViewPhase(p) <==> CleanIds(p.features) && CleanIds(p.assertions))
  {
    InertPhase(p);
    FeatureIdsRead(p.features);
    AssertionIdsRead(p.assertions);
    hide EntryLine, FeatureLines, AssertionLines, CleanIds, Picked, PlainStatus, Inert, TamePhase, AllLines;
  }

  lemma InertPhase(p: PhaseText)
    requires TamePhase(p) && AllLines(Ids(p.features)) && AllLines(Ids(p.assertions))
    ensures forall i :: 0 <= i < |p.features| ==> PlainStatus(p.features[i]) && Inert(FeatureBullet(p.features[i]), "Feature")
    ensures forall i :: 0 <= i < |p.assertions| ==> PlainStatus(p.assertions[i]) && Inert(AssertionBullet(p.assertions[i]), "Assertion")
  {
    hide NoBreaks, Inert, PlainStatus, FeatureBullet, AssertionBullet;
    forall i | 0 <= i < |p.features|
      ensures PlainStatus(p.features[i]) && Inert(FeatureBullet(p.features[i]), "Feature")
    {
      assert NoBreaks(Ids(p.features)[i]) && TameEntry(p.features[i], FeatureBullet(p.features[i]), "Feature");
    }
    forall i | 0 <= i < |p.assertions|
      ensures PlainStatus(p.assertions[i]) && Inert(AssertionBullet(p.assertions[i]), "Assertion")
    {
      assert NoBreaks(Ids(p.assertions)[i]) && TameEntry(p.assertions[i], AssertionBullet(p.assertions[i]), "Assertion");
    }
  }

  /** Round trip: a mission comes back from its own mirror exactly when it is clean. Features and
      assertions come back as their ids, which is all the parser keeps of them. */
  lemma RoundTripIff(m: MissionText)
    requires Tame(m) && NoPhasesLine(m.description)
    ensures Parse(Render(m)) == Ok(View(m)) <==> Clean(m)
  {
    hide CleanTitle, CleanDescription, CleanWord, CleanPhaseDescription, CleanIds, NoPhasesLine, Parse, Render, ReadPhase,
         ViewPhase, AllLines, TamePhase, QuietPhase, CleanId;
    if Parse(Render(m)) == Ok(View(m)) {
      ParseIsInRange(Render(m));
      forall i | 0 <= i < |m.phases|
        ensures CleanTexts(m.phases[i]) && AllLines(Ids(m.phases[i].features)) && AllLines(Ids(m.phases[i].assertions))
        ensures QuietPhase(m.phases[i])
      {
        RangeOfView(m, i);
        IdsReadBack(m.phases[i]);
      }
      FileReadsBack(m);
      forall i | 0 <= i < |m.phases| ensures CleanIds(m.phases[i].features) && CleanIds(m.phases[i].assertions) {
        assert ReadMission(m).phases[i] == View(m).phases[i];
        IdsReadBack(m.phases[i]);
      }
    }
    if Clean(m) {
      forall i | 0 <= i < |m.phases| ensures QuietPhase(m.phases[i]) && ReadPhase(m.phases[i]) == ViewPhase(m.phases[i]) {
        CleanIdsAreLines(m.phases[i].features);
        CleanIdsAreLines(m.phases[i].assertions);
        IdsReadBack(m.phases[i]);
      }
      assert forall i :: 0 <= i < |m.phases| ==> CleanTexts(m.phases[i]);
      FileReadsBack(m);
      assert ReadMission(m).phases == View(m).phases;
    }
  }

  lemma RangeOfView(m: MissionText, i: nat)
    requires i < |m.phases| && PhaseInRange(View(m).phases[i])
    ensures CleanTexts(m.phases[i]) && AllLines(Ids(m.phases[i].features)) && AllLines(Ids(m.phases[i].assertions))
  {
    assert View(m).phases[i] == ViewPhase(m.phases[i]);
  }

  lemma CleanIdsAreLines(es: seq<Entry>)
    requires CleanIds(es)
    ensures AllLines(Ids(es))
  {
    forall i | 0 <= i < |es| ensures NoBreaks(Ids(es)[i]) {
      assert CleanId(es[i].id);
    }
  }

  /** The ids a phase's bullets are read as, line by line. */
  ghost predicate ReadsItsIds(p: PhaseText) {
    && Dedup(Picked(FeatureLines(p.features), "Feature")) == Ids(p.features)
    && Dedup(Picked(AssertionLines(p.assertions), "Assertion")) == Ids(p.assertions)
  }

  /** The same where titles and other unread texts spell out bullets of their own, as long as they spell no
      status, marker, header or section: the lines of each list then have to be read as its ids. */
  lemma RoundTripByLinesIff(m: MissionText)
    requires QuietPhases(m.phases) && NoPhasesLine(m.description)
    ensures Parse(Render(m)) == Ok(View(m)) <==>
            && CleanTitle(m.title) && CleanDescription(m.description) && CleanPhases(m.phases)
            && forall i :: 0 <= i < |m.phases| ==> ReadsItsIds(m.phases[i])
  {
    hide CleanTitle, CleanDescription, NoPhasesLine, Parse, Render, CleanWord, CleanPhaseDescription, QuietPhases, Picked, FeatureLines,
         AssertionLines, AllLines;
    if Parse(Render(m)) == Ok(View(m)) {
      ParseIsInRange(Render(m));
      forall i | 0 <= i < |m.phases| ensures CleanTexts(m.phases[i]) { RangeOfView(m, i); }
    }
    if CleanTitle(m.title) && CleanDescription(m.description) && CleanPhases(m.phases) {
      FileReadsBack(m);
      forall i | 0 <= i < |m.phases| ensures ReadPhase(m.phases[i]) == ViewPhase(m.phases[i]) <==> ReadsItsIds(m.phases[i]) {}
      assert forall i :: 0 <= i < |m.phases| ==>
        ReadMission(m).phases[i] == ReadPhase(m.phases[i]) && View(m).phases[i] == ViewPhase(m.phases[i]);
      hide ReadPhase, ViewPhase, ReadsItsIds;
      assert ReadMission(m) == View(m) <==> SameList(ReadMission(m).phases, View(m).phases);
    }
  }

  ghost predicate SameList(a: seq<ParsedPhase>, b: seq<ParsedPhase>) {
    |a| == |b| && forall i :: 0 <= i < |a| ==> a[i] == b[i]
  }
}
