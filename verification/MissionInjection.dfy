// mission.md: texts that write the format's own markers, and what the parser makes of them.
module MissionInjection {
  import opened Text
  import opened Domain
  import opened Ordering
  import opened HungerEngine
  import opened MissionMirror
  import opened MissionRoundTrip
  import opened MissionReadBack
  import opened MissionFile

  // ---- a description that opens the phases itself -------------------------------------------------

  function PhasesIn(lines: seq<string>): Result<seq<ParsedPhase>> {
    BlocksNonEmpty(lines);
    ParseBlocks(Blocks(lines))
  }

  /** What the description says after its first line that reads `## Phases`. */
  function HiddenPhases(description: string): seq<string> {
    AfterHeader(SplitLines(description), "## Phases") + [""]
  }

  lemma {:induction false} HeaderInside(a: seq<string>, header: string, b: seq<string>)
    requires exists i :: 0 <= i < |a| && Strip(a[i]) == header
    ensures AfterHeader(a + b, header) == AfterHeader(a, header) + b
  {
    hide Strip;
    var s := a + b;
    assert s[0] == a[0] && s[1..] == a[1..] + b;
    if Strip(a[0]) != header {
      var i :| 0 <= i < |a| && Strip(a[i]) == header;
      assert a[1..][i - 1] == a[i];
      HeaderInside(a[1..], header, b);
    }
  }

  lemma {:induction false} HeaderBehind(a: seq<string>, header: string, b: seq<string>)
    requires forall i :: 0 <= i < |a| ==> Strip(a[i]) != header
    ensures AfterHeader(a + b, header) == AfterHeader(b, header)
  {
    hide Strip;
    if a == [] {
      assert a + b == b;
    } else {
      assert (a + b)[0] == a[0] && (a + b)[1..] == a[1..] + b;
      HeaderBehind(a[1..], header, b);
    }
  }

  lemma {:induction false} AfterHeaderIsTail(lines: seq<string>, header: string)
    ensures forall l :: l in AfterHeader(lines, header) ==> l in lines
  {
    if lines != [] { AfterHeaderIsTail(lines[1..], header); }
  }

  /** The lines of the file down to its own `## Phases`. */
  function HeadLines(m: MissionText): seq<string> {
    Opening(m) + Explode(m.description) + ["", "## Phases"]
  }

  lemma HeadOfFile(m: MissionText) returns (rest: seq<string>)
    requires CleanTitle(m.title) && CleanDescription(m.description)
    ensures SplitLines(Render(m)) == HeadLines(m) + rest
  {
    hide Constraints, Notes, Terminated, SplitLines, RenderPhases, Explode, Join, CleanDescription;
    var mid := ["", "## Phases"];
    var after := [""] + RenderPhases(m.phases) + (["## Constraints"] + Constraints() + Notes(m.notes) + [""]);
    var head := Opening(m) + [m.description] + mid;
    assert Front(m) + (["## Constraints"] + Constraints() + Notes(m.notes) + [""]) == head + after;
    JoinIsTerminated(head, after);
    DescriptionTerminated(m.description);
    TerminatedSplice(Opening(m), m.description, Explode(m.description), mid);
    HeadLinesAreLines(m);
    SplitTerminated(HeadLines(m), Join(after, "\n"));
    rest := SplitLines(Join(after, "\n"));
  }

  lemma DescriptionTerminated(text: string)
    requires CleanDescription(text)
    ensures Terminated(Explode(text)) == text + "\n" && AllLines(Explode(text))
  {
    ExplodedLines(text);
  }

  lemma HeadLinesAreLines(m: MissionText)
    requires CleanTitle(m.title) && AllLines(Explode(m.description))
    ensures AllLines(HeadLines(m))
  {
    hide NoBreaks, Explode;
    FixedTexts();
    NoBreaksIn("# ", m.title);
    assert AllLines(Opening(m)) && AllLines(["", "## Phases"]);
    hide Opening, AllLines;
    AllLinesAppend(Opening(m), Explode(m.description));
    AllLinesAppend(Opening(m) + Explode(m.description), ["", "## Phases"]);
  }

  lemma {:induction false} SectionInside(a: seq<string>, lines: seq<string>, rest: seq<string>)
    requires forall i :: 0 <= i < |a| ==> Strip(a[i]) != "## Phases"
    requires exists i :: 0 <= i < |lines| && Strip(lines[i]) == "## Phases"
    requires var found := AfterHeader(lines, "## Phases") + [""];
             forall i :: 0 <= i < |found| ==> !OpensSection(found[i])
    ensures SectionOf(a + lines + ["", "## Phases"] + rest, "## Phases") == AfterHeader(lines, "## Phases") + [""]
  {
    Headers();
    hide Strip, OpensSection, AfterHeader;
    var after := ["", "## Phases"] + rest;
    assert a + lines + ["", "## Phases"] + rest == a + (lines + after);
    HeaderBehind(a, "## Phases", lines + after);
    HeaderInside(lines, "## Phases", after);
    var tail := AfterHeader(lines, "## Phases");
    assert tail + after == tail + [""] + ["## Phases"] + rest;
    UntilFirst(tail + [""], "## Phases", rest);
  }

  lemma HiddenSection(m: MissionText, rest: seq<string>)
    requires CleanTitle(m.title) && CleanDescription(m.description) && !NoPhasesLine(m.description)
    ensures SectionOf(HeadLines(m) + rest, "## Phases") == HiddenPhases(m.description)
  {
    var lines := SplitLines(m.description);
    assert exists i :: 0 <= i < |lines| && Strip(lines[i]) == "## Phases";
    assert Explode(m.description) == lines;
    HiddenLinesOpenNothing(m.description);
    OpeningNamesNoPhases(m);
    assert HiddenPhases(m.description) == AfterHeader(lines, "## Phases") + [""];
    hide Strip, OpensSection, SplitLines, AfterHeader, HiddenPhases, Explode, Opening, CleanTitle, CleanDescription, NoPhasesLine, SectionOf;
    SectionInside(Opening(m), lines, rest);
  }

  lemma OpeningNamesNoPhases(m: MissionText)
    requires CleanTitle(m.title)
    ensures forall i :: 0 <= i < |Opening(m)| ==> Strip(Opening(m)[i]) != "## Phases"
  {
    Headers();
    TitleLine(m.title);
    hide Strip;
  }

  lemma HiddenLinesOpenNothing(description: string)
    requires CleanDescription(description)
    ensures forall i :: 0 <= i < |HiddenPhases(description)| ==> !OpensSection(HiddenPhases(description)[i])
  {
    Headers();
    var lines := SplitLines(description);
    var tail := AfterHeader(lines, "## Phases");
    AfterHeaderIsTail(lines, "## Phases");
    forall i | 0 <= i < |tail| ensures !OpensSection(tail[i]) {
      assert tail[i] in lines;
      var j :| 0 <= j < |lines| && lines[j] == tail[i];
    }
    hide OpensSection;
  }

  lemma {:induction false} HiddenParts(m: MissionText, rest: seq<string>)
    requires CleanTitle(m.title) && CleanDescription(m.description)
    ensures TitleOf(HeadLines(m) + rest) == Ok(m.title)
    ensures Join(Trim(SectionOf(HeadLines(m) + rest, "## Description")), "\n") == m.description
  {
    hide Explode, CleanTitle, CleanDescription, SectionOf, Trim, Join, TitleOf, Opening;
    var lines, more := HeadLines(m) + rest, Explode(m.description) + ["", "## Phases"] + rest;
    assert lines == Opening(m) + more;
    TitleReadsBack(m, lines, more);
    DescriptionAgain(m, rest);
    DescriptionTrims(m.description);
  }

  lemma DescriptionAgain(m: MissionText, rest: seq<string>)
    requires CleanTitle(m.title) && CleanDescription(m.description)
    ensures SectionOf(HeadLines(m) + rest, "## Description") == [""] + Explode(m.description) + [""]
  {
    Headers();
    TitleLine(m.title);
    ExplodedOpensNothing(m.description);
    hide Strip, OpensSection, Explode;
    var body := [""] + Explode(m.description) + [""];
    assert HeadLines(m) + rest == ["# " + m.title, ""] + ["## Description"] + (body + ["## Phases"] + rest);
    AfterFirst(["# " + m.title, ""], "## Description", body + ["## Phases"] + rest);
    UntilFirst(body, "## Phases", rest);
  }

  /** With such a line in the description the parser takes the phases from there and never looks at the
      mission's own. */
  lemma PhasesComeFromTheDescription(m: MissionText)
    requires CleanTitle(m.title) && CleanDescription(m.description) && !NoPhasesLine(m.description)
    ensures Parse(Render(m)) ==
            match PhasesIn(HiddenPhases(m.description))
            case Ok(phases) => Ok(ParsedMission(m.title, m.description, phases))
            case Err(e) => Err(e)
  {
    hide CleanTitle, CleanDescription, NoPhasesLine, Render, SectionOf, TitleOf, Blocks, ParseBlocks, HeadLines, HiddenPhases, Trim, Join;
    var rest := HeadOfFile(m);
    HiddenSection(m, rest);
    HiddenParts(m, rest);
  }

  /** The round trip of such a mission: exact, whatever the mission's own phases and entries look like. */
  lemma HiddenPhasesIff(m: MissionText)
    requires !NoPhasesLine(m.description)
    ensures Parse(Render(m)) == Ok(View(m)) <==>
            && CleanTitle(m.title) && CleanDescription(m.description)
            && PhasesIn(HiddenPhases(m.description)) == Ok(View(m).phases)
  {
    hide CleanTitle, CleanDescription, NoPhasesLine, Parse, Render, PhasesIn, HiddenPhases;
    if Parse(Render(m)) == Ok(View(m)) { ParseIsInRange(Render(m)); }
    if CleanTitle(m.title) && CleanDescription(m.description) { PhasesComeFromTheDescription(m); }
  }

  /** Round trip, with the descriptions that open the phases themselves: where the description holds no such
      line the mission has to be clean, where it does its phases have to be the mission's. */
  lemma RoundTripExactly(m: MissionText)
    requires Tame(m)
    ensures Parse(Render(m)) == Ok(View(m)) <==>
            if NoPhasesLine(m.description) then Clean(m)
            else CleanTitle(m.title) && CleanDescription(m.description)
                 && PhasesIn(HiddenPhases(m.description)) == Ok(View(m).phases)
  {
    hide *;
    if NoPhasesLine(m.description) { RoundTripIff(m); } else { HiddenPhasesIff(m); }
  }

  // ---- a title that writes a bullet -----------------------------------------------------------------

  /** One entry whose title, across a line break, spells out the end of its own bullet and a second one. */
  function Spelled(a: Entry, b: Entry): Entry {
    a.(title := a.title + " (hunger: " + a.extra + ")" + "\n" + ("- [" + b.status + "] Feature " + b.id + ": " + b.title),
       extra := b.extra)
  }

  lemma SpelledBullet(a: Entry, b: Entry)
    ensures FeatureBullet(Spelled(a, b)) == FeatureBullet(a) + "\n" + FeatureBullet(b)
  {
    var ha, ta := "- [" + a.status + "] Feature " + a.id + ": ", " (hunger: " + a.extra + ")";
    var hb, tb := "- [" + b.status + "] Feature " + b.id + ": ", " (hunger: " + b.extra + ")";
    assert FeatureBullet(a) == ha + a.title + ta && FeatureBullet(b) == hb + b.title + tb;
    assert FeatureBullet(Spelled(a, b)) == ha + (a.title + " (hunger: " + a.extra + ")" + "\n" + (hb + b.title)) + tb;
    assert a.title + " (hunger: " + a.extra + ")" == a.title + ta;
  }

  lemma SamePhaseText(p: PhaseText, a: Entry, b: Entry)
    ensures Terminated(RenderPhase(p.(features := [Spelled(a, b)]))) == Terminated(RenderPhase(p.(features := [a, b])))
  {
    SpelledBullet(a, b);
    hide FeatureBullet, AssertionBullets, StatusName, Terminated;
    var front := ["### " + p.id + " " + p.title, "", "Status: `" + StatusName(p.status) + "`", ""] + [p.description] + ["", "Features:"];
    var back := ["", "Assertions:"] + AssertionBullets(p.assertions) + ["", ""];
    var one, two := [FeatureBullet(Spelled(a, b))], [FeatureBullet(a), FeatureBullet(b)];
    TwoTerminated(FeatureBullet(a), FeatureBullet(b));
    TerminatedSplice(front, FeatureBullet(Spelled(a, b)), two, back);
    assert FeatureBullets([Spelled(a, b)]) == one && FeatureBullets([a, b]) == two;
    assert RenderPhase(p.(features := [Spelled(a, b)])) == front + one + back;
    assert RenderPhase(p.(features := [a, b])) == front + two + back;
  }

  lemma {:induction false} TwoTerminated(x: string, y: string)
    ensures Terminated([x, y]) == x + "\n" + y + "\n"
  {
    assert [x, y][1..] == [y];
    TerminatedOne(y);
    assert Terminated([x, y]) == x + "\n" + (y + "\n");
  }

  /** Two missions, one file: a title with a line break in it smuggles in a feature the mission does not have. */
  lemma TitleBreakAddsAFeature(m: MissionText, p: PhaseText, a: Entry, b: Entry)
    requires Clean(m) && Tame(m) && NoPhasesLine(m.description) && m.phases == [p.(features := [a, b])]
    ensures var spelled := m.(phases := [p.(features := [Spelled(a, b)])]);
            Render(spelled) == Render(m) && Parse(Render(spelled)) == Ok(View(m)) && View(m) != View(spelled)
  {
    var spelled := m.(phases := [p.(features := [Spelled(a, b)])]);
    SamePhaseText(p, a, b);
    RoundTripIff(m);
    SameFile(m, spelled, p.(features := [a, b]), p.(features := [Spelled(a, b)]));
    hide Render, Parse, Clean, Tame;
    assert |View(m).phases[0].featureIds| == 2 && |View(spelled).phases[0].featureIds| == 1;
  }

  lemma SameFile(m: MissionText, n: MissionText, p: PhaseText, q: PhaseText)
    requires m.phases == [p] && n == m.(phases := [q]) && Terminated(RenderPhase(p)) == Terminated(RenderPhase(q))
    ensures Render(m) == Render(n)
  {
    hide RenderPhase, Constraints, Notes, Terminated, Join;
    var head := ["# " + m.title, "", "## Description", ""] + [m.description] + ["", "## Phases", ""];
    var tail := ["## Constraints"] + Constraints() + Notes(m.notes) + [""];
    OnePhase(p);
    OnePhase(q);
    assert Front(m) == head + RenderPhase(p) && Front(n) == head + RenderPhase(q);
    JoinIsTerminated(head + RenderPhase(p), tail);
    JoinIsTerminated(head + RenderPhase(q), tail);
    TerminatedAppends(head, RenderPhase(p));
    TerminatedAppends(head, RenderPhase(q));
  }

  lemma {:induction false} OnePhase(p: PhaseText)
    ensures RenderPhases([p]) == RenderPhase(p)
  {
    hide RenderPhase;
    assert [p][1..] == [];
  }

  // ---- an id that does not come back ------------------------------------------------------------------

  /** A feature id with a colon comes back cut, and the mission with it. */
  lemma ColonIdIsLost(m: MissionText, e: Entry)
    requires Tame(m) && NoPhasesLine(m.description) && |m.phases| > 0 && m.phases[0].features == [e] && e.id == "a:b"
    ensures Parse(Render(m)) != Ok(View(m))
  {
    RoundTripIff(m);
    assert e.id[1] == ':';
    assert Clean(m) ==> CleanIds(m.phases[0].features) && CleanId(m.phases[0].features[0].id);
    hide Parse, Render, CleanTitle, CleanDescription;
  }
}
