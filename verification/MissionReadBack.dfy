// mission.md: what the parser makes of the file the updater wrote.
module MissionReadBack {
  import opened Text
  import opened Domain
  import opened Ordering
  import opened HungerEngine
  import opened MissionMirror
  import opened MissionRoundTrip

  // ---- single lines read back -----------------------------------------------------------------------

  lemma {:induction false} IndexOfFirst(a: string, c: char, b: string)
    requires c !in a
    ensures IndexOf(a + [c] + b, c) == |a|
  {
    var s := a + [c] + b;
    if a == "" {
      assert s[0] == c;
    } else {
      assert s[0] == a[0] && s[1..] == a[1..] + [c] + b;
      IndexOfFirst(a[1..], c, b);
    }
  }

  lemma {:induction false} IndexOfInside(a: string, c: char, b: string)
    requires c in a
    ensures IndexOf(a + b, c) == IndexOf(a, c) < |a| && c !in a[..IndexOf(a, c)]
  {
    var s := a + b;
    assert s[0] == a[0];
    if a[0] != c {
      assert s[1..] == a[1..] + b;
      IndexOfInside(a[1..], c, b);
      var i := IndexOf(a, c);
      assert a[..i] == [a[0]] + a[1..][..i - 1];
    }
  }

  lemma {:induction false} OneSpace(s: string)
    requires s != "" && !IsSpace(s[0])
    ensures LStrip(" " + s) == s && LStrip(s) == s
  {
    assert (" " + s)[1..] == s;
  }

  lemma StripAfterSpace(s: string)
    ensures Strip(" " + s) == Strip(s)
  {
    assert (" " + s)[1..] == s;
  }

  /** What is left of a bullet after the word. */
  function AfterWord(id: string, rest: string): string {
    " " + id + ": " + rest
  }

  function Bullet(status: string, word: string, id: string, rest: string): string {
    "- [" + (status + ("] " + (word + AfterWord(id, rest))))
  }

  function IdAfterWord(x: string): Option<string> {
    var j := IndexOf(x, ':');
    if j == |x| || j < 2 || x == "" || !IsSpace(x[0]) then None else Some(Strip(x[..j]))
  }

  lemma BulletHeadAny(status: string, word: string, x: string)
    requires status != "" && ']' !in status && word != "" && !IsSpace(word[0])
    ensures BulletId("- [" + (status + ("] " + (word + x))), word) == IdAfterWord(x)
  {
    hide Strip, LStrip, IndexOf;
    var line := "- [" + (status + ("] " + (word + x)));
    var inner, tail := "[" + status, " " + (word + x);
    var t := inner + [']'] + tail;
    BulletText(status, word, x);
    assert line[0] == '-' && line[1..] == " " + t && t[0] == '[';
    OneSpace(t);
    IndexOfFirst(inner, ']', tail);
    assert t[|inner| + 1..] == tail && |t| == |inner| + 1 + |tail|;
    OneSpace(word + x);
    assert (word + x)[|word|..] == x && word <= word + x;
  }

  lemma BulletHead(status: string, word: string, id: string, rest: string)
    requires status != "" && ']' !in status && word != "" && !IsSpace(word[0])
    ensures BulletId(Bullet(status, word, id, rest), word) == IdAfterWord(AfterWord(id, rest))
  {
    BulletHeadAny(status, word, AfterWord(id, rest));
  }

  lemma BulletText(status: string, word: string, x: string)
    ensures "- [" + (status + ("] " + (word + x))) == "-" + (" " + (("[" + status) + [']'] + (" " + (word + x))))
  {
  }

  lemma AfterIdAny(id: string, rest: string)
    ensures var r := IdAfterWord(" " + id + [':'] + rest);
            && (':' !in id ==> r == if id == "" then None else Some(Strip(id)))
            && (':' in id ==> r.Some? ==> ':' !in r.value)
  {
    var front := " " + id;
    var x := front + [':'] + rest;
    if ':' !in id {
      IndexOfFirst(front, ':', rest);
      assert x[..|front|] == front;
      StripAfterSpace(id);
    } else {
      assert x == front + ([':'] + rest);
      IndexOfInside(front, ':', [':'] + rest);
      var j := IndexOf(x, ':');
      assert x[..j] == front[..j];
      StripFacts(x[..j]);
    }
  }

  lemma AfterWordId(id: string, rest: string)
    ensures var r := IdAfterWord(AfterWord(id, rest));
            && (':' !in id ==> r == if id == "" then None else Some(Strip(id)))
            && (':' in id ==> r.Some? ==> ':' !in r.value)
  {
    AfterIdAny(id, " " + rest);
    assert AfterWord(id, rest) == " " + id + [':'] + (" " + rest);
  }

  /** The bullet gives its id back exactly when the id is clean. */
  lemma BulletReadsBackIff(status: string, word: string, id: string, rest: string)
    requires status != "" && ']' !in status && word != "" && !IsSpace(word[0]) && NoBreaks(id)
    ensures BulletId(Bullet(status, word, id, rest), word) == Some(id) <==> CleanId(id)
  {
    BulletHead(status, word, id, rest);
    AfterWordId(id, rest);
  }

  /** A line that starts with `-` and ends with `)` is read as it is, and is no marker. */
  lemma DashLine(line: string)
    requires |line| > 1 && line[0] == '-' && !IsSpace(line[|line| - 1])
    ensures Strip(line) == line && StatusOf(line).None? && line !in {"Features:", "Assertions:"}
    ensures !OpensSection(line) && !OpensPhase(line)
  {
    StripFixed(line);
    assert "Status:"[0] == 'S' && "Features:"[0] == 'F' && "Assertions:"[0] == 'A' && "## "[0] == '#' && "### "[0] == '#';
  }

  function FeatureRest(e: Entry): string { e.title + " (hunger: " + e.extra + ")" }
  function AssertionRest(e: Entry): string { e.title + " (" + e.extra + ")" }

  lemma FeatureShape(e: Entry)
    ensures FeatureBullet(e) == Bullet(e.status, "Feature", e.id, FeatureRest(e))
    ensures var b := FeatureBullet(e); |b| > 1 && b[0] == '-' && b[|b| - 1] == ')'
  {
  }

  lemma AssertionShape(e: Entry)
    ensures AssertionBullet(e) == Bullet(e.status, "Assertion", e.id, AssertionRest(e))
    ensures var b := AssertionBullet(e); |b| > 1 && b[0] == '-' && b[|b| - 1] == ')'
  {
  }

  lemma NoneLine()
    ensures Strip("- None") == "- None" && BulletId("- None", "Feature").None? && BulletId("- None", "Assertion").None?
    ensures StatusOf("- None").None? && !OpensSection("- None") && !OpensPhase("- None")
  {
    DashLine("- None");
    assert "- None"[1..] == " " + "None";
    OneSpace("None");
  }

  /** A list entry line: no marker of any kind. */
  ghost predicate EntryLine(line: string) {
    && StatusOf(Strip(line)).None? && Strip(line) !in {"Features:", "Assertions:"}
    && !OpensSection(line) && !OpensPhase(line)
  }

  // ---- the ids of a list -----------------------------------------------------------------------------

  function Picked(lines: seq<string>, word: string): seq<string> {
    if lines == [] then []
    else
      Picked(lines[..|lines| - 1], word)
      + match BulletId(Strip(lines[|lines| - 1]), word) case Some(id) => [id] case None => []
  }

  lemma {:induction false} PickedAll(lines: seq<string>, word: string, ids: seq<string>)
    requires |lines| == |ids|
    ensures |Picked(lines, word)| <= |lines|
    ensures (forall i :: 0 <= i < |lines| ==> BulletId(Strip(lines[i]), word) == Some(ids[i])) <==> Picked(lines, word) == ids
    decreases |lines|
  {
    if lines != [] {
      hide BulletId, Strip;
      var n := |lines| - 1;
      var before := Picked(lines[..n], word);
      PickedAll(lines[..n], word, ids[..n]);
      assert (forall i :: 0 <= i < n ==> BulletId(Strip(lines[i]), word) == Some(ids[i])) <==> before == ids[..n] by {
        assert forall i :: 0 <= i < n ==> lines[..n][i] == lines[i] && ids[..n][i] == ids[i];
      }
      var last := BulletId(Strip(lines[n]), word);
      if last.Some? { SameAppended(before, last.value, ids); }
    }
  }

  lemma SameAppended(a: seq<string>, x: string, s: seq<string>)
    requires s != []
    ensures a + [x] == s <==> a == s[..|s| - 1] && x == s[|s| - 1]
  {
    assert s == s[..|s| - 1] + [s[|s| - 1]];
    if a + [x] == s { assert (a + [x])[..|a|] == a && (a + [x])[|a|] == x; }
  }

  lemma {:induction false} DedupLength<T>(s: seq<T>)
    ensures |Dedup(s)| <= |s|
    ensures |Dedup(s)| == |s| ==> Dedup(s) == s
  {
    if s != [] {
      DedupLength(s[..|s| - 1]);
      assert s == s[..|s| - 1] + [s[|s| - 1]];
    }
  }

  /** The ids come back exactly when each is clean and no two are equal. */
  lemma {:induction false} IdsReadBackIff(lines: seq<string>, word: string, es: seq<Entry>)
    requires |lines| == |es|
    requires forall i :: 0 <= i < |es| ==> (BulletId(Strip(lines[i]), word) == Some(es[i].id) <==> CleanId(es[i].id))
    ensures Dedup(Picked(lines, word)) == Ids(es) <==> CleanIds(es)
  {
    hide BulletId, CleanId, Strip;
    PickedAll(lines, word, Ids(es));
    DedupLength(Picked(lines, word));
    DedupFacts(Picked(lines, word));
    if CleanIds(es) {
      DedupOfDistinct(Ids(es));
    }
  }

  // ---- one phase block ---------------------------------------------------------------------------------

  /** A text as the lines it occupies. */
  function Explode(text: string): seq<string> {
    if text == "" then [""] else SplitLines(text)
  }

  function ExplodeAll(texts: seq<string>): seq<string> {
    if texts == [] then [] else Explode(texts[0]) + ExplodeAll(texts[1..])
  }

  /** The lines a phase's bullets occupy; a title with line breaks takes several. */
  function FeatureLines(es: seq<Entry>): seq<string> { ExplodeAll(FeatureBullets(es)) }
  function AssertionLines(es: seq<Entry>): seq<string> { ExplodeAll(AssertionBullets(es)) }

  function PhaseLines(p: PhaseText): seq<string> {
    ["### " + p.id + " " + p.title, "", "Status: `" + StatusName(p.status) + "`", ""] + Explode(p.description)
    + ["", "Features:"] + FeatureLines(p.features)
    + ["", "Assertions:"] + AssertionLines(p.assertions) + ["", ""]
  }

  /** No line of the bullets is taken for a status, a marker, a header or a section. */
  ghost predicate QuietPhase(p: PhaseText) {
    && (forall l :: l in FeatureLines(p.features) ==> EntryLine(l))
    && (forall l :: l in AssertionLines(p.assertions) ==> EntryLine(l))
  }

  lemma {:induction false} ReadLinesAppend(st: Reading, a: seq<string>, b: seq<string>)
    ensures ReadLines(st, a + b) == ReadLines(ReadLines(st, a), b)
  {
    if b == [] {
      assert a + b == a;
    } else {
      ReadLinesAppend(st, a, b[..|b| - 1]);
      assert (a + b)[..|a + b| - 1] == a + b[..|b| - 1];
    }
  }

  lemma {:induction false} ReadTwo(st: Reading, a: string, b: string)
    ensures ReadLines(st, [a, b]) == ReadLine(ReadLine(st, a), b)
  {
    assert [a, b][..1] == [a] && [a][..0] == [] && [a, b][1] == b;
    assert ReadLines(st, []) == st && ReadLines(st, [a]) == ReadLine(st, a);
  }

  lemma {:induction false} ReadDescription(st: Reading, lines: seq<string>)
    requires st.part == InDescription && forall i :: 0 <= i < |lines| ==> PlainLine(lines[i])
    ensures ReadLines(st, lines) == st.(description := st.description + lines)
  {
    if lines == [] {
      assert st.description + lines == st.description;
    } else {
      var init, last := lines[..|lines| - 1], lines[|lines| - 1];
      ReadDescription(st, init);
      BlankPlainLine(last);
      assert lines == init + [last];
      assert (st.description + init) + [last] == st.description + lines;
    }
  }

  lemma BlankPlainLine(line: string)
    requires PlainLine(line)
    ensures Strip(line) == "" ==> line == ""
  {
    RStripFacts(line);
    StripFacts(line);
  }

  lemma {:induction false} ReadFeatures(st: Reading, lines: seq<string>)
    requires st.part == InFeatures && forall i :: 0 <= i < |lines| ==> EntryLine(lines[i])
    ensures ReadLines(st, lines) == st.(featureIds := st.featureIds + Picked(lines, "Feature"))
  {
    hide BulletId, Strip, StatusOf;
    if lines == [] {
      assert st.featureIds + [] == st.featureIds;
    } else {
      ReadFeatures(st, lines[..|lines| - 1]);
      var ids := Picked(lines[..|lines| - 1], "Feature");
      assert EntryLine(lines[|lines| - 1]);
      assert forall id :: (st.featureIds + ids) + [id] == st.featureIds + (ids + [id]);
      assert st.featureIds + (ids + []) == st.featureIds + ids;
    }
  }

  lemma {:induction false} ReadAssertions(st: Reading, lines: seq<string>)
    requires st.part == InAssertions && forall i :: 0 <= i < |lines| ==> EntryLine(lines[i])
    ensures ReadLines(st, lines) == st.(assertionIds := st.assertionIds + Picked(lines, "Assertion"))
  {
    hide BulletId, Strip, StatusOf;
    if lines == [] {
      assert st.assertionIds + [] == st.assertionIds;
    } else {
      ReadAssertions(st, lines[..|lines| - 1]);
      var ids := Picked(lines[..|lines| - 1], "Assertion");
      assert EntryLine(lines[|lines| - 1]);
      assert forall id :: (st.assertionIds + ids) + [id] == st.assertionIds + (ids + [id]);
      assert st.assertionIds + (ids + []) == st.assertionIds + ids;
    }
  }

  function StatusLine(name: string): string {
    "Status: `" + name + "`"
  }

  lemma StatusReadsBack(name: string)
    requires name != "" && '`' !in name && Strip(name) == name
    ensures Strip(StatusLine(name)) == StatusLine(name) && StatusOf(StatusLine(name)) == Some(name)
  {
    var line := StatusLine(name);
    StripFixed(line);
    var a := "`" + name + "`";
    assert "Status:" <= line && line[7..] == " " + a;
    OneSpace(a);
    assert a[1..] == name + "`" && (name + "`")[..|name|] == name;
  }

  lemma StatusNames(s: PhaseStatus)
    ensures var name := StatusName(s);
            name != "" && '`' !in name && Strip(name) == name && StatusNamed(name) == Some(s) && NoBreaks(name)
  {
    StripFixed(StatusName(s));
  }

  lemma BlankLine()
    ensures Strip("") == "" && StatusOf("").None? && BulletId("", "Feature").None? && BulletId("", "Assertion").None?
  {
  }

  lemma Markers()
    ensures Strip("Features:") == "Features:" && StatusOf("Features:").None?
    ensures Strip("Assertions:") == "Assertions:" && StatusOf("Assertions:").None?
  {
    StripFixed("Features:");
    StripFixed("Assertions:");
    assert "Features:"[0] == 'F' && "Assertions:"[0] == 'A' && "Status:"[0] == 'S';
  }

  /** The text parts the parser and the view share are clean. */
  ghost predicate CleanTexts(p: PhaseText) {
    CleanWord(p.id) && CleanTitle(p.title) && CleanPhaseDescription(p.description)
  }

  function HeaderLine(p: PhaseText): string {
    "### " + p.id + " " + p.title
  }

  lemma HeaderText(id: string, title: string)
    ensures var h, t := "### " + id + " " + title, id + (" " + title);
            h == "### " + t && "###" <= h && h[3..] == " " + t && "### " <= h
  {
  }

  lemma HeaderParses(h: string, id: string, title: string)
    requires "###" <= h && h[3..] == " " + (id + (" " + title)) && CleanWord(id) && CleanTitle(title)
    ensures HeaderOf(h) == Some((id, title))
  {
    var t := id + (" " + title);
    WordIsStripped(id);
    assert t[0] == id[0];
    OneSpace(t);
    WordThenSpace(id, " " + title);
    assert t[|id|..] == " " + title && t[..|id|] == id;
    StripAfterSpace(title);
    hide Strip, LStrip, WordLength;
  }

  lemma HeaderReadsBack(p: PhaseText)
    requires CleanWord(p.id) && CleanTitle(p.title)
    ensures Strip(HeaderLine(p)) == HeaderLine(p) && HeaderOf(HeaderLine(p)) == Some((p.id, p.title))
    ensures OpensPhase(HeaderLine(p)) && !OpensSection(HeaderLine(p))
  {
    var h := HeaderLine(p);
    HeaderText(p.id, p.title);
    StripFixed(p.title);
    assert h[|h| - 1] == p.title[|p.title| - 1] && h[0] == '#';
    StripFixed(h);
    hide Strip, HeaderOf;
    HeaderParses(h, p.id, p.title);
  }

  lemma {:induction false} WordThenSpace(word: string, rest: string)
    requires WordLength(word) == |word| && rest != "" && IsSpace(rest[0])
    ensures WordLength(word + rest) == |word|
  {
    var s := word + rest;
    if word == "" {
      assert s == rest;
    } else {
      assert s[0] == word[0] && s[1..] == word[1..] + rest;
      WordThenSpace(word[1..], rest);
    }
  }

  lemma {:induction false} ExplodedLines(text: string)
    requires Join(SplitLines(text), "\n") == text && Trim(SplitLines(text)) == SplitLines(text)
    ensures AllLines(Explode(text)) && Explode(text) != []
    ensures text != "" ==> Explode(text) == SplitLines(text) && Trimmed(Explode(text))
    ensures Terminated(Explode(text)) == text + "\n"
  {
    SplitLinesAreLines(text);
    TrimFacts(SplitLines(text));
    if text != "" {
      hide SplitLines, Trim;
      LinesEndTerminated(SplitLines(text));
    } else {
      assert Terminated([""]) == "\n";
    }
  }

  lemma {:induction false} LinesEndTerminated(lines: seq<string>)
    requires Join(lines, "\n") != ""
    ensures lines != [] && Terminated(lines) == Join(lines, "\n") + "\n"
  {
    var init, last := lines[..|lines| - 1], lines[|lines| - 1];
    assert lines == init + [last];
    JoinIsTerminated(init, [last]);
    TerminatedAppends(init, [last]);
    assert Terminated([last]) == last + "\n";
  }

  lemma {:induction false} TrimPadded(a: seq<string>, lines: seq<string>, b: seq<string>)
    requires forall i :: 0 <= i < |a| ==> Strip(a[i]) == ""
    requires forall i :: 0 <= i < |b| ==> Strip(b[i]) == ""
    requires lines != [] && Trimmed(lines)
    ensures Trim(a + lines + b) == lines
    decreases |a| + |b|
  {
    var s := a + lines + b;
    if a != [] {
      assert s[0] == a[0] && s[1..] == a[1..] + lines + b;
      TrimPadded(a[1..], lines, b);
    } else if b != [] {
      TrimBackPadded(lines, b);
      assert s == lines + b && s[0] == lines[0];
    } else {
      assert s == lines;
    }
  }

  lemma {:induction false} TrimBackPadded(lines: seq<string>, b: seq<string>)
    requires forall i :: 0 <= i < |b| ==> Strip(b[i]) == ""
    requires lines != [] && Strip(lines[|lines| - 1]) != ""
    ensures TrimBack(lines + b) == lines
    decreases |b|
  {
    var s := lines + b;
    if b == [] {
      assert s == lines;
    } else {
      assert s[|s| - 1] == b[|b| - 1] && s[..|s| - 1] == lines + b[..|b| - 1];
      TrimBackPadded(lines, b[..|b| - 1]);
    }
  }

  lemma {:induction false} TrimBlanks(lines: seq<string>)
    requires forall i :: 0 <= i < |lines| ==> Strip(lines[i]) == ""
    ensures Trim(lines) == []
  {
    if lines != [] { TrimBlanks(lines[1..]); }
  }

  /** A text between blank lines is trimmed back to itself. */
  lemma {:induction false} TrimExploded(a: seq<string>, text: string, b: seq<string>)
    requires Join(SplitLines(text), "\n") == text && Trim(SplitLines(text)) == SplitLines(text)
    requires forall i :: 0 <= i < |a| ==> a[i] == ""
    requires forall i :: 0 <= i < |b| ==> b[i] == ""
    ensures Join(Trim(a + Explode(text) + b), "\n") == text
  {
    ExplodedLines(text);
    StripOfEmpty();
    hide Strip, Trim;
    if text == "" {
      TrimBlanks(a + Explode(text) + b);
    } else {
      TrimPadded(a, Explode(text), b);
    }
  }

  function ReadPhase(p: PhaseText): ParsedPhase {
    ParsedPhase(p.id, p.title, p.status, p.description,
                Dedup(Picked(FeatureLines(p.features), "Feature")),
                Dedup(Picked(AssertionLines(p.assertions), "Assertion")))
  }

  lemma ExplodedIsPlain(text: string)
    requires CleanPhaseDescription(text)
    ensures forall i :: 0 <= i < |Explode(text)| ==> PlainLine(Explode(text)[i])
  {
    EmptyIsPlain();
  }

  lemma ReadFront(p: PhaseText)
    requires CleanTexts(p)
    ensures ReadLines(START, ["", StatusLine(StatusName(p.status)), ""] + Explode(p.description) + ["", "Features:"])
            == Reading(InFeatures, StatusName(p.status), ["", ""] + Explode(p.description) + [""], [], [])
  {
    var name, e := StatusName(p.status), Explode(p.description);
    StatusNames(p.status);
    StatusReadsBack(name);
    BlankLine();
    Markers();
    ExplodedIsPlain(p.description);
    hide Strip, StatusOf, BulletId, StatusName, Explode, PlainLine;
    var head := ["", StatusLine(name), ""];
    assert head == ["", StatusLine(name)] + [""] && [""][..0] == [];
    ReadTwo(START, "", StatusLine(name));
    ReadLinesAppend(START, ["", StatusLine(name)], [""]);
    var st := Reading(InDescription, name, ["", ""], [], []);
    ReadOne(ReadLines(START, ["", StatusLine(name)]), "");
    assert ReadLines(START, head) == st;
    ReadLinesAppend(START, head, e);
    ReadDescription(st, e);
    ReadLinesAppend(START, head + e, ["", "Features:"]);
    ReadTwo(st.(description := ["", ""] + e), "", "Features:");
  }

  lemma {:induction false} ReadOne(st: Reading, line: string)
    ensures ReadLines(st, [line]) == ReadLine(st, line)
  {
    assert [line][..0] == [] && ReadLines(st, []) == st;
  }

  lemma {:induction false} ReadBack(st: Reading, features: seq<string>, assertions: seq<string>)
    requires st.part == InFeatures && st.assertionIds == []
    requires forall i :: 0 <= i < |features| ==> EntryLine(features[i])
    requires forall i :: 0 <= i < |assertions| ==> EntryLine(assertions[i])
    ensures ReadLines(st, features + ["", "Assertions:"] + assertions + ["", ""])
            == st.(part := InAssertions, featureIds := st.featureIds + Picked(features, "Feature"),
                   assertionIds := Picked(assertions, "Assertion"))
  {
    BlankLine();
    Markers();
    hide Strip, StatusOf, BulletId, EntryLine, Picked;
    var a := features + ["", "Assertions:"];
    ReadFeatures(st, features);
    var st1 := ReadLines(st, features);
    ReadLinesAppend(st, features, ["", "Assertions:"]);
    ReadTwo(st1, "", "Assertions:");
    var st2 := st1.(part := InAssertions);
    assert ReadLines(st, a) == st2;
    ReadLinesAppend(st, a, assertions);
    ReadAssertions(st2, assertions);
    var st3 := ReadLines(st2, assertions);
    ReadLinesAppend(st, a + assertions, ["", ""]);
    ReadTwo(st3, "", "");
    assert [] + Picked(assertions, "Assertion") == Picked(assertions, "Assertion");
  }

  function FrontLines(p: PhaseText): seq<string> {
    ["", StatusLine(StatusName(p.status)), ""] + Explode(p.description) + ["", "Features:"]
  }

  function BackLines(p: PhaseText): seq<string> {
    FeatureLines(p.features) + ["", "Assertions:"] + AssertionLines(p.assertions) + ["", ""]
  }

  lemma PhaseLinesShape(p: PhaseText)
    ensures PhaseLines(p) == [HeaderLine(p)] + (FrontLines(p) + BackLines(p))
  {
    hide Explode, FeatureLines, AssertionLines, StatusName;
    assert ["### " + p.id + " " + p.title, "", "Status: `" + StatusName(p.status) + "`", ""]
           == [HeaderLine(p)] + ["", StatusLine(StatusName(p.status)), ""];
  }

  lemma BodyReadsBack(p: PhaseText)
    requires CleanTexts(p) && QuietPhase(p)
    ensures ReadLines(START, FrontLines(p) + BackLines(p))
            == Reading(InAssertions, StatusName(p.status), ["", ""] + Explode(p.description) + [""],
                       Picked(FeatureLines(p.features), "Feature"), Picked(AssertionLines(p.assertions), "Assertion"))
  {
    ReadFront(p);
    assert forall i :: 0 <= i < |FeatureLines(p.features)| ==> EntryLine(FeatureLines(p.features)[i]);
    assert forall i :: 0 <= i < |AssertionLines(p.assertions)| ==> EntryLine(AssertionLines(p.assertions)[i]);
    hide Explode, FeatureLines, AssertionLines, StatusName, EntryLine, Picked, ReadLines, CleanTexts;
    ReadLinesAppend(START, FrontLines(p), BackLines(p));
    var st := Reading(InFeatures, StatusName(p.status), ["", ""] + Explode(p.description) + [""], [], []);
    ReadBack(st, FeatureLines(p.features), AssertionLines(p.assertions));
    assert [] + Picked(FeatureLines(p.features), "Feature") == Picked(FeatureLines(p.features), "Feature");
  }

  lemma PhaseReadsBack(p: PhaseText)
    requires CleanTexts(p) && QuietPhase(p)
    ensures ParseBlock(PhaseLines(p)) == Ok(ReadPhase(p))
  {
    HeaderReadsBack(p);
    StatusNames(p.status);
    TrimExploded(["", ""], p.description, [""]);
    BodyReadsBack(p);
    PhaseLinesShape(p);
    hide Strip, HeaderOf, Explode, Picked, FeatureLines, AssertionLines, StatusName, StatusNamed, Trim, Join,
         ReadLines, PhaseLines, HeaderLine, FrontLines, BackLines, CleanTexts;
    var lines := PhaseLines(p);
    assert lines[0] == HeaderLine(p) && lines[1..] == FrontLines(p) + BackLines(p);
  }

  // ---- bullets of several lines -----------------------------------------------------------------------

  ghost predicate PlainStatus(e: Entry) {
    NoBreaks(e.status) && e.status != "" && ']' !in e.status
  }

  /** The lines of a bullet after its first are read as nothing at all. */
  ghost predicate Inert(bullet: string, word: string) {
    forall j :: 1 <= j < |Explode(bullet)| ==>
      EntryLine(Explode(bullet)[j]) && BulletId(Strip(Explode(bullet)[j]), word).None?
  }

  lemma {:induction false} RStripKeepsFront(a: string, b: string)
    requires a != "" && !IsSpace(a[|a| - 1])
    ensures RStrip(a + b) == a + RStrip(b)
  {
    var s := a + b;
    if b == "" {
      assert s == a;
    } else if IsSpace(b[|b| - 1]) {
      assert s[..|s| - 1] == a + b[..|b| - 1];
      RStripKeepsFront(a, b[..|b| - 1]);
    }
  }

  lemma {:induction false} FirstLineIs(text: string)
    ensures |Explode(text)| > 0 && Explode(text)[0] == text[..FirstBreak(text)] && NoBreaks(Explode(text)[0])
  {
    FirstBreakFacts(text);
    if text != "" && FirstBreak(text) == |text| { assert text[..|text|] == text; }
  }

  lemma {:induction false} BreakIsBeyond(a: string, b: string)
    requires NoBreaks(a)
    ensures FirstBreak(a + b) >= |a|
  {
    var f := FirstBreak(a + b);
    FirstBreakFacts(a + b);
    assert forall i :: 0 <= i < |a| ==> (a + b)[i] == a[i];
  }

  function Head(status: string, word: string, id: string): string {
    "- [" + (status + ("] " + (word + (" " + id + [':']))))
  }

  lemma {:induction false} HeadIsRead(status: string, word: string, id: string, tail: string)
    requires NoBreaks(status) && status != "" && ']' !in status && word in {"Feature", "Assertion"} && NoBreaks(id)
    ensures BulletId(Strip(Head(status, word, id) + tail), word) == IdAfterWord(" " + id + [':'] + RStrip(tail))
  {
    var head, t := Head(status, word, id), RStrip(tail);
    HeadIsLine(status, word, id);
    RStripKeepsFront(head, tail);
    assert LStrip(head + tail) == head + tail;
    assert Strip(head + tail) == head + t;
    HeadThen(status, word, id, t);
    hide Strip, LStrip, RStrip, BulletId, Head;
    BulletHeadAny(status, word, " " + id + [':'] + t);
  }

  lemma HeadReads(status: string, word: string, id: string, tail: string)
    requires NoBreaks(status) && status != "" && ']' !in status && word in {"Feature", "Assertion"} && NoBreaks(id)
    ensures BulletId(Strip(Head(status, word, id) + tail), word) == Some(id) <==> CleanId(id)
  {
    HeadIsRead(status, word, id, tail);
    AfterIdAny(id, RStrip(tail));
    hide Head, BulletId;
  }

  lemma FirstLineIsHead(status: string, word: string, id: string, rest: string) returns (tail: string)
    requires NoBreaks(status) && NoBreaks(id) && word in {"Feature", "Assertion"}
    ensures FirstLine(Bullet(status, word, id, rest)) == Head(status, word, id) + tail
  {
    var bullet, head := Bullet(status, word, id, rest), Head(status, word, id);
    FirstLineIs(bullet);
    hide Explode, Bullet, Head;
    HeadIsLine(status, word, id);
    BulletIsHead(status, word, id, rest);
    BreakIsBeyond(head, " " + rest);
    tail := FirstLine(bullet)[|head|..];
  }

  lemma HeadThen(status: string, word: string, id: string, t: string)
    ensures Head(status, word, id) + t == "- [" + (status + ("] " + (word + (" " + id + [':'] + t))))
  {
  }

  lemma BulletIsHead(status: string, word: string, id: string, rest: string)
    ensures Bullet(status, word, id, rest) == Head(status, word, id) + (" " + rest)
  {
    HeadThen(status, word, id, " " + rest);
    assert AfterWord(id, rest) == " " + id + [':'] + (" " + rest);
    hide Head;
  }

  /** The first line of a bullet gives the id back exactly when the id is clean, wherever the line ends. */
  lemma FirstLineReads(status: string, word: string, id: string, rest: string)
    requires NoBreaks(status) && status != "" && ']' !in status && word in {"Feature", "Assertion"}
    ensures var first := FirstLine(Bullet(status, word, id, rest));
            (BulletId(Strip(first), word) == Some(id) <==> CleanId(id)) && EntryLine(first)
  {
    var bullet := Bullet(status, word, id, rest);
    FirstLineIs(bullet);
    BulletOpens(status, word, id, rest);
    var first := FirstLine(bullet);
    DashFirst(first);
    hide Strip, BulletId, EntryLine, Explode, Bullet, FirstLine, Head;
    if NoBreaks(id) {
      var tail := FirstLineIsHead(status, word, id, rest);
      HeadReads(status, word, id, tail);
    } else {
      StripKeepsLine(first);
      if BulletId(Strip(first), word).Some? { BulletKeepsLine(Strip(first), word); }
    }
  }

  lemma HeadIsLine(status: string, word: string, id: string)
    requires NoBreaks(status) && NoBreaks(id) && word in {"Feature", "Assertion"}
    ensures var head := Head(status, word, id);
            NoBreaks(head) && head != "" && !IsSpace(head[|head| - 1]) && !IsSpace(head[0])
  {
    var head := "- [" + (status + ("] " + (word + (" " + id + [':']))));
    assert head[|head| - 1] == ':';
    assert NoBreaks("- [") && NoBreaks("] ") && NoBreaks(word);
    assert head == "- [" + status + "] " + word + " " + id + ":";
  }

  lemma BulletOpens(status: string, word: string, id: string, rest: string)
    ensures var b := Bullet(status, word, id, rest);
            FirstBreak(b) >= 3 && b[..FirstBreak(b)][..3] == "- ["
  {
    var b := Bullet(status, word, id, rest);
    var more := status + ("] " + (word + AfterWord(id, rest)));
    assert b == "- [" + more;
    assert NoBreaks("- [");
    BreakIsBeyond("- [", more);
    assert b[..3] == "- [";
  }

  lemma DashFirst(line: string)
    requires |line| >= 3 && line[..3] == "- ["
    ensures EntryLine(line)
  {
    assert line[0] == '-';
    StripFacts(line);
    LStripFacts(line);
    RStripFacts(line);
    assert LStrip(line) == line && RStrip(line) <= line && RStrip(line) != "";
    assert Strip(line)[0] == '-';
    assert "Status:"[0] == 'S' && "Features:"[0] == 'F' && "Assertions:"[0] == 'A' && "## "[0] == '#' && "### "[0] == '#';
  }

  lemma {:induction false} PickedAppends(a: seq<string>, b: seq<string>, word: string)
    ensures Picked(a + b, word) == Picked(a, word) + Picked(b, word)
  {
    if b == [] {
      assert a + b == a;
    } else {
      assert (a + b)[..|a + b| - 1] == a + b[..|b| - 1];
      PickedAppends(a, b[..|b| - 1], word);
    }
  }

  lemma {:induction false} PickedNone(lines: seq<string>, word: string)
    requires forall i :: 0 <= i < |lines| ==> BulletId(Strip(lines[i]), word).None?
    ensures Picked(lines, word) == []
  {
    if lines != [] { PickedNone(lines[..|lines| - 1], word); }
  }

  function Firsts(bullets: seq<string>): seq<string> {
    seq(|bullets|, i requires 0 <= i < |bullets| => FirstLine(bullets[i]))
  }

  function FirstLine(bullet: string): string {
    FirstLineIs(bullet);
    Explode(bullet)[0]
  }

  /** Of inert bullets only the first lines are read. */
  lemma {:induction false} OnlyFirstsAreRead(bullets: seq<string>, word: string)
    requires forall i :: 0 <= i < |bullets| ==> Inert(bullets[i], word)
    ensures Picked(ExplodeAll(bullets), word) == Picked(Firsts(bullets), word)
    ensures forall l :: l in ExplodeAll(bullets) ==> EntryLine(l) || l in Firsts(bullets)
  {
    hide BulletId, Strip, EntryLine, Explode;
    if bullets != [] {
      var lines := Explode(bullets[0]);
      FirstLineIs(bullets[0]);
      OnlyFirstsAreRead(bullets[1..], word);
      assert Inert(bullets[0], word);
      assert lines == [lines[0]] + lines[1..];
      PickedNone(lines[1..], word);
      PickedAppends([lines[0]], lines[1..], word);
      PickedAppends(lines, ExplodeAll(bullets[1..]), word);
      assert Firsts(bullets) == [lines[0]] + Firsts(bullets[1..]);
      PickedAppends([lines[0]], Firsts(bullets[1..]), word);
      forall l | l in lines ensures EntryLine(l) || l == lines[0] {
        var j :| 0 <= j < |lines| && lines[j] == l;
      }
    }
  }
}
