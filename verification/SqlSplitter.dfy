// sqlite_migrator._split_sql_statements: the scanner that cuts a migration
// file into statements, proved against a four-state automaton.
module SqlSplitter {
  import opened Text

  datatype Mode = Code | Quoted | LineComment | BlockComment

  /** What the automaton does at the head of the text: how many characters it uses
      up, the next mode, and whether the head joins the buffer or ends a statement. */
  datatype Move = Move(width: nat, next: Mode, keeps: bool, cuts: bool)

  predicate Opens(text: string, c0: char, c1: char) {
    |text| >= 2 && text[0] == c0 && text[1] == c1
  }

  function Next(text: string, mode: Mode): (m: Move)
    requires text != ""
    ensures 1 <= m.width <= |text|
  {
    match mode
    case LineComment => Move(1, if text[0] == '\n' then Code else LineComment, false, false)
    case BlockComment =>
      if Opens(text, '*', '/') then Move(2, Code, false, false) else Move(1, BlockComment, false, false)
    case Quoted => Move(1, if text[0] == '\'' then Code else Quoted, true, false)
    case Code =>
      if Opens(text, '/', '*') then Move(2, BlockComment, false, false)
      else if Opens(text, '-', '-') then Move(2, LineComment, false, false)
      else if text[0] == ';' then Move(1, Code, false, true)
      else Move(1, if text[0] == '\'' then Quoted else Code, true, false)
  }

  /** A finished buffer: stripped, and dropped when nothing is left. */
  function Flush(buf: string): seq<string> {
    if Strip(buf) == "" then [] else [Strip(buf)]
  }

  function Buffer(text: string, m: Move, buf: string): string
    requires text != ""
  {
    if m.cuts then "" else if m.keeps then buf + [text[0]] else buf
  }

  /** Reference scanner. */
  function Lex(text: string, mode: Mode, buf: string): seq<string>
    decreases |text|
  {
    if text == "" then Flush(buf)
    else
      var m := Next(text, mode);
      (if m.cuts then Flush(buf) else []) + Lex(text[m.width..], m.next, Buffer(text, m, buf))
  }

  /** The mode the scanner is in once `text` is used up. */
  function EndMode(text: string, mode: Mode): Mode
    decreases |text|
  {
    if text == "" then mode
    else EndMode(text[Next(text, mode).width..], Next(text, mode).next)
  }

  function SplitSpec(text: string): seq<string> {
    Lex(text, Code, "")
  }

  /** No quoted literal and no comment is left open at the end of `text`. */
  predicate EndsAtTopLevel(text: string) {
    EndMode(text, Code) == Code
  }

  // ---- the index loop of the source ------------------------------------------------

  lemma {:induction false} LexSkipsBlock(text: string, i: nat, end: int, buf: string)
    requires i <= |text|
    requires end >= 0 ==> i <= end && OccursAt(text, "*/", end)
    requires forall k: nat :: i <= k && (end < 0 || k < end) ==> !OccursAt(text, "*/", k)
    ensures Lex(text[i..], BlockComment, buf) ==
            if end < 0 then Flush(buf) else Lex(text[end + 2..], Code, buf)
    decreases |text| - i
  {
    if i < |text| {
      OccursAtPair(text, "*/", i);
      if i == end {
        assert text[i..][2..] == text[i + 2..];
      } else {
        assert text[i..][1..] == text[i + 1..];
        LexSkipsBlock(text, i + 1, end, buf);
      }
    }
  }

  lemma {:induction false} LexSkipsLine(text: string, i: nat, end: int, buf: string)
    requires i <= |text|
    requires end >= 0 ==> i <= end && OccursAt(text, "\n", end)
    requires forall k: nat :: i <= k && (end < 0 || k < end) ==> !OccursAt(text, "\n", k)
    ensures Lex(text[i..], LineComment, buf) ==
            if end < 0 then Flush(buf) else Lex(text[end + 1..], Code, buf)
    decreases |text| - i
  {
    if i < |text| {
      assert text[i..][1..] == text[i + 1..];
      assert text[i] == '\n' <==> OccursAt(text, "\n", i) by { assert text[i..i + 1] == [text[i]]; }
      if i != end { LexSkipsLine(text, i + 1, end, buf); }
    }
  }

  lemma OccursAtPair(text: string, pat: string, i: nat)
    requires i <= |text| && |pat| == 2
    ensures OccursAt(text, pat, i) <==> Opens(text[i..], pat[0], pat[1])
  {
    if i + 2 <= |text| {
      assert text[i..i + 2] == [text[i], text[i + 1]];
    }
  }

  /** One move of the automaton at index `i`, in the terms of the index loop. */
  lemma {:induction false} LexAt(text: string, i: nat, inString: bool, buf: string)
    requires i < |text|
    ensures !inString && OccursAt(text, "/*", i) ==>
              Lex(text[i..], Code, buf) == Lex(text[i + 2..], BlockComment, buf)
    ensures !inString && !OccursAt(text, "/*", i) && OccursAt(text, "--", i) ==>
              Lex(text[i..], Code, buf) == Lex(text[i + 2..], LineComment, buf)
    ensures !inString && !OccursAt(text, "/*", i) && !OccursAt(text, "--", i) ==>
              Lex(text[i..], Code, buf) ==
              if text[i] == ';' then Flush(buf) + Lex(text[i + 1..], Code, "")
              else Lex(text[i + 1..], if text[i] == '\'' then Quoted else Code, buf + [text[i]])
    ensures inString ==>
              Lex(text[i..], Quoted, buf) ==
              Lex(text[i + 1..], if text[i] == '\'' then Code else Quoted, buf + [text[i]])
  {
    OccursAtPair(text, "/*", i);
    OccursAtPair(text, "--", i);
    var rest := text[i..];
    assert rest[0] == text[i] && rest[1..] == text[i + 1..];
    assert |rest| >= 2 ==> rest[2..] == text[i + 2..];
    var m := Next(rest, ModeOf(inString));
    assert [] + Lex(rest[m.width..], m.next, Buffer(rest, m, buf)) == Lex(rest[m.width..], m.next, Buffer(rest, m, buf));
  }

  lemma NewlineIsBeyond(text: string, i: nat, newline: int)
    requires OccursAt(text, "--", i)
    requires newline >= 0 ==> i <= newline && OccursAt(text, "\n", newline)
    ensures newline >= 0 ==> i + 2 <= newline
  {
    assert text[i..i + 2] == [text[i], text[i + 1]];
    assert text[i..i + 1] == [text[i]] && text[i + 1..i + 2] == [text[i + 1]];
  }

  function ModeOf(quoted: bool): Mode { if quoted then Quoted else Code }

  /** The comment branches: where scanning resumes; an unfinished comment takes the rest. */
  method SkipComment(text: string, i: nat, ghost buf: string) returns (next: nat)
    requires OccursAt(text, "/*", i) || OccursAt(text, "--", i)
    ensures i < next <= |text|
    ensures Lex(text[i..], Code, buf) == Lex(text[next..], Code, buf)
  {
    LexAt(text, i, false, buf);
    assert text[|text|..] == "" && Lex("", Code, buf) == Flush(buf);
    if OccursAt(text, "/*", i) {
      var end := Find(text, "*/", i + 2);
      LexSkipsBlock(text, i + 2, end, buf);
      next := if end == -1 then |text| else end + 2;
    } else {
      var newline := Find(text, "\n", i);
      NewlineIsBeyond(text, i, newline);
      LexSkipsLine(text, i + 2, newline, buf);
      next := if newline == -1 then |text| else newline + 1;
    }
  }

  lemma {:induction false} LexOfNothing(text: string, mode: Mode, buf: string)
    requires text == ""
    ensures Lex(text, mode, buf) == Flush(buf)
  {
  }

  /** `_split_sql_statements(text)` */
  method Split(text: string) returns (statements: seq<string>)
    ensures statements == SplitSpec(text)
  {
    hide Lex, Strip;
    statements := [];
    var buf := "";
    var inString := false;
    var i := 0;
    assert text[0..] == text;
    while i < |text|
      invariant 0 <= i <= |text|
      invariant SplitSpec(text) == statements + Lex(text[i..], ModeOf(inString), buf)
    {
      LexAt(text, i, inString, buf);
      ghost var ahead := Lex(text[i..], ModeOf(inString), buf);
      assert SplitSpec(text) == statements + ahead;
      var ch := text[i];
      if !inString && (OccursAt(text, "/*", i) || OccursAt(text, "--", i)) {
        i := SkipComment(text, i, buf);
        assert ahead == Lex(text[i..], ModeOf(inString), buf);
      } else if ch == '\'' {
        inString := !inString;
        buf := buf + [ch];
        i := i + 1;
        assert ahead == Lex(text[i..], ModeOf(inString), buf);
      } else if ch == ';' && !inString {
        assert ahead == Flush(buf) + Lex(text[i + 1..], Code, "");
        assert statements + ahead == (statements + Flush(buf)) + Lex(text[i + 1..], Code, "");
        var stmt := Strip(buf);
        if stmt != "" { statements := statements + [stmt]; }
        buf := "";
        i := i + 1;
      } else {
        buf := buf + [ch];
        i := i + 1;
        assert ahead == Lex(text[i..], ModeOf(inString), buf);
      }
    }
    LexOfNothing(text[|text|..], ModeOf(inString), buf);
    var tail := Strip(buf);
    if tail != "" { statements := statements + [tail]; }
  }

  // ---- what the scanner promises -------------------------------------------------------

  /** Text after a `;` never changes how the scanner reads what precedes it. */
  lemma NextIsLocal(a: string, b: string, mode: Mode)
    requires a != ""
    ensures a + ";" + b != ""
    ensures Next(a + ";" + b, mode) == Next(a, mode)
    ensures (a + ";" + b)[Next(a, mode).width..] == a[Next(a, mode).width..] + ";" + b
    ensures (a + ";" + b)[0] == a[0]
  {
    var whole := a + ";" + b;
    assert whole[0] == a[0];
    assert whole[1] == if |a| >= 2 then a[1] else ';';
  }

  lemma {:induction false} LexStep(text: string, mode: Mode, buf: string)
    requires text != ""
    ensures var m := Next(text, mode);
            Lex(text, mode, buf) ==
            (if m.cuts then Flush(buf) else []) + Lex(text[m.width..], m.next, Buffer(text, m, buf))
    ensures EndMode(text, mode) == EndMode(text[Next(text, mode).width..], Next(text, mode).next)
  {
  }

  lemma {:induction false} LexCuts(b: string, buf: string)
    ensures Lex(";" + b, Code, buf) == Flush(buf) + Lex(b, Code, "")
  {
    var whole := ";" + b;
    assert whole[0] == ';' && whole[1..] == b;
    LexStep(whole, Code, buf);
  }

  lemma {:induction false} LexComposes(a: string, b: string, mode: Mode, buf: string)
    requires EndMode(a, mode) == Code
    ensures Lex(a + ";" + b, mode, buf) == Lex(a, mode, buf) + Lex(b, Code, "")
    decreases |a|
  {
    if a == "" {
      LexCuts(b, buf);
      LexOfNothing(a, Code, buf);
      assert a + ";" + b == ";" + b;
    } else {
      hide Lex, Next, Flush, Strip, EndMode, Buffer;
      var m := Next(a, mode);
      NextIsLocal(a, b, mode);
      SameBuffer(a, a + ";" + b, m, buf);
      LexStep(a, mode, buf);
      LexStep(a + ";" + b, mode, buf);
      LexComposes(a[m.width..], b, m.next, Buffer(a, m, buf));
      Regrouped(if m.cuts then Flush(buf) else [], Lex(a[m.width..], m.next, Buffer(a, m, buf)), Lex(b, Code, ""));
    }
  }

  lemma Regrouped(a: seq<string>, b: seq<string>, c: seq<string>)
    ensures a + (b + c) == a + b + c
  {
  }

  lemma QuotedBuffers(a: string, mode: Mode, buf: string)
    requires a != "" && (mode == Quoted ==> !Blank(buf))
    ensures Next(a, mode).next == Quoted ==> !Blank(Buffer(a, Next(a, mode), buf))
  {
    var next := buf + [a[0]];
    assert next[|buf|] == a[0];
    assert forall i :: 0 <= i < |buf| ==> next[i] == buf[i];
  }

  /** A text left open swallows the `;` and what follows it. */
  lemma {:induction false} LexSwallows(a: string, mode: Mode, buf: string)
    requires EndMode(a, mode) != Code
    requires mode == Quoted ==> !Blank(buf)
    ensures |Lex(a + ";" + "x", mode, buf)| == |Lex(a, mode, buf)|
    decreases |a|
  {
    if a == "" {
      SwallowedTail(mode, buf);
      LexOfNothing(a, mode, buf);
      assert a + ";" + "x" == ";x";
    } else {
      hide Lex, EndMode, Next, Buffer, Flush, Blank;
      var m := Next(a, mode);
      NextIsLocal(a, "x", mode);
      SameBuffer(a, a + ";" + "x", m, buf);
      LexStep(a, mode, buf);
      LexStep(a + ";" + "x", mode, buf);
      QuotedBuffers(a, mode, buf);
      LexSwallows(a[m.width..], m.next, Buffer(a, m, buf));
    }
  }

  lemma SameBuffer(a: string, b: string, m: Move, buf: string)
    requires a != "" && b != "" && a[0] == b[0]
    ensures Buffer(a, m, buf) == Buffer(b, m, buf)
  {
  }

  lemma {:induction false} SwallowedTail(mode: Mode, buf: string)
    requires mode != Code
    requires mode == Quoted ==> !Blank(buf)
    ensures |Lex(";x", mode, buf)| == |Flush(buf)|
  {
    var m := Next(";x", mode);
    var b1 := Buffer(";x", m, buf);
    assert ";x"[1..] == "x";
    assert Lex(";x", mode, buf) == Lex("x", mode, b1);
    var b2 := Buffer("x", Next("x", mode), b1);
    assert Lex("x", mode, b1) == Lex("", mode, b2);
    if mode == Quoted {
      var i :| 0 <= i < |buf| && !IsSpace(buf[i]);
      assert b2[i] == buf[i];
    }
    StripFacts(buf);
    StripFacts(b2);
  }

  lemma SplitOfX()
    ensures SplitSpec("x") == ["x"]
  {
    var m := Next("x", Code);
    assert Lex("x", Code, "") == Lex("x"[1..], Code, Buffer("x", m, ""));
    assert Buffer("x", m, "") == "x" && Strip("x") == "x";
  }

  /** Splitting distributes over `;` after `a` exactly when `a` leaves nothing open. */
  lemma SplitComposes(a: string)
    ensures EndsAtTopLevel(a) <==>
            (forall b :: SplitSpec(a + ";" + b) == SplitSpec(a) + SplitSpec(b))
  {
    if EndsAtTopLevel(a) {
      forall b ensures SplitSpec(a + ";" + b) == SplitSpec(a) + SplitSpec(b) {
        LexComposes(a, b, Code, "");
      }
    } else {
      LexSwallows(a, Code, "");
      SplitOfX();
      assert SplitSpec(a + ";" + "x") != SplitSpec(a) + SplitSpec("x");
    }
  }

  /** Outside quotes: no `;` and no comment opener. Inside quotes anything goes. */
  predicate Plain(s: string, quoted: bool) {
    s == ""
    || (if quoted then Plain(s[1..], s[0] != '\'')
        else !Opens(s, '/', '*') && !Opens(s, '-', '-') && s[0] != ';' && Plain(s[1..], s[0] == '\''))
  }

  lemma {:induction false} PlainIsOneStatement(s: string, quoted: bool, buf: string)
    requires Plain(s, quoted)
    ensures Lex(s, ModeOf(quoted), buf) == Flush(buf + s)
    decreases |s|
  {
    if s == "" {
      assert buf + s == buf;
    } else {
      var m := Next(s, ModeOf(quoted));
      var inside := if quoted then s[0] != '\'' else s[0] == '\'';
      assert m == Move(1, ModeOf(inside), true, false);
      PlainIsOneStatement(s[1..], inside, buf + [s[0]]);
      assert buf + [s[0]] + s[1..] == buf + s;
    }
  }

  function Total(stmts: seq<string>): nat {
    if stmts == [] then 0 else |stmts[0]| + Total(stmts[1..])
  }

  lemma {:induction false} TotalOfFlush(buf: string, rest: seq<string>)
    ensures Total(Flush(buf) + rest) <= |buf| + Total(rest)
  {
    StripFacts(buf);
    if Strip(buf) != "" {
      assert (Flush(buf) + rest)[1..] == rest;
    } else {
      assert Flush(buf) + rest == rest;
    }
  }

  /** No character is duplicated, and one that is not statement text is lost for good. */
  lemma {:induction false} LexKeepsAtMost(s: string, mode: Mode, buf: string)
    ensures Total(Lex(s, mode, buf)) <= |buf| + |s|
    ensures s != "" && mode in {LineComment, BlockComment} ==> Total(Lex(s, mode, buf)) < |buf| + |s|
    ensures mode in {Code, Quoted} && !Plain(s, mode == Quoted) ==> Total(Lex(s, mode, buf)) < |buf| + |s|
    decreases |s|
  {
    TotalOfFlush(buf, []);
    assert Flush(buf) + [] == Flush(buf);
    if s != "" {
      var m := Next(s, mode);
      var rest := Lex(s[m.width..], m.next, Buffer(s, m, buf));
      LexKeepsAtMost(s[m.width..], m.next, Buffer(s, m, buf));
      TotalOfFlush(buf, rest);
      assert [] + rest == rest;
    }
  }

  /** Exactly the texts that come back untouched as one statement. */
  lemma {:induction false} SplitOfOneStatement(s: string)
    ensures SplitSpec(s) == [s] <==> (s != "" && Strip(s) == s && Plain(s, false))
  {
    if Plain(s, false) {
      PlainIsOneStatement(s, false, "");
      assert "" + s == s;
    } else {
      LexKeepsAtMost(s, Code, "");
      assert [s][1..] == [] && Total([s]) == |s|;
    }
  }

  predicate CleanStatement(s: string) {
    s != "" && Strip(s) == s && Plain(s, false) && EndsAtTopLevel(s)
  }

  lemma LeadingNewlineIsDropped(s: string)
    requires CleanStatement(s)
    ensures SplitSpec("\n" + s) == [s] && EndsAtTopLevel("\n" + s)
  {
    var t := "\n" + s;
    assert t[0] == '\n' && t[1..] == s;
    assert Next(t, Code) == Move(1, Code, true, false);
    assert Buffer(t, Next(t, Code), "") == "\n";
    PlainIsOneStatement(s, false, "\n");
    assert Lex(t, Code, "") == Lex(s, Code, "\n");
    StripFixed(s);
    assert LStrip(t) == s;
  }

  lemma {:induction false} JoinSplits(stmts: seq<string>)
    requires |stmts| > 1
    ensures Join(stmts, ";\n") == stmts[0] + ";" + ("\n" + Join(stmts[1..], ";\n"))
  {
    assert stmts[0] + ";\n" == stmts[0] + ";" + "\n";
  }

  lemma {:induction false} CleanFacts(s: string)
    requires CleanStatement(s)
    ensures Lex(s, Code, "") == [s] && EndMode(s, Code) == Code
    ensures Lex("\n" + s, Code, "") == [s] && EndMode("\n" + s, Code) == Code
  {
    SplitOfOneStatement(s);
    LeadingNewlineIsDropped(s);
  }

  lemma {:induction false} SplitIsLex(text: string)
    ensures SplitSpec(text) == Lex(text, Code, "")
  {
  }

  /** Clean statements joined with `;` and a newline split back into themselves,
      whatever semicolons or comment markers their quoted literals hold. */
  lemma {:induction false} SplitUndoesJoin(stmts: seq<string>)
    requires forall i :: 0 <= i < |stmts| ==> CleanStatement(stmts[i])
    ensures SplitSpec(Join(stmts, ";\n")) == stmts
    ensures stmts != [] ==> SplitSpec("\n" + Join(stmts, ";\n")) == stmts
  {
    if |stmts| == 1 {
      CleanFacts(stmts[0]);
    } else if |stmts| > 1 {
      var s, rest := stmts[0], Join(stmts[1..], ";\n");
      JoinSplits(stmts);
      hide *;
      CleanFacts(s);
      SplitUndoesJoin(stmts[1..]);
      var whole := Join(stmts, ";\n");
      assert "\n" + whole == ("\n" + s) + ";" + ("\n" + rest);
      LexComposes(s, "\n" + rest, Code, "");
      LexComposes("\n" + s, "\n" + rest, Code, "");
      SplitIsLex(whole);
      SplitIsLex("\n" + whole);
      SplitIsLex("\n" + rest);
      assert [s] + stmts[1..] == stmts;
    }
  }

  lemma {:induction false} LexOne(text: string, mode: Mode, buf: string, rest: string, b: string, m: Move)
    requires text != "" && Next(text, mode) == m && !m.cuts
    requires text[m.width..] == rest && Buffer(text, m, buf) == b
    ensures Lex(text, mode, buf) == Lex(rest, m.next, b)
  {
    assert [] + Lex(rest, m.next, b) == Lex(rest, m.next, b);
  }

  lemma CommentGoes()
    ensures SplitSpec("a-/**/-b") == ["a--b"]
  {
    hide Lex;
    LexOne("a-/**/-b", Code, "", "-/**/-b", "a", Move(1, Code, true, false));
    LexOne("-/**/-b", Code, "a", "/**/-b", "a-", Move(1, Code, true, false));
    LexOne("/**/-b", Code, "a-", "*/-b", "a-", Move(2, BlockComment, false, false));
    LexOne("*/-b", BlockComment, "a-", "-b", "a-", Move(2, Code, false, false));
    LexOne("-b", Code, "a-", "b", "a--", Move(1, Code, true, false));
    LexOne("b", Code, "a--", "", "a--b", Move(1, Code, true, false));
    LexOfNothing("", Code, "a--b");
    StripFixed("a--b");
  }

  lemma TailGoes()
    ensures SplitSpec("a--b") == ["a"]
  {
    hide Lex;
    LexOne("a--b", Code, "", "--b", "a", Move(1, Code, true, false));
    LexOne("--b", Code, "a", "b", "a", Move(2, LineComment, false, false));
    LexOne("b", LineComment, "a", "", "a", Move(1, LineComment, false, false));
    LexOfNothing("", LineComment, "a");
    StripFixed("a");
  }

  /** Removing a comment leaves nothing in its place: the tokens around it fuse,
      so splitting the output again can cut it (here a new `--` appears). */
  lemma CommentRemovalFusesTokens()
    ensures SplitSpec("a-/**/-b") == ["a--b"]
    ensures SplitSpec("a--b") == ["a"]
  {
    CommentGoes();
    TailGoes();
  }

  // ---- which files split into statements that stay whole ------------------------------------------

  predicate HalvesOpener(a: char, b: char) {
    (a == '-' && b == '-') || (a == '/' && b == '*')
  }

  /** Somewhere in the code of the text comments stand between the two halves of a comment opener: `prev` is the
      character kept last in the statement, and only a removed comment can part it from the other half. */
  predicate Fuses(text: string, mode: Mode, prev: char)
    decreases |text|
  {
    text != ""
    && var m := Next(text, mode);
       (mode == Code && m.keeps && HalvesOpener(prev, text[0]))
       || Fuses(text[m.width..], m.next, if m.cuts then ' ' else if m.keeps then text[0] else prev)
  }

  function Toggled(quoted: bool, c: char): bool {
    if quoted then c != '\'' else c == '\''
  }

  function QuotedAfter(s: string, quoted: bool): bool {
    if s == "" then quoted else QuotedAfter(s[1..], Toggled(quoted, s[0]))
  }

  function LastOf(s: string): char {
    if s == "" then ' ' else s[|s| - 1]
  }

  lemma {:induction false} PlainAppends(s: string, c: char, quoted: bool)
    ensures QuotedAfter(s + [c], quoted) == Toggled(QuotedAfter(s, quoted), c)
    ensures Plain(s + [c], quoted) <==>
            Plain(s, quoted) && (QuotedAfter(s, quoted) || (c != ';' && !HalvesOpener(LastOf(s), c)))
    decreases |s|
  {
    if s == "" {
      assert s + [c] == [c] && [c][1..] == "";
    } else {
      var whole, inside := s + [c], Toggled(quoted, s[0]);
      assert whole[0] == s[0] && whole[1..] == s[1..] + [c];
      PlainAppends(s[1..], c, inside);
      if |s| == 1 { assert s[1..] == "" && whole[1] == c; } else { assert whole[1] == s[1] && LastOf(s[1..]) == LastOf(s); }
    }
  }

  lemma {:induction false} PlainLStrip(s: string)
    ensures Plain(LStrip(s), false) <==> Plain(s, false)
  {
    if s != "" && IsSpace(s[0]) { PlainLStrip(s[1..]); }
  }

  lemma {:induction false} PlainRStrip(s: string)
    ensures Plain(RStrip(s), false) <==> Plain(s, false)
  {
    if s != "" && IsSpace(s[|s| - 1]) {
      var init, c := s[..|s| - 1], s[|s| - 1];
      assert s == init + [c];
      PlainRStrip(init);
      PlainAppends(init, c, false);
    }
  }

  ghost predicate AllPlain(stmts: seq<string>) {
    forall i :: 0 <= i < |stmts| ==> Plain(stmts[i], false)
  }

  lemma {:induction false} PlainFlush(buf: string, rest: seq<string>)
    ensures AllPlain(Flush(buf) + rest) <==> Plain(buf, false) && AllPlain(rest)
  {
    PlainLStrip(buf);
    PlainRStrip(LStrip(buf));
    hide Plain, LStrip, RStrip;
    var all := Flush(buf) + rest;
    if Strip(buf) == "" {
      assert all == rest && Plain("", false) by { NothingIsPlain(); }
    } else {
      assert all == [Strip(buf)] + rest;
      assert all[0] == Strip(buf) && forall i :: 0 <= i < |rest| ==> all[i + 1] == rest[i];
    }
  }

  lemma {:induction false} NothingIsPlain()
    ensures Plain("", false)
  {
  }

  /** The statements scanned from here on are plain exactly when what is buffered is and nothing fuses. */
  lemma {:induction false} PlainLexIff(text: string, mode: Mode, buf: string)
    requires mode == Quoted <==> QuotedAfter(buf, false)
    ensures AllPlain(Lex(text, mode, buf)) <==> Plain(buf, false) && !Fuses(text, mode, LastOf(buf))
    decreases |text|
  {
    if text == "" {
      PlainFlush(buf, []);
      assert Flush(buf) + [] == Flush(buf);
    } else {
      var m := Next(text, mode);
      var b := Buffer(text, m, buf);
      var rest := Lex(text[m.width..], m.next, b);
      LexStep(text, mode, buf);
      PlainAppends(buf, text[0], false);
      assert QuotedAfter("", false) == false && Plain("", false);
      PlainLexIff(text[m.width..], m.next, b);
      PlainFlush(buf, rest);
      assert [] + rest == rest;
      hide Lex, Plain, QuotedAfter;
    }
  }

  lemma {:induction false} LexStripped(text: string, mode: Mode, buf: string)
    ensures forall i :: 0 <= i < |Lex(text, mode, buf)| ==>
              Lex(text, mode, buf)[i] != "" && Strip(Lex(text, mode, buf)[i]) == Lex(text, mode, buf)[i]
    decreases |text|
  {
    StripIdempotent(buf);
    if text != "" {
      var m := Next(text, mode);
      hide Strip;
      LexStep(text, mode, buf);
      LexStripped(text[m.width..], m.next, Buffer(text, m, buf));
    }
  }

  /** Every statement of a file is one statement again when it is split, exactly when no removed comment of the
      file has the halves of a comment opener on its two sides. */
  lemma {:induction false} ResplitsIff(text: string)
    ensures (forall i :: 0 <= i < |SplitSpec(text)| ==> SplitSpec(SplitSpec(text)[i]) == [SplitSpec(text)[i]])
            <==> !Fuses(text, Code, ' ')
  {
    PlainLexIff(text, Code, "");
    LexStripped(text, Code, "");
    var stmts := SplitSpec(text);
    assert stmts == Lex(text, Code, "") && Plain("", false);
    forall i | 0 <= i < |stmts| ensures SplitSpec(stmts[i]) == [stmts[i]] <==> Plain(stmts[i], false) {
      SplitOfOneStatement(stmts[i]);
    }
    hide Lex, Plain, SplitSpec, Fuses;
  }

  /** Text without comments never fuses. */
  lemma {:induction false} PlainNeverFuses(s: string, quoted: bool, prev: char)
    requires Plain(s, quoted) && (!quoted && s != "" ==> !HalvesOpener(prev, s[0]))
    ensures !Fuses(s, ModeOf(quoted), prev)
    decreases |s|
  {
    if s != "" {
      var inside := Toggled(quoted, s[0]);
      assert Next(s, ModeOf(quoted)) == Move(1, ModeOf(inside), true, false);
      PlainNeverFuses(s[1..], inside, s[0]);
    }
  }
}
