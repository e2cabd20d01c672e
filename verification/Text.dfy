// The parts of Python's `str` that the modelled code relies on.
module Text {

  /** `str.isspace` for one character; also what `\s` matches in a `re` pattern. */
  predicate IsSpace(c: char) {
    || '\t' <= c <= '\r' || '\U{1c}' <= c <= ' ' || c == '\U{85}' || c == '\U{a0}'
    || c == '\U{1680}' || '\U{2000}' <= c <= '\U{200a}'
    || c == '\U{2028}' || c == '\U{2029}' || c == '\U{202f}' || c == '\U{205f}' || c == '\U{3000}'
  }

  /** Characters at which `str.splitlines` breaks. */
  predicate IsBreak(c: char) {
    '\n' <= c <= '\r' || '\U{1c}' <= c <= '\U{1e}' || c == '\U{85}' || c == '\U{2028}' || c == '\U{2029}'
  }

  /** The white space below U+0080, one by one, and the characters that are white space and no line break. */
  lemma SpacesAndBreaks(c: char)
    ensures c < '\U{80}' ==>
              (IsSpace(c) <==> c in ['\t', '\n', '\U{b}', '\U{c}', '\r', '\U{1c}', '\U{1d}', '\U{1e}', '\U{1f}', ' '])
    ensures '\U{80}' <= c < '\U{2000}' ==> (IsSpace(c) <==> c in ['\U{85}', '\U{a0}', '\U{1680}'])
    ensures '\U{2000}' <= c ==>
              (IsSpace(c) <==> c < '\U{200b}' || c in ['\U{2028}', '\U{2029}', '\U{202f}', '\U{205f}', '\U{3000}'])
    ensures IsBreak(c) <==> c in ['\n', '\U{b}', '\U{c}', '\r', '\U{1c}', '\U{1d}', '\U{1e}', '\U{85}', '\U{2028}', '\U{2029}']
  {
  }

  predicate Blank(s: string) {
    forall i :: 0 <= i < |s| ==> IsSpace(s[i])
  }

  function LStrip(s: string): string {
    if s != "" && IsSpace(s[0]) then LStrip(s[1..]) else s
  }

  function RStrip(s: string): string {
    if s != "" && IsSpace(s[|s| - 1]) then RStrip(s[..|s| - 1]) else s
  }

  /** `str.strip()` */
  function Strip(s: string): string {
    RStrip(LStrip(s))
  }

  lemma {:induction false} LStripFacts(s: string)
    ensures |LStrip(s)| <= |s| && s[|s| - |LStrip(s)|..] == LStrip(s)
    ensures Blank(s[..|s| - |LStrip(s)|])
    ensures LStrip(s) == "" || !IsSpace(LStrip(s)[0])
  {
    if s != "" && IsSpace(s[0]) {
      LStripFacts(s[1..]);
      var n := |s| - |LStrip(s)|;
      assert s[1..][n - 1..] == s[n..];
      forall i | 0 <= i < n ensures IsSpace(s[..n][i]) {
        if i > 0 { assert s[..n][i] == s[1..][..n - 1][i - 1]; }
      }
    }
  }

  lemma {:induction false} RStripFacts(s: string)
    ensures RStrip(s) <= s
    ensures Blank(s[|RStrip(s)|..])
    ensures RStrip(s) == "" || !IsSpace(RStrip(s)[|RStrip(s)| - 1])
  {
    if s != "" && IsSpace(s[|s| - 1]) {
      RStripFacts(s[..|s| - 1]);
      var n := |RStrip(s)|;
      forall i | 0 <= i < |s| - n ensures IsSpace(s[n..][i]) {
        if n + i < |s| - 1 { assert s[n..][i] == s[..|s| - 1][n..][i]; }
      }
    }
  }

  /** The result neither starts nor ends with white space, and is empty just for blank input. */
  lemma StripFacts(s: string)
    ensures |Strip(s)| <= |s|
    ensures Strip(s) == "" <==> Blank(s)
    ensures Strip(s) != "" ==> !IsSpace(Strip(s)[0]) && !IsSpace(Strip(s)[|Strip(s)| - 1])
    ensures forall c :: c in Strip(s) ==> c in s
  {
    LStripFacts(s);
    RStripFacts(LStrip(s));
    var l, r := LStrip(s), Strip(s);
    var n := |s| - |l|;
    if l != "" {
      assert l[0] == s[n];
      assert !Blank(l) && (l[|r|..] == l ==> Blank(l));
    } else {
      assert s[..n] == s;
    }
  }

  /** Stripping leaves exactly the strings that do not start or end with white space. */
  lemma StripFixed(s: string)
    ensures Strip(s) == s <==> (s == "" || (!IsSpace(s[0]) && !IsSpace(s[|s| - 1])))
  {
    StripFacts(s);
  }

  lemma StripIdempotent(s: string)
    ensures Strip(Strip(s)) == Strip(s)
  {
    StripFacts(s);
    StripFixed(Strip(s));
  }

  /** `sep.join(parts)` */
  function Join(parts: seq<string>, sep: string): (r: string) {
    if parts == [] then ""
    else if |parts| == 1 then parts[0]
    else parts[0] + sep + Join(parts[1..], sep)
  }

  /** Length of the first line, without its break. */
  function FirstBreak(s: string): (i: nat)
    ensures i <= |s|
  {
    if s == "" || IsBreak(s[0]) then 0 else 1 + FirstBreak(s[1..])
  }

  /** `str.splitlines()`: `\r\n` is one break, and a final break opens no further line. */
  function SplitLines(s: string): seq<string> {
    if s == "" then []
    else
      var i := FirstBreak(s);
      if i == |s| then [s]
      else
        var next := if s[i] == '\r' && i + 1 < |s| && s[i + 1] == '\n' then i + 2 else i + 1;
        [s[..i]] + SplitLines(s[next..])
  }

  predicate OccursAt(text: string, pat: string, k: nat) {
    k + |pat| <= |text| && text[k..k + |pat|] == pat
  }

  /** `text.find(pat, from)` */
  method Find(text: string, pat: string, from: nat) returns (at: int)
    ensures -1 <= at
    ensures at >= 0 ==> from <= at && OccursAt(text, pat, at)
    ensures forall k: nat :: from <= k && (at < 0 || k < at) ==> !OccursAt(text, pat, k)
  {
    var k := from;
    while k + |pat| <= |text|
      invariant from <= k
      invariant forall j: nat :: from <= j < k ==> !OccursAt(text, pat, j)
    {
      if OccursAt(text, pat, k) { return k; }
      k := k + 1;
    }
    return -1;
  }

  // ---- lines ----------------------------------------------------------------------------------

  predicate NoBreaks(s: string) {
    forall i :: 0 <= i < |s| ==> !IsBreak(s[i])
  }

  ghost predicate AllLines(lines: seq<string>) {
    forall i :: 0 <= i < |lines| ==> NoBreaks(lines[i])
  }

  /** Every line followed by a newline. */
  function Terminated(lines: seq<string>): string {
    if lines == [] then "" else lines[0] + "\n" + Terminated(lines[1..])
  }

  lemma {:induction false} TerminatedAppends(a: seq<string>, b: seq<string>)
    ensures Terminated(a + b) == Terminated(a) + Terminated(b)
  {
    if a == [] {
      assert a + b == b;
    } else {
      TerminatedAppends(a[1..], b);
      assert (a + b)[1..] == a[1..] + b;
    }
  }

  lemma {:induction false} JoinIsTerminated(a: seq<string>, b: seq<string>)
    requires b != []
    ensures Join(a + b, "\n") == Terminated(a) + Join(b, "\n")
  {
    if a == [] {
      assert a + b == b;
    } else {
      var s := a + b;
      JoinIsTerminated(a[1..], b);
      assert s[0] == a[0] && s[1..] == a[1..] + b && |s| > 1;
      assert Join(s, "\n") == s[0] + "\n" + Join(s[1..], "\n");
    }
  }

  lemma {:induction false} FirstBreakFacts(s: string)
    ensures NoBreaks(s[..FirstBreak(s)])
    ensures FirstBreak(s) < |s| ==> IsBreak(s[FirstBreak(s)])
  {
    if s != "" && !IsBreak(s[0]) {
      FirstBreakFacts(s[1..]);
      var i := FirstBreak(s);
      assert s[..i] == [s[0]] + s[1..][..i - 1];
    }
  }

  lemma {:induction false} FirstBreakAt(line: string, rest: string)
    requires NoBreaks(line) && (rest != "" ==> IsBreak(rest[0]))
    ensures FirstBreak(line + rest) == |line|
  {
    if line == "" {
      assert line + rest == rest;
    } else {
      assert (line + rest)[0] == line[0] && (line + rest)[1..] == line[1..] + rest;
      FirstBreakAt(line[1..], rest);
    }
  }

  lemma {:induction false} SplitOneLine(line: string, rest: string)
    requires NoBreaks(line)
    ensures SplitLines(line + "\n" + rest) == [line] + SplitLines(rest)
  {
    var s := line + "\n" + rest;
    assert s == line + ("\n" + rest);
    FirstBreakAt(line, "\n" + rest);
    assert s[..|line|] == line && s[|line|] == '\n' && s[|line| + 1..] == rest;
  }

  lemma {:induction false} SplitTerminated(lines: seq<string>, rest: string)
    requires AllLines(lines)
    ensures SplitLines(Terminated(lines) + rest) == lines + SplitLines(rest)
  {
    hide SplitLines, IsBreak;
    if lines == [] {
      assert Terminated(lines) + rest == rest;
    } else {
      var more := Terminated(lines[1..]) + rest;
      assert Terminated(lines) + rest == lines[0] + "\n" + more;
      SplitOneLine(lines[0], more);
      SplitTerminated(lines[1..], rest);
      assert lines == [lines[0]] + lines[1..];
    }
  }

  lemma {:induction false} SplitLinesAreLines(s: string)
    ensures AllLines(SplitLines(s))
    decreases |s|
  {
    if s != "" {
      var i := FirstBreak(s);
      FirstBreakFacts(s);
      if i == |s| {
        assert s[..i] == s;
      } else {
        var next := if s[i] == '\r' && i + 1 < |s| && s[i + 1] == '\n' then i + 2 else i + 1;
        SplitLinesAreLines(s[next..]);
      }
    }
  }

  /** Lines without breaks, the last not empty, survive joining and splitting. */
  lemma {:induction false} SplitOfJoin(lines: seq<string>)
    requires AllLines(lines) && (lines != [] ==> lines[|lines| - 1] != "")
    ensures SplitLines(Join(lines, "\n")) == lines
  {
    if lines != [] {
      var init, last := lines[..|lines| - 1], lines[|lines| - 1];
      assert lines == init + [last];
      JoinIsTerminated(init, [last]);
      SplitTerminated(init, last);
      FirstBreakAt(last, "");
      assert last + "" == last && SplitLines(last) == [last];
    }
  }
}
