// The loader's regular expressions as patterns, and the hand-written readers that match them.
module MissionPatterns {
  import opened Text
  import opened Domain
  import opened MissionMirror
  import opened MissionReadBack
  import MissionRoundTrip

  // ---- white space ------------------------------------------------------------------------------

  lemma {:induction false} LStripSkips(w: string, s: string)
    requires Blank(w)
    ensures LStrip(w + s) == LStrip(s)
  {
    if w == "" {
      assert w + s == s;
    } else {
      assert (w + s)[0] == w[0] && (w + s)[1..] == w[1..] + s;
      LStripSkips(w[1..], s);
    }
  }

  lemma {:induction false} LStripStops(s: string, t: string)
    requires !Blank(s)
    ensures LStrip(s + t) == LStrip(s) + t && LStrip(s) != "" && !IsSpace(LStrip(s)[0])
  {
    if IsSpace(s[0]) {
      assert (s + t)[0] == s[0] && (s + t)[1..] == s[1..] + t;
      LStripStops(s[1..], t);
    }
  }

  lemma {:induction false} LStripOfBlank(s: string)
    requires Blank(s)
    ensures LStrip(s) == ""
  {
    LStripSkips(s, "");
    assert s + "" == s;
  }

  lemma {:induction false} StripSkips(w: string, s: string)
    requires Blank(w)
    ensures Strip(w + s) == Strip(s) && Strip(LStrip(s)) == Strip(s)
  {
    LStripSkips(w, s);
    LStripFacts(s);
  }

  // ---- Status -------------------------------------------------------------------------------------

  /** `^Status:\s*`?([^`]+?)`?\s*$`, with the five parts spelled out. */
  ghost predicate StatusPattern(line: string, w1: string, t1: string, body: string, t2: string, w2: string) {
    && Blank(w1) && t1 in {"", "`"} && body != "" && '`' !in body && t2 in {"", "`"} && Blank(w2)
    && line == "Status:" + (w1 + (t1 + (body + (t2 + w2))))
  }

  lemma StatusTail(line: string, w1: string, t1: string, body: string, t2: string, w2: string)
    requires StatusPattern(line, w1, t1, body, t2, w2) && Strip(line) == line
    ensures w2 == "" && (t2 == "" ==> !IsSpace(body[|body| - 1]))
    ensures "Status:" <= line && line[7..] == w1 + (t1 + (body + t2))
  {
    StripFixed(line);
    var last := line[|line| - 1];
    assert t2 + "" == t2;
    assert w2 == "" && t2 == "" ==> last == body[|body| - 1];
  }

  lemma Ticked(body: string, t2: string, spaced: bool)
    requires body != "" && '`' !in body && t2 in {"", "`"}
    ensures StatusFrom("`" + (body + t2), spaced) == Some(Strip(body))
  {
    var a := "`" + (body + t2);
    assert a[1..] == body + t2 && (body + t2)[..|body|] == body && body + "" == body;
    assert body[|body| - 1] in body;
    hide Strip;
  }

  lemma Unticked(body: string, t2: string, spaced: bool)
    requires body != "" && !IsSpace(body[0]) && '`' !in body && t2 in {"", "`"}
    ensures StatusFrom(body + t2, spaced) == Some(Strip(body))
  {
    var a := body + t2;
    assert a[0] == body[0] && body[0] in body && a[..|body|] == body && body + "" == body;
    assert body[|body| - 1] in body;
    hide Strip;
  }

  lemma {:induction false} StrippedHasNoTick(body: string)
    requires '`' !in body
    ensures '`' !in LStrip(body)
  {
    LStripFacts(body);
    var l := LStrip(body);
    assert forall i :: 0 <= i < |l| ==> l[i] == body[|body| - |l| + i];
  }

  /** However the pattern matches a stripped line, the reader returns what it captures, stripped. */
  lemma StatusReaderIsThePattern(line: string, w1: string, t1: string, body: string, t2: string, w2: string)
    requires StatusPattern(line, w1, t1, body, t2, w2) && Strip(line) == line
    ensures StatusOf(line) == Some(Strip(body))
  {
    StatusTail(line, w1, t1, body, t2, w2);
    LStripSkips(w1, t1 + (body + t2));
    StripSkips("", body);
    assert "" + body == body;
    if t1 == "`" {
      OneMark(body + t2);
      hide StatusFrom, Strip;
      Ticked(body, t2, |LStrip(line[7..])| < |line| - 7);
    } else {
      assert t1 + (body + t2) == body + t2;
      if Blank(body) {
        LStripSkips(body, t2);
        StripFacts(body);
        OneMark("");
        assert "`" + "" == "`" && t2 == "`";
        hide Strip;
      } else {
        LStripStops(body, t2);
        StrippedHasNoTick(body);
        hide StatusFrom, Strip;
        Unticked(LStrip(body), t2, |LStrip(line[7..])| < |line| - 7);
      }
    }
  }

  lemma {:induction false} OneMark(s: string)
    ensures LStrip("`" + s) == "`" + s
  {
  }

  /** The leading white space as a string. */
  lemma LStripSplit(s: string) returns (w: string)
    ensures Blank(w) && s == w + LStrip(s) && (LStrip(s) == "" || !IsSpace(LStrip(s)[0]))
  {
    LStripFacts(s);
    w := s[..|s| - |LStrip(s)|];
  }

  lemma StatusFromMatches(a: string, spaced: bool) returns (t1: string, c: string, t2: string)
    requires a != "`" && StatusFrom(a, spaced).Some?
    ensures t1 in {"", "`"} && t2 in {"", "`"} && c != "" && '`' !in c && a == t1 + (c + t2)
  {
    hide Strip;
    t1 := if a[0] == '`' then "`" else "";
    var b := if a[0] == '`' then a[1..] else a;
    t2 := if b[|b| - 1] == '`' then "`" else "";
    c := if b[|b| - 1] == '`' then b[..|b| - 1] else b;
    assert a == t1 + b && b == c + t2;
  }

  /** And the reader returns nothing the pattern does not match. */
  lemma StatusReaderMatches(line: string) returns (w1: string, t1: string, body: string, t2: string)
    requires StatusOf(line).Some?
    ensures StatusPattern(line, w1, t1, body, t2, "")
  {
    var r := line[7..];
    assert line == "Status:" + r;
    w1 := LStripSplit(r);
    var a := LStrip(r);
    if a == "`" {
      w1, t1, body, t2 := "", "", w1, "`";
      assert "" + ("" + (body + ("`" + ""))) == r;
    } else {
      hide LStrip;
      t1, body, t2 := StatusFromMatches(a, |a| < |line| - 7);
      assert t2 + "" == t2;
    }
  }

  // ---- bullets ------------------------------------------------------------------------------------

  /** `^-\s+\[[^\]]+\]\s+<word>\s+([^:]+):`, with its parts spelled out. */
  ghost predicate BulletPattern(line: string, word: string, w1: string, status: string, w2: string, w3: string,
                                body: string, rest: string)
  {
    && Blank(w1) && w1 != "" && status != "" && ']' !in status && Blank(w2) && w2 != "" && Blank(w3) && w3 != ""
    && body != "" && ':' !in body
    && line == "-" + (w1 + (("[" + status) + [']'] + (w2 + (word + ((w3 + body) + [':'] + rest)))))
  }

  lemma BlankHasNoColon(w: string)
    requires Blank(w)
    ensures ':' !in w
  {
  }

  lemma BulletReaderIsThePattern(line: string, word: string, w1: string, status: string, w2: string, w3: string,
                                 body: string, rest: string)
    requires BulletPattern(line, word, w1, status, w2, w3, body, rest) && word != "" && !IsSpace(word[0])
    ensures BulletId(line, word) == Some(Strip(body))
  {
    var x := (w3 + body) + [':'] + rest;
    var inner, tail := "[" + status, w2 + (word + x);
    var t := inner + [']'] + tail;
    assert line == "-" + (w1 + t);
    assert line[0] == '-' && line[1..] == w1 + t && t[0] == '[' && (word + x)[0] == word[0];
    LStripSkips(w1, t);
    LStripSkips(w2, word + x);
    IndexOfFirst(inner, ']', tail);
    BlankHasNoColon(w3);
    IndexOfFirst(w3 + body, ':', rest);
    StripSkips(w3, body);
    hide Strip, IndexOf;
    assert t[|inner| + 1..] == tail && (word + x)[|word|..] == x && x[..|w3 + body|] == w3 + body && x[0] == w3[0];
    assert LStrip(t) == t && LStrip(word + x) == word + x;
  }

  lemma {:induction false} IndexOfFacts(s: string, c: char)
    ensures c !in s[..IndexOf(s, c)] && (IndexOf(s, c) < |s| ==> s[IndexOf(s, c)] == c)
  {
    if s != "" && s[0] != c {
      IndexOfFacts(s[1..], c);
      var i := IndexOf(s, c);
      assert s[..i] == [s[0]] + s[1..][..i - 1];
    }
  }

  lemma IndexSplit(s: string, c: char) returns (before: string, after: string)
    requires IndexOf(s, c) < |s|
    ensures s == before + [c] + after && c !in before && |before| == IndexOf(s, c)
  {
    IndexOfFacts(s, c);
    before, after := s[..IndexOf(s, c)], s[IndexOf(s, c) + 1..];
  }

  lemma HeadSplit(s: string) returns (head: string, tail: string)
    requires s != ""
    ensures s == head + tail && |head| == 1 && head[0] == s[0] && forall c :: c in tail ==> c in s
  {
    head, tail := s[..1], s[1..];
    forall c | c in tail ensures c in s {
      var i :| 0 <= i < |tail| && tail[i] == c;
      assert s[i + 1] == c;
    }
  }

  lemma BulletReaderMatches(line: string, word: string)
    returns (w1: string, status: string, w2: string, w3: string, body: string, rest: string)
    requires BulletId(line, word).Some?
    ensures BulletPattern(line, word, w1, status, w2, w3, body, rest)
  {
    hide Strip, IndexOf;
    assert line == "-" + line[1..];
    w1 := LStripSplit(line[1..]);
    var t := LStrip(line[1..]);
    var inner, u := IndexSplit(t, ']');
    assert t[|inner| + 1..] == u && inner[0] == t[0];
    var open;
    open, status := HeadSplit(inner);
    assert open == "[" && ']' !in status;
    w2 := LStripSplit(u);
    var v := LStrip(u);
    var x := v[|word|..];
    assert v == word + x;
    var front;
    front, rest := IndexSplit(x, ':');
    assert front[0] == x[0];
    w3, body := HeadSplit(front);
    assert ':' !in body;
    hide LStrip, BulletId;
    assert line == "-" + (w1 + (inner + [']'] + (w2 + (word + (front + [':'] + rest)))));
  }

  // ---- phase headers ----------------------------------------------------------------------------------

  /** `^###\s+(\S+)(?:\s+(.*))?$`; `more` is what follows the id: nothing, or white space and a title. */
  ghost predicate HeaderPattern(line: string, w1: string, id: string, w2: string, title: string) {
    && Blank(w1) && w1 != "" && id != "" && WordLength(id) == |id| && Blank(w2) && (w2 == "" ==> title == "")
    && line == "###" + (w1 + (id + (w2 + title)))
  }

  lemma {:induction false} WordStops(word: string, rest: string)
    requires WordLength(word) == |word| && (rest == "" || IsSpace(rest[0]))
    ensures WordLength(word + rest) == |word|
  {
    var s := word + rest;
    if word == "" {
      assert s == rest;
    } else {
      assert s[0] == word[0] && s[1..] == word[1..] + rest;
      WordStops(word[1..], rest);
    }
  }

  lemma HeaderReaderIsThePattern(line: string, w1: string, id: string, w2: string, title: string)
    requires HeaderPattern(line, w1, id, w2, title)
    ensures HeaderOf(line) == Some((id, if Strip(title) == "" then id else Strip(title)))
  {
    var t := id + (w2 + title);
    assert "###" <= line && line[3..] == w1 + t && t[0] == id[0];
    LStripSkips(w1, t);
    assert w2 + title != "" ==> w2 != "" && (w2 + title)[0] == w2[0];
    WordStops(id, w2 + title);
    assert t[|id|..] == w2 + title && t[..|id|] == id;
    StripSkips(w2, title);
    hide Strip;
    assert !IsSpace(t[0]) && LStrip(t) == t;
  }

  lemma HeaderReaderMatches(line: string) returns (w1: string, id: string, w2: string, title: string)
    requires HeaderOf(line).Some?
    ensures HeaderPattern(line, w1, id, w2, title)
  {
    assert line == "###" + line[3..];
    w1 := LStripSplit(line[3..]);
    var t := LStrip(line[3..]);
    MissionRoundTrip.WordFacts(t);
    var n := WordLength(t);
    id := t[..n];
    var rest := t[n..];
    assert t == id + rest;
    hide LStrip, Strip;
    if rest == "" {
      w2, title := "", "";
      assert w2 + title == rest;
    } else {
      assert rest[0] == t[n];
      w2, title := HeadSplit(rest);
    }
  }
}
