// Check keys: "<item id>:<index>", as validation_gate.make_check_key writes them
// and as every reader takes them apart with `key.split(":", 1)`.
module CheckKeys {
  import opened Text

  function Digit(d: nat): char
    requires d < 10
  {
    ('0' as int + d) as char
  }

  function Decimal(n: nat): string {
    if n < 10 then [Digit(n)] else Decimal(n / 10) + [Digit(n % 10)]
  }

  function MakeCheckKey(itemId: string, index: nat): string {
    itemId + ":" + Decimal(index)
  }

  /** Position of the first colon, or the length when there is none. */
  function ColonAt(key: string): nat {
    if key == "" || key[0] == ':' then 0 else 1 + ColonAt(key[1..])
  }

  predicate HasColon(key: string) {
    ColonAt(key) < |key|
  }

  /** `key.split(":", 1)[0]` */
  function ItemIdOf(key: string): string {
    if key == "" || key[0] == ':' then "" else [key[0]] + ItemIdOf(key[1..])
  }

  /** `key.split(":", 1)[1]` for a key with a colon. */
  function IndexPart(key: string): string {
    if key == "" then "" else if key[0] == ':' then key[1..] else IndexPart(key[1..])
  }

  predicate IsDigit(c: char) { '0' <= c <= '9' }

  /** Digits with single underscores between them. */
  predicate NumberText(u: string) {
    && u != "" && IsDigit(u[0]) && IsDigit(u[|u| - 1])
    && (forall i :: 0 <= i < |u| ==> IsDigit(u[i]) || u[i] == '_')
    && (forall i :: 0 < i < |u| ==> IsDigit(u[i - 1]) || IsDigit(u[i]))
  }

  /** ASCII literals that Python's `int()` accepts. */
  predicate IntLiteral(s: string) {
    var t := Strip(s);
    NumberText(if t != "" && (t[0] == '+' || t[0] == '-') then t[1..] else t)
  }

  /** `item_id, idx = key.split(":", 1); int(idx)` does not raise. */
  predicate Parses(key: string) {
    HasColon(key) && IntLiteral(IndexPart(key))
  }

  // ---- what `int()` reads ------------------------------------------------------------------------

  ghost predicate DigitGroups(groups: seq<string>) {
    groups != [] && forall i :: 0 <= i < |groups| ==> groups[i] != "" && forall j :: 0 <= j < |groups[i]| ==> IsDigit(groups[i][j])
  }

  lemma {:induction false} GroupsOf(u: string) returns (groups: seq<string>)
    requires NumberText(u)
    ensures DigitGroups(groups) && Join(groups, "_") == u
    decreases |u|
  {
    if '_' in u {
      var p := FirstUnderscore(u);
      var rest := u[p + 1..];
      assert IsDigit(u[p + 1]) && rest[|rest| - 1] == u[|u| - 1];
      var more := GroupsOf(rest);
      groups := [u[..p]] + more;
      assert groups[1..] == more && u == u[..p] + "_" + rest;
    } else {
      groups := [u];
    }
  }

  lemma {:induction false} FirstUnderscore(u: string) returns (p: nat)
    requires '_' in u
    ensures p < |u| && u[p] == '_' && forall i :: 0 <= i < p ==> u[i] != '_'
  {
    if u[0] == '_' {
      p := 0;
    } else {
      var q := FirstUnderscore(u[1..]);
      p := q + 1;
    }
  }

  lemma NumberAppends(g: string, rest: string)
    requires g != "" && (forall i :: 0 <= i < |g| ==> IsDigit(g[i])) && NumberText(rest)
    ensures NumberText(g + "_" + rest)
  {
    var u, n := g + "_" + rest, |g| + 1;
    assert forall i :: 0 <= i < |u| ==> u[i] == if i < |g| then g[i] else if i == |g| then '_' else rest[i - n];
    forall i | 0 < i < |u| ensures IsDigit(u[i - 1]) || IsDigit(u[i]) {
      if i > n { assert IsDigit(rest[i - n - 1]) || IsDigit(rest[i - n]); }
    }
  }

  lemma {:induction false} JoinedIsNumber(groups: seq<string>)
    requires DigitGroups(groups)
    ensures NumberText(Join(groups, "_"))
  {
    if |groups| > 1 {
      assert DigitGroups(groups[1..]);
      JoinedIsNumber(groups[1..]);
      NumberAppends(groups[0], Join(groups[1..], "_"));
      hide NumberText;
    }
  }

  lemma NumberHasNoSign(u: string)
    requires NumberText(u)
    ensures u != "" && u[0] != '+' && u[0] != '-'
  {
  }

  /** What is read as a number: after white space and a sign, groups of digits with single underscores between them. */
  lemma IntLiteralIff(s: string)
    ensures IntLiteral(s) <==>
            exists sign, groups :: sign in ["", "+", "-"] && DigitGroups(groups) && Strip(s) == sign + Join(groups, "_")
  {
    hide Strip, NumberText, DigitGroups, Join;
    var t := Strip(s);
    if IntLiteral(s) {
      var sign := if t != "" && (t[0] == '+' || t[0] == '-') then [t[0]] else "";
      var u := if t != "" && (t[0] == '+' || t[0] == '-') then t[1..] else t;
      assert u == t[|sign|..];
      var groups := GroupsOf(u);
      assert t == sign + t[|sign|..] && sign in ["", "+", "-"];
    }
    if sign, groups :| sign in ["", "+", "-"] && DigitGroups(groups) && t == sign + Join(groups, "_") {
      JoinedIsNumber(groups);
      NumberHasNoSign(Join(groups, "_"));
      assert t[|sign|..] == Join(groups, "_");
    }
  }

  lemma {:induction false} DecimalFacts(n: nat)
    ensures Decimal(n) != "" && forall i :: 0 <= i < |Decimal(n)| ==> IsDigit(Decimal(n)[i])
  {
    if n >= 10 { DecimalFacts(n / 10); }
  }

  lemma {:induction false} DecimalInjective(m: nat, n: nat)
    requires Decimal(m) == Decimal(n)
    ensures m == n
  {
    DecimalFacts(m / 10);
    DecimalFacts(n / 10);
    var dm, dn := Decimal(m), Decimal(n);
    assert dm[|dm| - 1] == Digit(m % 10) && dn[|dn| - 1] == Digit(n % 10);
    assert (m >= 10 <==> |dm| >= 2) && (n >= 10 <==> |dn| >= 2);
    if m >= 10 && n >= 10 {
      assert Decimal(m / 10) == dm[..|dm| - 1] == dn[..|dn| - 1] == Decimal(n / 10);
      DecimalInjective(m / 10, n / 10);
    }
  }

  lemma {:induction false} SplitAtColon(id: string, rest: string)
    requires ':' !in id
    ensures ItemIdOf(id + ":" + rest) == id
    ensures IndexPart(id + ":" + rest) == rest
    ensures HasColon(id + ":" + rest)
  {
    var key := id + ":" + rest;
    if id == "" {
      assert key[0] == ':' && key[1..] == rest;
    } else {
      assert key[0] == id[0] && key[1..] == id[1..] + ":" + rest;
      SplitAtColon(id[1..], rest);
      assert id == [id[0]] + id[1..];
    }
  }

  lemma {:induction false} HasColonIff(key: string)
    ensures HasColon(key) <==> ':' in key
  {
    if key != "" && key[0] != ':' {
      HasColonIff(key[1..]);
      assert key == [key[0]] + key[1..];
    }
  }

  lemma {:induction false} ItemIdHasNoColon(key: string)
    ensures ':' !in ItemIdOf(key)
  {
    if key != "" && key[0] != ':' { ItemIdHasNoColon(key[1..]); }
  }

  /** A key leads back to its item exactly when the item's id has no colon. */
  lemma ItemIdOfCheckKey(id: string, index: nat)
    ensures ItemIdOf(MakeCheckKey(id, index)) == id <==> ':' !in id
    ensures ':' !in id ==> Parses(MakeCheckKey(id, index))
  {
    ItemIdHasNoColon(MakeCheckKey(id, index));
    if ':' !in id {
      SplitAtColon(id, Decimal(index));
      DecimalFacts(index);
      StripFixed(Decimal(index));
    }
  }

  /** Different checks never share a key, whatever characters the ids hold. */
  lemma CheckKeyInjective(a: string, i: nat, b: string, j: nat)
    requires MakeCheckKey(a, i) == MakeCheckKey(b, j)
    ensures a == b && i == j
  {
    var key := MakeCheckKey(a, i);
    var da, db := Decimal(i), Decimal(j);
    DecimalFacts(i);
    DecimalFacts(j);
    assert key[|a|] == ':' && forall p :: |a| < p < |key| ==> key[p] == da[p - |a| - 1];
    assert key[|b|] == ':' && forall p :: |b| < p < |key| ==> key[p] == db[p - |b| - 1];
    assert a == key[..|a|] == key[..|b|] == b;
    assert da == key[|a| + 1..] == db;
    DecimalInjective(i, j);
  }
}
