/** What the form hash's two passes do with the front of a text (memfn/src/formhash.c), one rule for each kind of piece. */
module FormRules {
  import opened Text
  import opened FormLex
  import opened FormNames
  import opened FormNormal

  function Lower(): string { "abcdefghijklmnopqrstuvwxyz" }
  function Upper(): string { "ABCDEFGHIJKLMNOPQRSTUVWXYZ" }

  /** The characters that the passes tell apart. */
  lemma CharClasses(c: char)
    ensures IdStart(c) <==> c == '_' || c in Lower() || c in Upper()
    ensures IdChar(c) <==> IdStart(c) || c in "0123456789"
    ensures IsBlank(c) <==> c in " \t"
    ensures Edge(c) <==> c in " \t\r"
    ensures Quote(c) <==> c in "\"'"
  {
    LowerIs(c);
    UpperIs(c);
    hide Lower, Upper;
  }

  lemma LowerIs(c: char)
    ensures c in Lower() <==> 'a' <= c <= 'z'
  {
    if 'a' <= c <= 'z' { assert Lower()[c as int - 'a' as int] == c; }
  }

  lemma UpperIs(c: char)
    ensures c in Upper() <==> 'A' <= c <= 'Z'
  {
    if 'A' <= c <= 'Z' { assert Upper()[c as int - 'A' as int] == c; }
  }

  // ----- the pass that drops comments -----

  /** What stands between a literal's quotes: no quote and no backslash, except that a backslash takes the character after
      it along. */
  predicate LitBody(b: string, q: char) {
    b == "" || (b[0] != q && b[0] != '\\' && LitBody(b[1..], q)) || (|b| >= 2 && b[0] == '\\' && LitBody(b[2..], q))
  }

  lemma {:induction false} LitEndIs(s: string, q: char, j: nat, b: string, t: string)
    requires j <= |s| && Quote(q) && LitBody(b, q) && s[j..] == b + [q] + t
    ensures LitEnd(s, q, j) == j + |b| + 1
    decreases |b|
  {
    var r := b + [q] + t;
    assert s[j] == r[0];
    if b != "" {
      assert |b| >= 2 ==> s[j + 1] == r[1];
      var n := if b[0] == '\\' then 2 else 1;
      assert s[j + n..] == b[n..] + [q] + t;
      LitEndIs(s, q, j + n, b[n..], t);
    }
  }

  /** A literal is kept as it stands. */
  lemma StripLiteral(q: char, b: string, t: string)
    requires Quote(q) && LitBody(b, q)
    ensures Strip([q] + b + [q] + t) == [q] + b + [q] + Strip(t)
  {
    var s := [q] + b + [q] + t;
    assert s[1..] == b + [q] + t;
    LitEndIs(s, q, 1, b, t);
    assert s[..|b| + 2] == [q] + b + [q] && s[|b| + 2..] == t;
  }

  lemma {:induction false} LitOpen(s: string, q: char, j: nat, b: string, z: string)
    requires j <= |s| && Quote(q) && LitBody(b, q) && z in {"", "\\"} && s[j..] == b + z
    ensures LitEnd(s, q, j) == |s|
    decreases |b|
  {
    var r := b + z;
    assert r != "" ==> s[j] == r[0];
    if b != "" {
      assert |r| >= 2 ==> s[j + 1] == r[1];
      var n := if b[0] == '\\' then 2 else 1;
      assert s[j + n..] == b[n..] + z;
      LitOpen(s, q, j + n, b[n..], z);
    }
  }

  /** A literal that is never closed runs to the end of the text, a backslash alone at the end included. */
  lemma StripOpen(q: char, b: string, z: string)
    requires Quote(q) && LitBody(b, q) && z in {"", "\\"}
    ensures Strip([q] + b + z) == [q] + b + z
  {
    var s := [q] + b + z;
    assert s[1..] == b + z;
    LitOpen(s, q, 1, b, z);
    assert s[..|s|] == s && s[|s|..] == "";
  }

  predicate NoClose(x: string) { forall i :: 0 <= i < |x| - 1 ==> !(x[i] == '*' && x[i + 1] == '/') }

  lemma {:induction false} FirstClose(x: string, t: string)
    requires NoClose(x)
    ensures AfterClose(x + "*/" + t) == t
    decreases |x|
  {
    var s := x + "*/" + t;
    if x == "" {
      assert s[0] == '*' && s[1] == '/' && s[2..] == t;
    } else {
      assert s[0] == x[0] && s[1] == if |x| > 1 then x[1] else '*';
      assert s[1..] == x[1..] + "*/" + t;
      FirstClose(x[1..], t);
    }
  }

  lemma {:induction false} NeverCloses(x: string)
    requires NoClose(x)
    ensures AfterClose(x) == ""
    decreases |x|
  {
    if |x| >= 2 { NeverCloses(x[1..]); }
  }

  /** A block comment goes, up to the first close, or all of it where there is none. */
  lemma StripBlock(x: string, t: string)
    requires NoClose(x)
    ensures Strip("/*" + x + "*/" + t) == Strip(t)
    ensures Strip("/*" + x) == ""
  {
    var s, u := "/*" + x + "*/" + t, "/*" + x;
    FirstClose(x, t);
    NeverCloses(x);
    assert s[2..] == x + "*/" + t && u[2..] == x;
    assert s[0] == '/' && s[1] == '*' && u[0] == '/' && u[1] == '*';
  }

  lemma {:induction false} NewlineAt(x: string, t: string)
    requires NoNewline(x)
    ensures FromNewline(x + "\n" + t) == "\n" + t && FromNewline(x) == ""
    decreases |x|
  {
    var s := x + "\n" + t;
    if x == "" {
      assert s == "\n" + t;
    } else {
      assert s[0] == x[0] && s[1..] == x[1..] + "\n" + t;
      NewlineAt(x[1..], t);
    }
  }

  /** A line comment goes; the newline after it stays. */
  lemma StripLine(x: string, t: string)
    requires NoNewline(x)
    ensures Strip("//" + x + "\n" + t) == "\n" + Strip(t)
    ensures Strip("//" + x) == ""
  {
    var s, u := "//" + x + "\n" + t, "//" + x;
    NewlineAt(x, t);
    assert s[2..] == x + "\n" + t && u[2..] == x;
    assert s[0] == '/' && s[1] == '/' && u[0] == '/' && u[1] == '/';
    var v := "\n" + t;
    assert v[0] == '\n' && v[1..] == t;
  }

  /** Any other character is kept. */
  lemma StripChar(c: char, t: string)
    requires !Quote(c) && (c == '/' ==> t == "" || (t[0] != '/' && t[0] != '*'))
    ensures Strip([c] + t) == [c] + Strip(t)
  {
    var s := [c] + t;
    assert s[1..] == t && s[0] == c;
    assert |s| > 1 ==> s[1] == t[0];
  }

  // ----- the pass over lines -----

  predicate Margins(lead: string, m: string, tail: string) {
    && (forall i :: 0 <= i < |lead| ==> lead[i] in " \t\r") && (forall i :: 0 <= i < |tail| ==> tail[i] in " \t\r")
    && (m != "" ==> m[0] !in " \t\r" && m[|m| - 1] !in " \t\r") && NoNewline(m)
  }

  /** A line leaves the items of what stands between its margins, and an end of line; a line with nothing there leaves
      nothing. Then come the lines below it. */
  lemma LineRule(lead: string, m: string, tail: string, t: string)
    requires Margins(lead, m, tail)
    ensures Items(lead + m + tail + "\n" + t) ==
      (if m == "" then [] else Squeeze(false, Lex(false, m)) + [Eol]) + Items(t)
  {
    var l := lead + m + tail;
    LineTrims(lead, m, tail);
    LeavesItems(m);
    hide Squeeze, Lex, Trim, NoNewline, Margins;
    var s := l + "\n" + t;
    FirstLine(l, t);
  }

  lemma FirstLine(l: string, t: string)
    requires NoNewline(l)
    ensures Items(l + "\n" + t) == Ended(LineItems(l)) + Items(t)
  {
    var s := l + "\n" + t;
    LineEndAt(s, 0, |l|);
    assert s[..|l|] == l && s[|l| + 1..] == t;
    var ls := Lines(s);
    assert ls[0] == l && ls[1..] == Lines(t);
    hide LineItems, Ended;
  }

  lemma LineTrims(lead: string, m: string, tail: string)
    requires Margins(lead, m, tail)
    ensures Trim(lead + m + tail) == m && NoNewline(lead + m + tail)
  {
    assert AllEdge(lead) && AllEdge(tail) && Trimmed(m);
    TrimMiddle(lead, m, tail);
    hide Trim;
  }

  lemma LeavesItems(m: string)
    requires m == "" || m[0] !in " \t\r"
    ensures Squeeze(false, Lex(false, m)) == [] <==> m == ""
  {
    FirstStarts(false, m);
    hide First;
  }
}
