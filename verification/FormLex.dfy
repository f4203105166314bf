/** The two lexers of memfn/src/formhash.c: the pass that drops comments and the pass that reads one line's tokens. */
module FormLex {
  import opened Text

  predicate IdStart(c: char) { c == '_' || 'a' <= c <= 'z' || 'A' <= c <= 'Z' }

  predicate IdChar(c: char) { IdStart(c) || IsDigit(c) }

  predicate Quote(c: char) { c == '"' || c == '\'' }

  // ----- literals -----

  /** The offset after a literal that opened before `j` with quote `q`: past its closing quote, or the end. */
  function LitEnd(s: string, q: char, j: nat): (e: nat)
    requires j <= |s|
    ensures j <= e <= |s|
    decreases |s| - j
  {
    if j == |s| then j
    else if s[j] == q then j + 1
    else if s[j] == '\\' && j + 1 < |s| then LitEnd(s, q, j + 2)
    else LitEnd(s, q, j + 1)
  }

  /** Whether that literal is closed. */
  predicate Closes(s: string, q: char, j: nat)
    requires j <= |s|
    decreases |s| - j
  {
    if j == |s| then false
    else if s[j] == q then true
    else if s[j] == '\\' && j + 1 < |s| then Closes(s, q, j + 2)
    else Closes(s, q, j + 1)
  }

  /** A closed literal ends where it ends whatever follows, and an unclosed one runs to the end. */
  lemma {:induction false} LitAppend(s: string, q: char, j: nat, t: string)
    requires j <= |s|
    ensures !Closes(s, q, j) ==> LitEnd(s, q, j) == |s|
    ensures Closes(s, q, j) ==> Closes(s + t, q, j) && LitEnd(s + t, q, j) == LitEnd(s, q, j)
    decreases |s| - j
  {
    if j < |s| && s[j] != q {
      var k := if s[j] == '\\' && j + 1 < |s| then j + 2 else j + 1;
      LitAppend(s, q, k, t);
      if k == j + 1 && s[j] == '\\' { assert !Closes(s, q, k); }
    }
  }

  /** Cutting a text after a closed literal leaves the literal. */
  lemma {:induction false} LitCut(s: string, q: char, j: nat)
    requires j <= |s|
    ensures var r := s[..LitEnd(s, q, j)];
            LitEnd(r, q, j) == |r| && (Closes(s, q, j) ==> Closes(r, q, j))
    decreases |s| - j
  {
    if j < |s| && s[j] != q {
      LitCut(s, q, if s[j] == '\\' && j + 1 < |s| then j + 2 else j + 1);
    }
  }

  // ----- dropping comments -----

  /** What follows the first close of a block comment. */
  function AfterClose(s: string): (r: string)
    ensures |r| <= |s|
  {
    if |s| < 2 then "" else if s[0] == '*' && s[1] == '/' then s[2..] else AfterClose(s[1..])
  }

  predicate HasClose(s: string) {
    |s| >= 2 && ((s[0] == '*' && s[1] == '/') || HasClose(s[1..]))
  }

  /** The rest of a text from its first newline. */
  function FromNewline(s: string): (r: string)
    ensures |r| <= |s|
  {
    if s == "" || s[0] == '\n' then s else FromNewline(s[1..])
  }

  predicate OpensBlock(t: string) { |t| >= 2 && t[0] == '/' && t[1] == '*' }

  predicate OpensLine(t: string) { |t| >= 2 && t[0] == '/' && t[1] == '/' }

  /** The first pass: comments dropped, outside string and character literals. */
  function Strip(t: string): string
    decreases |t|
  {
    if t == "" then ""
    else if Quote(t[0]) then t[..LitEnd(t, t[0], 1)] + Strip(t[LitEnd(t, t[0], 1)..])
    else if OpensBlock(t) then Strip(AfterClose(t[2..]))
    else if OpensLine(t) then Strip(FromNewline(t[2..]))
    else [t[0]] + Strip(t[1..])
  }

  /** Scanning `a` ends outside every literal and comment, and not on a slash that could open one. */
  predicate Closed(a: string)
    decreases |a|
  {
    if a == "" then true
    else if Quote(a[0]) then Closes(a, a[0], 1) && Closed(a[LitEnd(a, a[0], 1)..])
    else if OpensBlock(a) then HasClose(a[2..]) && Closed(AfterClose(a[2..]))
    else if OpensLine(a) then FromNewline(a[2..]) != "" && Closed(FromNewline(a[2..]))
    else a != "/" && Closed(a[1..])
  }

  lemma {:induction false} CloseAppend(s: string, t: string)
    requires HasClose(s)
    ensures HasClose(s + t) && AfterClose(s + t) == AfterClose(s) + t
    decreases |s|
  {
    assert (s + t)[1..] == s[1..] + t;
    if s[0] == '*' && s[1] == '/' {
      assert (s + t)[2..] == s[2..] + t;
    } else {
      CloseAppend(s[1..], t);
    }
  }

  lemma {:induction false} NewlineAppend(s: string, t: string)
    requires FromNewline(s) != ""
    ensures FromNewline(s + t) == FromNewline(s) + t
    decreases |s|
  {
    assert (s + t)[1..] == s[1..] + t;
    if s[0] != '\n' { NewlineAppend(s[1..], t); }
  }

  /** The first step of the pass, over the front of a longer text. */
  lemma StripStep(a: string, b: string)
    requires a != "" && Closed(a)
    ensures Quote(a[0]) ==> var e := LitEnd(a, a[0], 1);
              Closed(a[e..]) && Strip(a) == a[..e] + Strip(a[e..]) && Strip(a + b) == a[..e] + Strip(a[e..] + b)
    ensures !Quote(a[0]) && OpensBlock(a) ==> var r := AfterClose(a[2..]);
              Closed(r) && Strip(a) == Strip(r) && Strip(a + b) == Strip(r + b)
    ensures !Quote(a[0]) && !OpensBlock(a) && OpensLine(a) ==> var r := FromNewline(a[2..]);
              Closed(r) && Strip(a) == Strip(r) && Strip(a + b) == Strip(r + b)
    ensures !Quote(a[0]) && !OpensBlock(a) && !OpensLine(a) ==>
              Closed(a[1..]) && Strip(a) == [a[0]] + Strip(a[1..]) && Strip(a + b) == [a[0]] + Strip(a[1..] + b)
  {
    hide LitEnd, Closes, AfterClose, HasClose, FromNewline;
    var t := a + b;
    if Quote(a[0]) {
      LitAppend(a, a[0], 1, b);
      var e := LitEnd(a, a[0], 1);
      assert t[..e] == a[..e] && t[e..] == a[e..] + b;
    } else if OpensBlock(a) {
      assert t[2..] == a[2..] + b;
      CloseAppend(a[2..], b);
    } else if OpensLine(a) {
      assert t[2..] == a[2..] + b;
      NewlineAppend(a[2..], b);
    } else {
      assert t[1..] == a[1..] + b;
      assert |a| >= 2 ==> t[1] == a[1];
    }
  }

  lemma StripNone()
    ensures Strip("") == ""
  {
  }

  /** The first pass works piecewise: after a closed text it starts afresh. */
  lemma {:induction false} StripConcat(a: string, b: string)
    requires Closed(a)
    ensures Strip(a + b) == Strip(a) + Strip(b)
    decreases |a|
  {
    hide Strip, Closed, LitEnd, AfterClose, FromNewline;
    if a == "" {
      StripNone();
      assert a + b == b;
    } else {
      StripStep(a, b);
      if Quote(a[0]) {
        StripConcat(a[LitEnd(a, a[0], 1)..], b);
      } else if OpensBlock(a) {
        StripConcat(AfterClose(a[2..]), b);
      } else if OpensLine(a) {
        StripConcat(FromNewline(a[2..]), b);
      } else {
        StripConcat(a[1..], b);
      }
    }
  }

  lemma {:induction false} FirstClose(c: string)
    requires !HasClose(c)
    ensures HasClose(c + "*/") && AfterClose(c + "*/") == ""
    decreases |c|
  {
    var s := c + "*/";
    if c == "" {
      assert s == "*/" && s[2..] == "";
    } else {
      assert s[1..] == c[1..] + "*/";
      assert |c| >= 2 ==> s[1] == c[1];
      assert !HasClose(c[1..]);
      FirstClose(c[1..]);
    }
  }

  lemma {:induction false} FirstNewline(c: string)
    requires NoNewline(c)
    ensures FromNewline(c + "\n") == "\n"
    decreases |c|
  {
    if c == "" {
      assert c + "\n" == "\n";
    } else {
      assert (c + "\n")[1..] == c[1..] + "\n";
      FirstNewline(c[1..]);
    }
  }

  lemma BlockComment(c: string)
    requires !HasClose(c)
    ensures Closed("/*" + c + "*/") && Strip("/*" + c + "*/") == ""
  {
    hide HasClose;
    var m := "/*" + c + "*/";
    assert m[2..] == c + "*/" && OpensBlock(m);
    FirstClose(c);
  }

  lemma LineComment(c: string)
    requires NoNewline(c)
    ensures Closed("//" + c + "\n") && Strip("//" + c + "\n") == Strip("\n") && Closed("\n")
  {
    var m := "//" + c + "\n";
    assert m[2..] == c + "\n" && OpensLine(m);
    FirstNewline(c);
    assert "\n"[1..] == "";
  }

  /** A closed text that strips like `m'` can stand in its place. */
  lemma Replace(a: string, m: string, m': string, b: string)
    requires Closed(a) && Closed(m) && Closed(m') && Strip(m) == Strip(m')
    ensures Strip(a + m + b) == Strip(a + m' + b)
  {
    hide Closed, Strip;
    assert a + m + b == a + (m + b) && a + m' + b == a + (m' + b);
    StripConcat(m, b);
    StripConcat(m', b);
    StripConcat(a, m + b);
    StripConcat(a, m' + b);
  }

  lemma BlockDropped(a: string, c: string, b: string)
    requires Closed(a) && !HasClose(c)
    ensures Strip(a + ("/*" + c + "*/") + b) == Strip(a + b)
  {
    assert Closed("") && Strip("") == "";
    hide Closed, Strip, HasClose;
    BlockComment(c);
    Replace(a, "/*" + c + "*/", "", b);
    assert a + "" + b == a + b;
  }

  /** A block comment anywhere outside literals and comments changes nothing, nor does a line comment. */
  lemma CommentsMoveNothing(a: string, c: string, b: string)
    requires Closed(a)
    ensures !HasClose(c) ==> Strip(a + ("/*" + c + "*/") + b) == Strip(a + b)
    ensures NoNewline(c) ==> Strip(a + ("//" + c + "\n") + b) == Strip(a + "\n" + b)
  {
    hide Closed, Strip, HasClose, NoNewline;
    if !HasClose(c) { BlockDropped(a, c, b); }
    if NoNewline(c) {
      LineComment(c);
      Replace(a, "//" + c + "\n", "\n", b);
    }
  }

  // ----- the tokens of one line -----

  datatype Tok =
    | Id(name: string)
    | Gap(raw: string)
    | Lit(raw: string)
    | Ch(c: char)

  function Raw(t: Tok): string {
    match t
    case Id(n) => n
    case Gap(r) => r
    case Lit(r) => r
    case Ch(c) => [c]
  }

  function Render(ts: seq<Tok>): string {
    if ts == [] then "" else Raw(ts[0]) + Render(ts[1..])
  }

  lemma {:induction false} RenderConcat(a: seq<Tok>, b: seq<Tok>)
    ensures Render(a + b) == Render(a) + Render(b)
    decreases |a|
  {
    if a == [] {
      assert a + b == b;
    } else {
      assert (a + b)[1..] == a[1..] + b;
      RenderConcat(a[1..], b);
    }
  }

  /** Whether a character that could start an identifier would continue one here. */
  predicate EndsWord(t: Tok) {
    match t
    case Id(_) => true
    case Gap(_) => false
    case Lit(r) => r != "" && IdChar(r[|r| - 1])
    case Ch(c) => IdChar(c)
  }

  predicate StartsWord(t: Tok) {
    match t
    case Id(_) => true
    case Gap(_) => false
    case Lit(_) => false
    case Ch(c) => IdChar(c)
  }

  /** How many characters from the front are blanks, or identifier characters. */
  function BlankRun(s: string): (n: nat)
    ensures n <= |s|
  {
    if s == "" || !IsBlank(s[0]) then 0 else 1 + BlankRun(s[1..])
  }

  function WordRun(s: string): (n: nat)
    ensures n <= |s|
  {
    if s == "" || !IdChar(s[0]) then 0 else 1 + WordRun(s[1..])
  }

  /** The token at the front of a text, when the character before it is (`w`) or is not an identifier character. */
  function First(w: bool, s: string): (t: Tok)
    requires s != ""
    ensures 0 < |Raw(t)| <= |s| && Raw(t) == s[..|Raw(t)|]
  {
    if IsBlank(s[0]) then Gap(s[..BlankRun(s)])
    else if Quote(s[0]) then Lit(s[..LitEnd(s, s[0], 1)])
    else if IdStart(s[0]) && !w then Id(s[..WordRun(s)])
    else Ch(s[0])
  }

  function Lex(w: bool, s: string): seq<Tok>
    decreases |s|
  {
    if s == "" then []
    else var t := First(w, s); [t] + Lex(EndsWord(t), s[|Raw(t)|..])
  }

  predicate IsId(n: string) { n != "" && IdStart(n[0]) && forall i :: 0 <= i < |n| ==> IdChar(n[i]) }

  predicate AllBlank(r: string) { forall i :: 0 <= i < |r| ==> IsBlank(r[i]) }

  /** `t` can be a token after `w`, with the tokens `rest` after it. */
  predicate TokOk(w: bool, t: Tok, rest: seq<Tok>) {
    match t
    case Id(n) => !w && IsId(n) && (rest != [] ==> !StartsWord(rest[0]))
    case Gap(r) => r != "" && AllBlank(r) && (rest != [] ==> !rest[0].Gap?)
    case Lit(r) => r != "" && Quote(r[0]) && LitEnd(r, r[0], 1) == |r| && (Closes(r, r[0], 1) || rest == [])
    case Ch(c) => !IsBlank(c) && !Quote(c) && (IdStart(c) ==> w)
  }

  /** The token sequences that lexing can give. */
  predicate WellFormed(w: bool, ts: seq<Tok>)
    decreases |ts|
  {
    ts == [] || (TokOk(w, ts[0], ts[1..]) && WellFormed(EndsWord(ts[0]), ts[1..]))
  }

  lemma {:induction false} BlankRunIs(s: string)
    ensures AllBlank(s[..BlankRun(s)]) && (BlankRun(s) < |s| ==> !IsBlank(s[BlankRun(s)]))
    decreases |s|
  {
    if s != "" && IsBlank(s[0]) {
      var n := BlankRun(s[1..]);
      BlankRunIs(s[1..]);
      assert s[..n + 1] == [s[0]] + s[1..][..n];
    }
  }

  lemma {:induction false} WordRunIs(s: string)
    ensures (forall i :: 0 <= i < WordRun(s) ==> IdChar(s[i])) && (WordRun(s) < |s| ==> !IdChar(s[WordRun(s)]))
    decreases |s|
  {
    if s != "" && IdChar(s[0]) {
      WordRunIs(s[1..]);
      assert forall i :: 0 < i <= WordRun(s[1..]) ==> s[i] == s[1..][i - 1];
    }
  }

  lemma {:induction false} BlankRunAt(r: string, t: string)
    requires AllBlank(r) && (t != "" ==> !IsBlank(t[0]))
    ensures BlankRun(r + t) == |r|
    decreases |r|
  {
    if r == "" {
      assert r + t == t;
    } else {
      assert (r + t)[1..] == r[1..] + t;
      BlankRunAt(r[1..], t);
    }
  }

  lemma {:induction false} WordRunAt(r: string, t: string)
    requires (forall i :: 0 <= i < |r| ==> IdChar(r[i])) && (t != "" ==> !IdChar(t[0]))
    ensures WordRun(r + t) == |r|
    decreases |r|
  {
    if r == "" {
      assert r + t == t;
    } else {
      assert (r + t)[1..] == r[1..] + t;
      WordRunAt(r[1..], t);
    }
  }

  /** Lexing loses nothing, and gives a well-formed sequence. */
  lemma {:induction false} LexSound(w: bool, s: string)
    ensures Render(Lex(w, s)) == s && WellFormed(w, Lex(w, s))
    decreases |s|
  {
    hide First, TokOk, EndsWord, LitEnd, Raw;
    if s != "" {
      var t := First(w, s);
      var n, v := |Raw(t)|, EndsWord(t);
      var rest := Lex(v, s[n..]);
      LexSound(v, s[n..]);
      FirstOk(w, s);
      assert s == s[..n] + s[n..];
      SoundThen(w, t, rest);
    }
  }

  lemma SoundThen(w: bool, t: Tok, rest: seq<Tok>)
    requires TokOk(w, t, rest) && WellFormed(EndsWord(t), rest)
    ensures WellFormed(w, [t] + rest) && Render([t] + rest) == Raw(t) + Render(rest)
  {
    assert ([t] + rest)[1..] == rest;
  }

  lemma FirstOk(w: bool, s: string)
    requires s != ""
    ensures var t := First(w, s); TokOk(w, t, Lex(EndsWord(t), s[|Raw(t)|..]))
  {
    var t := First(w, s);
    var n := |Raw(t)|;
    var u := s[n..];
    FirstStarts(EndsWord(t), u);
    if IsBlank(s[0]) {
      BlankRunIs(s);
    } else if Quote(s[0]) {
      LitCut(s, s[0], 1);
      LitAppend(s, s[0], 1, "");
    } else if IdStart(s[0]) && !w {
      WordRunIs(s);
      assert forall i :: 0 <= i < n ==> s[..n][i] == s[i];
    }
  }

  /** The kind of the next token shows in its first character. */
  lemma FirstStarts(w: bool, s: string)
    ensures Lex(w, s) != [] <==> s != ""
    ensures s != "" ==> (Lex(w, s)[0].Gap? <==> IsBlank(s[0])) && (StartsWord(Lex(w, s)[0]) <==> IdChar(s[0]))
  {
  }

  /** Lexing reads back any well-formed sequence: lines and well-formed token sequences are the same thing. */
  lemma {:induction false} LexRender(w: bool, ts: seq<Tok>)
    requires WellFormed(w, ts)
    ensures Lex(w, Render(ts)) == ts
    decreases |ts|
  {
    if ts != [] {
      var t, rest := ts[0], ts[1..];
      LexRender(EndsWord(t), rest);
      var s, u := Render(ts), Render(rest);
      FirstStarts(EndsWord(t), u);
      FirstReads(w, t, rest, u);
      assert s[|Raw(t)|..] == u;
      assert ts == [t] + rest;
    }
  }

  lemma FirstReads(w: bool, t: Tok, rest: seq<Tok>, u: string)
    requires TokOk(w, t, rest) && (rest == [] <==> u == "")
    requires u != "" ==> (rest[0].Gap? <==> IsBlank(u[0])) && (StartsWord(rest[0]) <==> IdChar(u[0]))
    ensures Raw(t) != "" && First(w, Raw(t) + u) == t
  {
    var s := Raw(t) + u;
    match t
    case Id(n) =>
      WordRunAt(n, u);
      assert s[..|n|] == n;
    case Gap(r) =>
      BlankRunAt(r, u);
      assert IsBlank(r[0]) && s[..|r|] == r;
    case Lit(r) =>
      if rest == [] { assert s == r; } else { LitAppend(r, r[0], 1, u); }
      assert s[..|r|] == r;
    case Ch(c) =>
  }
}
