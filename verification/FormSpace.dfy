/** White space, comments and operators in the normal form of memfn/src/formhash.c: exactly when a gap counts. */
module FormSpace {
  import opened Text
  import opened FormLex
  import opened FormNames
  import opened FormNormal
  import opened FormTells
  import opened FormConverse

  // ----- counting gaps -----

  function Gaps(xs: seq<Item<string>>): nat {
    if xs == [] then 0 else (if xs[0].Keep? && xs[0].t.Gap? then 1 else 0) + Gaps(xs[1..])
  }

  lemma {:induction false} GapsConcat(xs: seq<Item<string>>, ys: seq<Item<string>>)
    ensures Gaps(xs + ys) == Gaps(xs) + Gaps(ys)
    decreases |xs|
  {
    if xs == [] {
      assert xs + ys == ys;
    } else {
      assert (xs + ys)[1..] == xs[1..] + ys;
      GapsConcat(xs[1..], ys);
    }
  }

  // ----- a run of word characters -----

  predicate WordTok(t: Tok) { StartsWord(t) && EndsWord(t) }

  predicate AllWords(ws: seq<Tok>) { forall i :: 0 <= i < |ws| ==> WordTok(ws[i]) }

  /** No word character stands at the front. */
  predicate Stops(t: string) { t != "" ==> !IdChar(t[0]) }

  predicate WordChars(r: string) { forall i :: 0 <= i < |r| ==> IdChar(r[i]) }

  /** A run of word characters becomes word tokens only, whatever stands before it. */
  lemma {:induction false} WordRunLexed(w: bool, r: string, t: string) returns (ws: seq<Tok>)
    requires r != "" && WordChars(r) && Stops(t)
    ensures ws != [] && AllWords(ws) && Lex(w, r + t) == ws + Lex(true, t)
    decreases |r|
  {
    hide Lex, Quote;
    var s := r + t;
    FirstOfRun(w, r, t);
    LexOnce(w, s);
    if IdStart(r[0]) && !w {
      ws := [Id(r)];
      assert s[|r|..] == t;
    } else {
      var first := Ch(r[0]);
      assert s[1..] == r[1..] + t;
      if |r| == 1 {
        ws := [first];
        assert r[1..] + t == t;
      } else {
        var rest := WordRunLexed(true, r[1..], t);
        ws := [first] + rest;
        assert ws + Lex(true, t) == [first] + (rest + Lex(true, t));
      }
    }
  }

  lemma LexOnce(w: bool, s: string)
    requires s != ""
    ensures var t := First(w, s); Lex(w, s) == [t] + Lex(EndsWord(t), s[|Raw(t)|..])
  {
    hide First, EndsWord;
  }

  lemma FirstOfRun(w: bool, r: string, t: string)
    requires r != "" && WordChars(r) && Stops(t)
    ensures First(w, r + t) == if IdStart(r[0]) && !w then Id(r) else Ch(r[0])
  {
    WordRunAt(r, t);
    assert (r + t)[..|r|] == r;
    assert !IsBlank(r[0]) && !Quote(r[0]) by { assert IdChar(r[0]); }
  }

  /** Word tokens leave no gap, and the state after them is known. */
  lemma {:induction false} WordsSqueezed(v: bool, ws: seq<Tok>, d: seq<Tok>)
    requires ws != [] && AllWords(ws)
    ensures Gaps(Squeeze(v, ws + d)) == Gaps(Squeeze(true, d))
    decreases |ws|
  {
    hide EndsWord, StartsWord;
    var all := ws + d;
    assert all[1..] == ws[1..] + d && WordTok(ws[0]);
    NoGap(ws[0]);
    var x := ItemOf(ws[0]);
    assert Squeeze(v, all) == [x] + Squeeze(true, ws[1..] + d);
    assert ([x] + Squeeze(true, ws[1..] + d))[1..] == Squeeze(true, ws[1..] + d);
    if |ws| > 1 {
      WordsSqueezed(true, ws[1..], d);
    } else {
      assert ws[1..] + d == d;
    }
  }

  lemma NoGap(t: Tok)
    requires WordTok(t)
    ensures !t.Gap? && EndsWord(t) && !(ItemOf(t).Keep? && ItemOf(t).t.Gap?)
  {
    hide Kept;
  }

  /** What follows the same tokens contributes its own gaps. */
  lemma {:induction false} TailGaps(v: bool, a: seq<Tok>, x: seq<Tok>, y: seq<Tok>)
    requires x != [] && y != [] && WordTok(x[0]) && WordTok(y[0])
    ensures Gaps(Squeeze(v, a + x)) + Gaps(Squeeze(true, y)) == Gaps(Squeeze(v, a + y)) + Gaps(Squeeze(true, x))
    decreases |a|
  {
    hide EndsWord, ItemOf, WordTok;
    if a == [] {
      assert a + x == x && a + y == y;
      StateForgotten(v, x);
      StateForgotten(v, y);
    } else {
      var s, t := a + x, a + y;
      assert s[1..] == a[1..] + x && t[1..] == a[1..] + y;
      WordStarts(x[0]);
      WordStarts(y[0]);
      assert |a| > 1 ==> s[1] == a[1] && t[1] == a[1];
      assert |a| == 1 ==> s[1] == x[0] && t[1] == y[0];
      if a[0].Gap? {
        var kept := v && StartsWord(s[1]);
        TailGaps(if kept then false else v, a[1..], x, y);
        GapsCons(Keep(Gap(" ")), Squeeze(false, s[1..]));
        GapsCons(Keep(Gap(" ")), Squeeze(false, t[1..]));
      } else {
        TailGaps(EndsWord(a[0]), a[1..], x, y);
        GapsCons(ItemOf(a[0]), Squeeze(EndsWord(a[0]), s[1..]));
        GapsCons(ItemOf(a[0]), Squeeze(EndsWord(a[0]), t[1..]));
      }
    }
  }

  lemma WordStarts(t: Tok)
    requires WordTok(t)
    ensures StartsWord(t)
  {
  }

  lemma GapsCons(x: Item<string>, xs: seq<Item<string>>)
    ensures Gaps([x] + xs) == (if x.Keep? && x.t.Gap? then 1 else 0) + Gaps(xs)
  {
    assert ([x] + xs)[1..] == xs;
  }

  lemma StateForgotten(v: bool, x: seq<Tok>)
    requires x != [] && WordTok(x[0])
    ensures Squeeze(v, x) == Squeeze(true, x)
  {
    NoGap(x[0]);
  }

  // ----- a gap counts exactly between two word characters -----

  lemma {:induction false} ClosedQuote(r: string, q: char, j: nat)
    requires j <= |r| && Closes(r, q, j) && LitEnd(r, q, j) == |r|
    ensures r[|r| - 1] == q
    decreases |r| - j
  {
    if r[j] != q { ClosedQuote(r, q, if r[j] == '\\' && j + 1 < |r| then j + 2 else j + 1); }
  }

  /** A token that ends a line part in a word character is a word. */
  lemma LastWord(w: bool, t: Tok)
    requires TokOk(w, t, []) && EndsWord(t) && (t.Lit? ==> Closes(t.raw, t.raw[0], 1))
    ensures WordTok(t) && Raw(t) != "" && WordChars(Raw(t))
  {
    if t.Lit? { ClosedQuote(t.raw, t.raw[0], 1); }
  }

  /** The front part of a line, its last token apart. */
  lemma FrontSplit(p: string)
    requires Front(p) && IdChar(p[|p| - 1])
    ensures var a := Lex(false, p);
            && a != [] && p == Render(a[..|a| - 1]) + Raw(a[|a| - 1])
            && WordTok(a[|a| - 1]) && Raw(a[|a| - 1]) != "" && WordChars(Raw(a[|a| - 1]))
            && WellFormed(false, a) && AllClosed(a)
  {
    FrontEnds(p);
    hide *;
    LastApart(Lex(false, p), p);
  }

  lemma LastApart(a: seq<Tok>, p: string)
    requires a != [] && WellFormed(false, a) && Render(a) == p && AllClosed(a) && EndsWord(a[|a| - 1])
    ensures p == Render(a[..|a| - 1]) + Raw(a[|a| - 1])
    ensures WordTok(a[|a| - 1]) && Raw(a[|a| - 1]) != "" && WordChars(Raw(a[|a| - 1]))
  {
    hide WellFormed, TokOk, Closes, EndsWord, WordChars, WordTok, Render;
    var n := |a| - 1;
    assert a == a[..n] + [a[n]];
    RenderConcat(a[..n], [a[n]]);
    RenderOne(a[n]);
    var w := LastOk(false, a);
    LitNotEmpty(w, a[n]);
    LastWord(w, a[n]);
  }

  lemma LitNotEmpty(w: bool, t: Tok)
    requires TokOk(w, t, [])
    ensures t.Lit? ==> t.raw != ""
  {
  }

  lemma RenderOne(t: Tok)
    ensures Render([t]) == Raw(t)
  {
    assert [t][1..] == [];
  }

  lemma {:induction false} LastOk(w: bool, a: seq<Tok>) returns (v: bool)
    requires WellFormed(w, a) && a != []
    ensures TokOk(v, a[|a| - 1], [])
    decreases |a|
  {
    hide TokOk, EndsWord;
    if |a| == 1 {
      assert a[1..] == [];
      v := w;
    } else {
      v := LastOk(EndsWord(a[0]), a[1..]);
    }
  }

  /** The tokens before a word token may be followed by any run of word characters. */
  lemma {:induction false} WordFollows(w: bool, a: seq<Tok>, s: string) returns (v: bool)
    requires a != [] && WellFormed(w, a) && WordTok(a[|a| - 1]) && AllClosed(a) && s != "" && IdChar(s[0])
    ensures WellFormed(w, a[..|a| - 1] + Lex(v, s))
    decreases |a|
  {
    hide EndsWord, StartsWord, IsId, Lex, WordTok, IdChar;
    if |a| == 1 {
      v := w;
      LexSound(v, s);
      assert a[..0] + Lex(v, s) == Lex(v, s);
    } else {
      assert AllClosed(a[1..]);
      v := WordFollows(EndsWord(a[0]), a[1..], s);
      var b := a[1..][..|a| - 2] + Lex(v, s);
      assert a[..|a| - 1] + Lex(v, s) == [a[0]] + b;
      assert ([a[0]] + b)[1..] == b;
      assert a[1..][|a| - 2] == a[|a| - 1];
      FirstStarts(v, s);
      NotBlankWord(s[0]);
      WordStarts(a[|a| - 1]);
      FollowsOk(w, a, b, s, v);
    }
  }

  lemma NotBlankWord(c: char)
    requires IdChar(c)
    ensures !IsBlank(c)
  {
  }

  /** The first of several tokens is well placed before what replaces the last. */
  lemma FollowsOk(w: bool, a: seq<Tok>, b: seq<Tok>, s: string, v: bool)
    requires |a| > 1 && TokOk(w, a[0], a[1..]) && b != [] && AllClosed(a) && StartsWord(a[|a| - 1])
    requires if |a| == 2 then !b[0].Gap? else b[0] == a[1]
    ensures TokOk(w, a[0], b)
  {
    assert a[0] in a && a[1..][0] == a[1];
  }

  /** The joined line: its words run on. */
  lemma JoinedTokens(p: string, q: string) returns (ws: seq<Tok>)
    requires Front(p) && q != "" && IdChar(p[|p| - 1]) && IdChar(q[0])
    ensures var a := Lex(false, p);
            a != [] && WordTok(a[|a| - 1]) && ws != [] && AllWords(ws) &&
            Lex(false, p + q) == a[..|a| - 1] + (ws + Lex(true, q[WordRun(q)..]))
  {
    FrontSplit(p);
    RunOf(q);
    hide *;
    var a, n := Lex(false, p), WordRun(q);
    ws := Rejoined(a, q[..n], q[n..]);
    CatRun(Render(a[..|a| - 1]), Raw(a[|a| - 1]), q[..n], q[n..]);
  }

  /** Tokens before a word, the word longer. */
  lemma Rejoined(a: seq<Tok>, run: string, t: string) returns (ws: seq<Tok>)
    requires WellFormed(false, a) && AllClosed(a) && a != [] && WordTok(a[|a| - 1]) && Raw(a[|a| - 1]) != ""
    requires WordChars(Raw(a[|a| - 1])) && WordChars(run) && Stops(t)
    ensures var s := Raw(a[|a| - 1]) + run + t;
      ws != [] && AllWords(ws) && Lex(false, Render(a[..|a| - 1]) + s) == a[..|a| - 1] + (ws + Lex(true, t))
  {
    hide AllClosed, WellFormed, Lex, Render, WordTok, IdChar, WordChars, AllWords, Raw;
    var b, rl := a[..|a| - 1], Raw(a[|a| - 1]);
    JoinRuns(rl, run);
    var s := rl + run + t;
    assert s[0] == (rl + run)[0];
    var v := WordFollows(false, a, s);
    ws := WordRunLexed(v, rl + run, t);
    LexSound(v, s);
    RenderConcat(b, Lex(v, s));
    LexRender(false, b + Lex(v, s));
  }

  lemma CatRun(b: string, rl: string, run: string, t: string)
    ensures b + (rl + run + t) == (b + rl) + (run + t)
  {
  }

  /** The spaced line: its words stand apart. */
  lemma SpacedWords(p: string, r: string, q: string) returns (ws: seq<Tok>)
    requires Front(p) && q != "" && IdChar(q[0]) && r != "" && AllBlank(r)
    ensures var a := Lex(false, p);
            a != [] && ws != [] && AllWords(ws) &&
            Lex(false, p + r + q) ==
            a[..|a| - 1] + ([a[|a| - 1]] + ([Gap(r)] + (ws + Lex(true, q[WordRun(q)..]))))
  {
    NotBlankWord(q[0]);
    FrontEnds(p);
    hide *;
    ws := WordsFirst(q);
    SpacedTokens(p, r, q);
    CatLast(Lex(false, p), [Gap(r)] + (ws + Lex(true, q[WordRun(q)..])));
  }

  lemma WordsFirst(q: string) returns (ws: seq<Tok>)
    requires q != "" && IdChar(q[0])
    ensures ws != [] && AllWords(ws) && Lex(false, q) == ws + Lex(true, q[WordRun(q)..])
  {
    RunOf(q);
    hide *;
    var n := WordRun(q);
    ws := WordRunLexed(false, q[..n], q[n..]);
  }

  lemma CatLast(a: seq<Tok>, d: seq<Tok>)
    requires a != []
    ensures a + d == a[..|a| - 1] + ([a[|a| - 1]] + d)
  {
  }

  /** Between two word characters a gap counts once more than none. */
  lemma GapCounts(p: string, r: string, q: string)
    requires Front(p) && q != "" && IdChar(p[|p| - 1]) && IdChar(q[0]) && r != "" && AllBlank(r)
    ensures Gaps(Squeeze(false, Lex(false, p + r + q))) == Gaps(Squeeze(false, Lex(false, p + q))) + 1
  {
    var ws := JoinedTokens(p, q);
    var ws2 := SpacedWords(p, r, q);
    var a, d := Lex(false, p), Lex(true, q[WordRun(q)..]);
    var last := a[|a| - 1];
    GapOver(a[..|a| - 1], last, r, ws, ws2, d);
  }

  lemma GapOver(b: seq<Tok>, last: Tok, r: string, ws: seq<Tok>, ws2: seq<Tok>, d: seq<Tok>)
    requires WordTok(last) && ws != [] && AllWords(ws) && ws2 != [] && AllWords(ws2)
    ensures Gaps(Squeeze(false, b + ([last] + ([Gap(r)] + (ws2 + d))))) == Gaps(Squeeze(false, b + (ws + d))) + 1
  {
    hide WordTok, AllWords, Squeeze, Gaps;
    FirstWord(ws, d);
    TailGaps(false, b, [last] + ([Gap(r)] + (ws2 + d)), ws + d);
    WordsSqueezed(true, ws, d);
    LastGap(last, r, ws2, d);
  }

  lemma FirstWord(ws: seq<Tok>, d: seq<Tok>)
    requires ws != [] && AllWords(ws)
    ensures ws + d != [] && WordTok((ws + d)[0])
  {
  }

  lemma RunOf(q: string)
    requires q != "" && IdChar(q[0])
    ensures var n := WordRun(q); n > 0 && q[..n] != "" && WordChars(q[..n]) && Stops(q[n..]) && q[..n] + q[n..] == q
  {
    WordRunIs(q);
    assert IdChar(q[0]);
  }

  lemma JoinRuns(a: string, b: string)
    requires a != "" && WordChars(a) && WordChars(b)
    ensures WordChars(a + b) && a + b != "" && IdChar((a + b)[0])
  {
  }

  /** A kept gap between two words. */
  lemma LastGap(last: Tok, r: string, ws: seq<Tok>, d: seq<Tok>)
    requires WordTok(last) && ws != [] && AllWords(ws)
    ensures Gaps(Squeeze(true, [last] + ([Gap(r)] + (ws + d)))) == 1 + Gaps(Squeeze(true, d))
  {
    hide ItemOf;
    NoGap(last);
    FirstWord(ws, d);
    WordStarts((ws + d)[0]);
    var g, z := [Gap(r)] + (ws + d), [last] + ([Gap(r)] + (ws + d));
    assert z[1..] == g && g[1..] == ws + d && g[1] == (ws + d)[0];
    WordsSqueezed(false, ws, d);
    GapsCons(ItemOf(last), Squeeze(true, g));
    GapsCons(Keep(Gap(" ")), Squeeze(false, ws + d));
  }

  lemma SpacedTokens(p: string, r: string, q: string)
    requires Front(p) && q != "" && !IsBlank(q[0]) && r != "" && AllBlank(r)
    ensures Lex(false, p + r + q) == Lex(false, p) + ([Gap(r)] + Lex(false, q))
  {
    hide Front, AllClosed, AllBlank, WellFormed, Lex, EndsWord, Render;
    var a, b := Lex(false, p), Lex(false, q);
    FrontEnds(p);
    LexSound(false, q);
    FirstStarts(false, q);
    var d := [Gap(r)] + b;
    GapFirst(EndsWord(a[|a| - 1]), r, b);
    WellFormedConcat(false, a, d);
    RenderConcat(a, d);
    assert p + r + q == p + (r + q);
    LexRender(false, a + d);
  }

  /** Where a line may be cut, white space counts exactly between two word characters. */
  lemma InnerSpaceIff(p: string, r: string, q: string)
    requires Front(p) && q != "" && !IsBlank(q[0]) && r != "" && AllBlank(r)
    ensures Squeeze(false, Lex(false, p + r + q)) == Squeeze(false, Lex(false, p + q)) <==>
            !(IdChar(p[|p| - 1]) && IdChar(q[0]))
  {
    hide Squeeze, Lex, AllBlank, IdChar;
    FrontEnds(p);
    InnerSpace(p, r, r, q);
    if IdChar(p[|p| - 1]) && IdChar(q[0]) { GapCounts(p, r, q); }
  }

  // ----- the gaps of a whole form -----

  function TokGaps(ts: seq<Tok>): nat { if ts == [] then 0 else (if ts[0].Gap? then 1 else 0) + TokGaps(ts[1..]) }

  lemma {:induction false} TokGapsConcat(a: seq<Tok>, b: seq<Tok>)
    ensures TokGaps(a + b) == TokGaps(a) + TokGaps(b)
    decreases |a|
  {
    if a == [] {
      assert a + b == b;
    } else {
      assert (a + b)[1..] == a[1..] + b;
      TokGapsConcat(a[1..], b);
    }
  }

  lemma {:induction false} CharsNoGap(d: string)
    ensures TokGaps(Chars(d)) == 0
    decreases |d|
  {
    if d != "" {
      CharsNoGap(d[1..]);
      assert Chars(d)[1..] == Chars(d[1..]);
    }
  }

  /** Printing an item keeps it a gap or no gap. */
  lemma {:induction false} ShownGaps(xs: seq<Item<string>>, ns: seq<Item<nat>>)
    requires Shape(xs, ns)
    ensures TokGaps(Shown(ns)) == Gaps(xs)
    decreases |xs|
  {
    hide Dec;
    if xs != [] {
      ShapeTail(xs, ns);
      ShownGaps(xs[1..], ns[1..]);
      TokGapsConcat(ShownOne(ns[0]), Shown(ns[1..]));
      if ns[0].Name? {
        CharsNoGap(Dec(ns[0].v));
        TokGapsConcat([Ch('$')], Chars(Dec(ns[0].v)));
      } else {
        assert ShownOne(ns[0])[1..] == [];
      }
    }
  }

  lemma LineGaps(xs: seq<Item<string>>, ns: seq<Item<nat>>, ys: seq<Item<string>>, ms: seq<Item<nat>>)
    requires LineOk(xs) && Shape(xs, ns) && LineOk(ys) && Shape(ys, ms) && Print(ns) == Print(ms)
    ensures Gaps(xs) == Gaps(ys)
  {
    hide WellFormed, Shown, Print, Shape;
    ShownPrints(ns);
    ShownPrints(ms);
    ShownWellFormed(false, xs, ns);
    ShownWellFormed(false, ys, ms);
    LexRender(false, Shown(ns));
    LexRender(false, Shown(ms));
    ShownGaps(xs, ns);
    ShownGaps(ys, ms);
  }

  /** Equal printed forms hold equally many gaps, with or without dollar signs. */
  lemma {:induction false} SheetGaps(xs: seq<Item<string>>, ns: seq<Item<nat>>, ys: seq<Item<string>>, ms: seq<Item<nat>>)
    requires Sheet(xs) && Shape(xs, ns) && Sheet(ys) && Shape(ys, ms) && Print(ns) == Print(ms)
    ensures Gaps(xs) == Gaps(ys)
    decreases |xs|
  {
    hide Sheet, Shape, LineOk, Print, Gaps;
    ShapeLength(xs, ns);
    ShapeLength(ys, ms);
    if xs != [] { SheetLine(xs, ns); }
    if ys != [] { SheetLine(ys, ms); }
    if xs != [] && ys != [] {
      var e, f := EolAt(xs), EolAt(ys);
      SameFirstLine(Print(ns[..e]), Print(ns[e + 1..]), Print(ms[..f]), Print(ms[f + 1..]));
      LineGaps(xs[..e], ns[..e], ys[..f], ms[..f]);
      SheetGaps(xs[e + 1..], ns[e + 1..], ys[f + 1..], ms[f + 1..]);
      GapsAround(xs, e);
      GapsAround(ys, f);
    }
  }

  lemma GapsAround(xs: seq<Item<string>>, e: nat)
    requires e < |xs| && xs[e] == Eol
    ensures Gaps(xs) == Gaps(xs[..e]) + Gaps(xs[e + 1..])
  {
    assert xs == xs[..e] + ([Eol] + xs[e + 1..]);
    GapsConcat(xs[..e], [Eol] + xs[e + 1..]);
    GapsCons(Eol, xs[e + 1..]);
  }

  /** The form of a text from which comments were dropped. */
  function Form(a: string): string { Print(Numbered(Items(a))) }

  ghost predicate SameForm(a: string, b: string) { Form(a) == Form(b) }

  lemma FormGaps(a: string, b: string)
    requires SameForm(a, b)
    ensures Gaps(Items(a)) == Gaps(Items(b))
  {
    hide Items, Numbered, Print, Sheet, Gaps, Shape;
    NumberedShape(Items(a));
    NumberedShape(Items(b));
    TextSheet(a);
    TextSheet(b);
    SheetGaps(Items(a), Numbered(Items(a)), Items(b), Numbered(Items(b)));
  }

  lemma TextSheet(a: string)
    ensures Sheet(Items(a))
  {
    hide Lines, ItemsOf, Sheet;
    LinesFree(a);
    ItemsSheet(Lines(a));
  }

  // ----- one line of a text -----

  /** Where the last line of a text starts. */
  function LastStart(a: string): (n: nat)
    ensures n <= |a|
  {
    if a == "" || a[|a| - 1] == '\n' then |a| else LastStart(a[..|a| - 1])
  }

  lemma {:induction false} LastLine(a: string)
    ensures NoNewline(a[LastStart(a)..]) && (LastStart(a) > 0 ==> a[LastStart(a) - 1] == '\n')
    decreases |a|
  {
    if a != "" && a[|a| - 1] != '\n' {
      var b, n := a[..|a| - 1], LastStart(a);
      LastLine(b);
      assert a[n..] == b[n..] + [a[|a| - 1]];
    }
  }

  lemma {:induction false} ItemsOfConcat(ls: seq<string>, ms: seq<string>)
    ensures ItemsOf(ls + ms) == ItemsOf(ls) + ItemsOf(ms)
    decreases |ls|
  {
    hide LineItems;
    if ls == [] {
      assert ls + ms == ms;
    } else {
      assert (ls + ms)[1..] == ls[1..] + ms;
      ItemsOfConcat(ls[1..], ms);
    }
  }

  /** The lines around one line of a text. */
  lemma {:induction false} LinesAround(a: string, l: string, u: string)
    requires (a != "" ==> a[|a| - 1] == '\n') && NoNewline(l) && l + u != "" && (u != "" ==> u[0] == '\n')
    ensures Lines(a + l + u) == Lines(a) + [l] + if u == "" then [] else Lines(u[1..])
    decreases |a|
  {
    NoLinesYet();
    hide NoNewline, LineEnd, Lines;
    if a == "" {
      assert a + l + u == l + u;
      LinesFrom(l, u);
    } else {
      HeadFree(a);
      HeadEnds(a);
      var e := LineEnd(a, 0);
      var x, rest := a[..e], a[e + 1..];
      LinesAround(rest, l, u);
      LineThen(x, rest);
      LineThen(x, rest + l + u);
      assert a == x + ("\n" + rest);
      CatLine(x, rest, l, u);
      CatLines(x, Lines(rest), l, if u == "" then [] else Lines(u[1..]));
    }
  }

  lemma CatLine(x: string, rest: string, l: string, u: string)
    ensures x + ("\n" + rest) + l + u == x + ("\n" + (rest + l + u))
  {
  }

  lemma CatLines(x: string, ls: seq<string>, l: string, after: seq<string>)
    ensures [x] + (ls + [l] + after) == [x] + ls + [l] + after
  {
  }

  lemma NoLinesYet()
    ensures Lines("") == []
  {
  }

  lemma LineThen(x: string, rest: string)
    requires NoNewline(x)
    ensures Lines(x + ("\n" + rest)) == [x] + Lines(rest)
  {
    hide Lines, NoNewline;
    assert ("\n" + rest)[1..] == rest;
    LinesFrom(x, "\n" + rest);
  }

  lemma HeadEnds(a: string)
    requires a != "" && a[|a| - 1] == '\n'
    ensures var e := LineEnd(a, 0); e < |a| && a[e] == '\n' && (a[e + 1..] != "" ==> a[e + 1..][|a[e + 1..]| - 1] == '\n')
  {
    LineEndFree(a, 0);
  }

  /** The items around one line of a text. */
  lemma ItemsAround(a: string, l: string, u: string)
    requires (a != "" ==> a[|a| - 1] == '\n') && NoNewline(l) && (u != "" ==> u[0] == '\n')
    ensures Items(a + l + u) ==
            Items(a) + Ended(LineItems(l)) + if u == "" then [] else ItemsOf(Lines(u[1..]))
  {
    NothingInLine();
    hide LineItems, Lines, NoNewline, Ended, ItemsOf;
    if l + u == "" {
      assert a + l + u == a;
    } else {
      LinesAround(a, l, u);
      var after := if u == "" then [] else Lines(u[1..]);
      CatAfter(Lines(a), l, after);
      ItemsOfConcat(Lines(a), [l] + after);
      ItemsCons(l, after);
      CatItems(ItemsOf(Lines(a)), Ended(LineItems(l)), ItemsOf(after));
    }
  }

  lemma CatAfter(ls: seq<string>, l: string, after: seq<string>)
    ensures ls + [l] + after == ls + ([l] + after)
  {
  }

  lemma CatItems(a: seq<Item<string>>, b: seq<Item<string>>, c: seq<Item<string>>)
    ensures a + (b + c) == a + b + c
  {
  }

  lemma ItemsCons(l: string, ls: seq<string>)
    ensures ItemsOf([l] + ls) == Ended(LineItems(l)) + ItemsOf(ls)
  {
    hide LineItems;
    assert ([l] + ls)[1..] == ls;
  }

  lemma NothingInLine()
    ensures Ended(LineItems("")) == [] && ItemsOf([]) == []
  {
  }

  /** Two texts that meet in two word characters. */
  predicate Meet(s: string, t: string) { s != "" && t != "" && IdChar(s[|s| - 1]) && IdChar(t[0]) }

  lemma SameItems(a: string, b: string)
    requires Items(a) == Items(b)
    ensures SameForm(a, b)
  {
    hide Items;
  }

  lemma BlankTexts()
    ensures AllBlank("") && NoNewline("") && AllBlank(" ") && NoNewline(" ") && AllEdge("") && AllEdge(" ")
  {
  }
}
