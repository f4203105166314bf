/** Comments in the normal form of memfn/src/formhash.c: exactly when dropping one reads as the space the language
    reads there. */
module FormComment {
  import opened Text
  import opened FormLex
  import opened FormNames
  import opened FormNormal
  import opened FormTells
  import opened FormSpace

  // ----- a line cut in two -----

  /** Trailing blanks dropped. */
  function TrimBlanks(s: string): (r: string)
    ensures |r| <= |s|
    decreases |s|
  {
    if s != "" && IsBlank(s[|s| - 1]) then TrimBlanks(s[..|s| - 1]) else s
  }

  lemma {:induction false} TrimBlanksIs(s: string)
    ensures var r := TrimBlanks(s);
            r == s[..|r|] && AllBlank(s[|r|..]) && (r != "" ==> !IsBlank(r[|r| - 1]))
    decreases |s|
  {
    if s != "" && IsBlank(s[|s| - 1]) {
      var n := |s| - 1;
      TrimBlanksIs(s[..n]);
      assert s[|TrimBlanks(s)|..] == s[..n][|TrimBlanks(s)|..] + [s[n]];
    }
  }

  /** The part of a line that a cut leaves before it, without the white space around. */
  function Before(l: string): string { TrimBlanks(TrimStart(l)) }

  /** A literal of the line is still open at the cut. */
  predicate OpenAt(l: string) { Before(l) != "" && !AllClosed(Lex(false, Before(l))) }

  lemma MidTrimmed(s: string, mid: string, t: string)
    requires s != "" && !Edge(s[0]) && t != "" && !Edge(t[|t| - 1])
    ensures Trimmed(s + mid + t)
  {
  }

  lemma CatMiddle(lead: string, s: string, mid: string, t: string, trail: string)
    ensures (lead + s) + mid + (t + trail) == lead + (s + mid + t) + trail
  {
  }

  lemma TrimParts(l: string)
    ensures var s := TrimStart(l);
            l == l[..|l| - |s|] + s && AllEdge(l[..|l| - |s|]) && (s != "" ==> !Edge(s[0]))
    ensures var t := TrimEnd(l); l == t + l[|t|..] && AllEdge(l[|t|..]) && (t != "" ==> !Edge(t[|t| - 1]) && t[0] == l[0])
  {
    hide TrimStart, TrimEnd, Edge, AllEdge;
    TrimStartIs(l);
    TrimStartSkips(l);
    TrimEndIs(l);
    TrimEndSkips(l);
  }

  /** A line cut between visible characters. */
  lemma CutTrim(p: string, mid: string, q: string)
    requires TrimStart(p) != "" && TrimEnd(q) != ""
    ensures Trim(p + mid + q) == TrimStart(p) + mid + TrimEnd(q)
  {
    hide TrimStart, TrimEnd, Trim, AllEdge, Edge, Trimmed;
    var s, t := TrimStart(p), TrimEnd(q);
    TrimParts(p);
    TrimParts(q);
    MidTrimmed(s, mid, t);
    TrimMiddle(p[..|p| - |s|], s + mid + t, q[|t|..]);
    CatMiddle(p[..|p| - |s|], s, mid, t, q[|t|..]);
  }

  /** White space at an end of the visible part is trimmed away. */
  lemma CutOutside(p: string, mid: string, q: string)
    requires (TrimStart(p) == "" || TrimEnd(q) == "") && AllEdge(mid)
    ensures Trim(p + mid + q) == Trim(p + q)
  {
    hide TrimStart, TrimEnd, Trim, Edge, Trimmed, AllEdge;
    TrimParts(p);
    TrimParts(q);
    if TrimEnd(q) == "" {
      EdgesJoin(mid, q);
      EdgesAfter(p, mid + q);
      EdgesAfter(p, q);
      assert p + mid + q == p + (mid + q);
    } else {
      assert p[..|p| - 0] == p;
      EdgesJoin(p, mid);
      EdgesBefore(p + mid, q);
      EdgesBefore(p, q);
    }
  }

  lemma EdgesJoin(a: string, b: string)
    requires AllEdge(a) && AllEdge(b)
    ensures AllEdge(a + b)
  {
  }

  lemma EdgesAfter(p: string, r: string)
    requires AllEdge(r)
    ensures Trim(p + r) == Trim(p)
  {
    hide TrimStart, TrimEnd, Trim, Edge, Trimmed, AllEdge;
    var s := TrimStart(p);
    var m := TrimEnd(s);
    TrimParts(p);
    TrimParts(s);
    TrimIsTrimmed(p);
    var lead, trail := p[..|p| - |s|], s[|m|..];
    EdgesJoin(trail, r);
    TrimMiddle(lead, m, trail);
    TrimMiddle(lead, m, trail + r);
    assert p == lead + s && s == m + trail;
    CatTrail(lead, m, trail, r);
  }

  lemma EdgesBefore(r: string, q: string)
    requires AllEdge(r)
    ensures Trim(r + q) == Trim(q)
  {
    hide TrimStart, TrimEnd, Trim, Edge, Trimmed, AllEdge;
    var s := TrimStart(q);
    var m := TrimEnd(s);
    TrimParts(q);
    TrimParts(s);
    TrimIsTrimmed(q);
    EdgesJoin(r, q[..|q| - |s|]);
    var lead := q[..|q| - |s|];
    var trail := s[|m|..];
    TrimMiddle(lead, m, trail);
    TrimMiddle(r + lead, m, trail);
    assert q == lead + s && s == m + trail;
    CatLead(r, lead, m, trail);
  }

  lemma CatTrail(lead: string, m: string, trail: string, r: string)
    ensures lead + (m + trail) == lead + m + trail && (lead + m + trail) + r == lead + m + (trail + r)
  {
  }

  lemma CatLead(r: string, lead: string, m: string, trail: string)
    ensures lead + (m + trail) == lead + m + trail && r + (lead + m + trail) == (r + lead) + m + trail
  {
  }

  // ----- a cut inside an open literal -----

  /** An open literal swallows what follows, at least up to the first visible character. */
  lemma {:induction false} LitLong(c: string, q: char, j: nat, r: string, t: string)
    requires Quote(q) && AllBlank(r) && t != "" && j <= |c| + |r| + 1 && (j <= |c| ==> !Closes(c, q, j))
    ensures LitEnd(c + (r + t), q, j) > |c| + |r|
    decreases |c| + |r| + 1 - j
  {
    var s := c + (r + t);
    if j <= |c| + |r| {
      if j < |c| { assert s[j] == c[j]; } else if j < |c| + |r| { assert s[j] == r[j - |c|]; }
      var e := LitEnd(s, q, j);
      if s[j] != q {
        var k := if s[j] == '\\' && j + 1 < |s| then j + 2 else j + 1;
        assert e == LitEnd(s, q, k);
        if k <= |c| + |r| + 1 { LitLong(c, q, k, r, t); }
      }
    }
  }

  /** The tokens of a line that goes on after an open literal. */
  lemma {:induction false} OpenLex(w: bool, p: string, r: string, t: string) returns (l: string, more: seq<Tok>)
    requires !AllClosed(Lex(w, p)) && AllBlank(r) && t != ""
    ensures var ts := Lex(w, p);
            && ts != [] && ts[|ts| - 1].Lit?
            && Lex(w, p + (r + t)) == ts[..|ts| - 1] + ([Lit(l)] + more)
            && ts[|ts| - 1].raw + (r + [t[0]]) <= l
    decreases |p|
  {
    NothingOpen(w, p);
    hide LitEnd, Closes, AllBlank, AllClosed, Lex, First, Quote;
    if Quote(p[0]) && !Closes(p, p[0], 1) {
      l, more := OpenFirst(w, p, r, t);
      assert [Lit(p)][..0] == [];
    } else {
      var f := First(w, p);
      var n, v := |Raw(f)|, EndsWord(f);
      var u := p[n..];
      var rest := Lex(v, u);
      LexOnce(w, p);
      ClosedHead(w, p, rest);
      NothingOpen(v, u);
      l, more := OpenLex(v, u, r, t);
      OpenNext(w, p, r + t);
      var ts := [f] + rest;
      assert ts[..|ts| - 1] == [f] + rest[..|rest| - 1];
      CatToks(f, rest[..|rest| - 1], [Lit(l)] + more);
    }
  }

  lemma CatToks(f: Tok, a: seq<Tok>, b: seq<Tok>)
    ensures [f] + (a + b) == ([f] + a) + b
  {
  }

  lemma NothingOpen(w: bool, p: string)
    ensures !AllClosed(Lex(w, p)) ==> p != ""
  {
  }

  lemma OpenFirst(w: bool, p: string, r: string, t: string) returns (l: string, more: seq<Tok>)
    requires p != "" && Quote(p[0]) && !Closes(p, p[0], 1) && AllBlank(r) && t != ""
    ensures Lex(w, p) == [Lit(p)] && Lex(w, p + (r + t)) == [Lit(l)] + more && p + (r + [t[0]]) <= l
  {
    var s := p + (r + t);
    var e := LitEnd(s, p[0], 1);
    LitAppend(p, p[0], 1, "");
    LitLong(p, p[0], 1, r, t);
    LexOnce(w, p);
    LexOnce(w, s);
    assert p[..|p|] == p && p[|p|..] == "" && !IsBlank(p[0]);
    hide LitEnd, Lex, Closes, First;
    l, more := s[..e], Lex(EndsWord(Lit(s[..e])), s[e..]);
    assert Lex(w, p) == [Lit(p)] + Lex(EndsWord(Lit(p)), "");
    EmptyLex("");
    FrontOf(p, r, t, e);
  }

  lemma FrontOf(p: string, r: string, t: string, e: nat)
    requires t != "" && |p| + |r| < e <= |p + (r + t)|
    ensures p + (r + [t[0]]) <= (p + (r + t))[..e]
  {
    var n, s := |p| + |r| + 1, p + (r + t);
    assert s[..n] == p + (r + [t[0]]);
    assert s[..e][..n] == s[..n];
  }

  /** A token that something follows does not see what stands further on. */
  lemma OpenNext(w: bool, p: string, z: string)
    requires p != "" && |Raw(First(w, p))| < |p|
    ensures var f := First(w, p); Lex(w, p + z) == [f] + Lex(EndsWord(f), p[|Raw(f)|..] + z)
  {
    hide LitEnd, Closes, TokOk, Lex, First;
    var f := First(w, p);
    var v := EndsWord(f);
    var u := p[|Raw(f)|..];
    assert p == Raw(f) + u && u[0] == (u + z)[0];
    FirstOk(w, p);
    FirstStarts(v, u);
    CatFirst(Raw(f), u, z);
    FirstReads(w, f, Lex(v, u), u + z);
    LexOnce(w, p + z);
  }

  lemma CatFirst(f: string, u: string, z: string)
    ensures (f + u) + z == f + (u + z) && (f + (u + z))[|f|..] == u + z
  {
  }

  lemma ClosedHead(w: bool, p: string, rest: seq<Tok>)
    requires p != "" && !AllClosed([First(w, p)] + rest) && !(Quote(p[0]) && !Closes(p, p[0], 1))
    ensures !AllClosed(rest)
  {
    hide LitEnd, Closes;
    if Quote(p[0]) { LitCut(p, p[0], 1); }
    if AllClosed(rest) {
      var ts := [First(w, p)] + rest;
      forall i | 0 <= i < |ts| && ts[i].Lit? && ts[i].raw != ""
        ensures Closes(ts[i].raw, ts[i].raw[0], 1)
      {
        if i > 0 { assert ts[i] == rest[i - 1]; }
      }
    }
  }

  lemma LitFirst(w: bool, l: string, more: seq<Tok>)
    ensures Squeeze(w, [Lit(l)] + more) == [Keep(Lit(l))] + Squeeze(EndsWord(Lit(l)), more)
  {
    hide EndsWord, Squeeze, ItemOf, StartsWord;
    SqueezeStep(w, [Lit(l)] + more);
    LitKept(l);
    assert ([Lit(l)] + more)[1..] == more;
  }

  lemma {:induction false} SqueezeLit(w: bool, a: seq<Tok>, l: string, more: seq<Tok>)
    ensures Squeeze(w, a + ([Lit(l)] + more)) ==
            Squeeze(w, a) + ([Keep(Lit(l))] + Squeeze(EndsWord(Lit(l)), more))
    decreases |a|
  {
    hide EndsWord, Squeeze, ItemOf, StartsWord;
    var b := [Lit(l)] + more;
    if a == [] {
      LitFirst(w, l, more);
      assert a + b == b;
      SqueezeEmpty(w);
    } else {
      assert (a + b)[1..] == a[1..] + b;
      LitKept(l);
      if |a| > 1 {
        assert (a + b)[1] == a[1];
      } else {
        assert (a + b)[1] == Lit(l);
      }
      SqueezeStep(w, a);
      SqueezeStep(w, a + b);
      var v := if !a[0].Gap? then EndsWord(a[0]) else if w && |a| > 1 && StartsWord(a[1]) then false else w;
      SqueezeLit(v, a[1..], l, more);
    }
  }

  lemma LitKept(l: string)
    ensures ItemOf(Lit(l)) == Keep(Lit(l)) && !StartsWord(Lit(l))
  {
  }

  lemma SqueezeEmpty(w: bool)
    ensures Squeeze(w, []) == []
  {
  }

  lemma SqueezeStep(w: bool, ts: seq<Tok>)
    requires ts != []
    ensures Squeeze(w, ts) ==
      if !ts[0].Gap? then [ItemOf(ts[0])] + Squeeze(EndsWord(ts[0]), ts[1..])
      else if w && |ts| > 1 && StartsWord(ts[1]) then [Keep(Gap(" "))] + Squeeze(false, ts[1..])
      else Squeeze(w, ts[1..])
  {
    hide ItemOf;
  }

  /** The form up to an item that is kept. */
  lemma PrintThrough(xs: seq<Item<string>>, t: Tok, ys: seq<Item<string>>)
    ensures Print(Numbered(xs)) + Raw(t) <= Print(Numbered(xs + ([Keep(t)] + ys)))
  {
    hide Print, Numbered, Table, Raw;
    var all := xs + ([Keep(t)] + ys);
    var n, ns := |xs|, Numbered(all);
    forall i | 0 <= i < n
      ensures ns[i] == Numbered(xs)[i]
    {
      NumberedAt(all, i);
      NumberedAt(xs, i);
      assert all[..i] == xs[..i];
    }
    NumberedAt(all, n);
    assert ns[n] == Keep(t);
    assert ns == Numbered(xs) + ([Keep(t)] + ns[n + 1..]);
    PrintConcat(Numbered(xs), [Keep(t)] + ns[n + 1..]);
    PrintKept(t, ns[n + 1..]);
    CatEnd(Print(Numbered(xs)), Raw(t), Print(ns[n + 1..]));
  }

  lemma CatEnd(a: string, b: string, c: string)
    ensures a + b <= a + (b + c)
  {
  }

  /** The form of a text one of whose lines goes on after an open literal. */
  lemma OpenForm(before: seq<Item<string>>, p: string, r: string, t: string, after: seq<Item<string>>) returns (head: string)
    requires !AllClosed(Lex(false, p)) && AllBlank(r) && t != ""
    ensures Lex(false, p) != [] && head == OpenHead(before, p)
    ensures head + (r + [t[0]]) <=
            Print(Numbered(before + Ended(Squeeze(false, Lex(false, p + (r + t)))) + after))
  {
    hide AllClosed, Lex, Squeeze, Print, Numbered, AllBlank;
    var ts := Lex(false, p);
    var l, more := OpenLex(false, p, r, t);
    var a := ts[..|ts| - 1];
    SqueezeLit(false, a, l, more);
    var rest := Squeeze(EndsWord(Lit(l)), more) + [Eol] + after;
    var x: Item<string> := Keep(Lit(l));
    CatLit(before, Squeeze(false, a), x, Squeeze(EndsWord(Lit(l)), more), after);
    PrintThrough(before + Squeeze(false, a), Lit(l), rest);
    head := OpenHead(before, p);
    var form := Print(Numbered(before + Ended(Squeeze(false, Lex(false, p + (r + t)))) + after));
    var c := ts[|ts| - 1].raw;
    CatPrefix(Print(Numbered(before + Squeeze(false, a))), c, r + [t[0]], l, form);
  }

  lemma CatPrefix(a: string, c: string, d: string, l: string, form: string)
    requires c + d <= l && a + l <= form
    ensures a + c + d <= form
  {
    assert a + c + d == a + (c + d);
    assert a + l[..|c + d|] == (a + l)[..|a| + |c + d|];
  }

  lemma CatLit(before: seq<Item<string>>, s: seq<Item<string>>, x: Item<string>, m: seq<Item<string>>,
               after: seq<Item<string>>)
    ensures before + Ended(s + ([x] + m)) + after == (before + s) + ([x] + (m + [Eol] + after))
  {
  }

  /** The form up to the end of an open literal. */
  function OpenHead(before: seq<Item<string>>, p: string): string {
    var ts := Lex(false, p);
    if ts == [] then "" else
    Print(Numbered(before + Squeeze(false, ts[..|ts| - 1]))) + Raw(ts[|ts| - 1])
  }

  // ----- the two forms of a cut -----

  lemma GapsAbout(a: seq<Item<string>>, line: seq<Item<string>>, c: seq<Item<string>>)
    ensures Gaps(a + Ended(line) + c) == Gaps(a) + Gaps(line) + Gaps(c)
  {
    hide Gaps, Ended;
    EndedGaps(line);
    GapsConcat(a + Ended(line), c);
    GapsConcat(a, Ended(line));
  }

  lemma EndedGaps(xs: seq<Item<string>>)
    ensures Gaps(Ended(xs)) == Gaps(xs)
  {
    hide Gaps;
    if xs != [] {
      GapsConcat(xs, [Eol]);
      OneEol();
    }
  }

  lemma OneEol()
    ensures Gaps([Eol]) == 0
  {
    GapsCons(Eol, []);
  }

  /** What a text around the line `m` has as items. */
  function Around(before: seq<Item<string>>, m: string, after: seq<Item<string>>): seq<Item<string>> {
    before + Ended(Squeeze(false, Lex(false, m))) + after
  }

  /** White space beside the cut. */
  lemma CutSpaced(before: seq<Item<string>>, p: string, r: string, r': string, q: string, after: seq<Item<string>>)
    requires Front(p) && q != "" && !IsBlank(q[0]) && r != "" && AllBlank(r) && r' != "" && AllBlank(r')
    ensures Around(before, p + r + q, after) == Around(before, p + r' + q, after)
  {
    hide Front, AllBlank, Squeeze, Lex;
    InnerSpace(p, r, r', q);
  }

  /** No white space beside the cut. */
  lemma CutTight(before: seq<Item<string>>, p: string, q: string, after: seq<Item<string>>, f: string, g: string)
    requires Front(p) && p != "" && q != "" && !IsBlank(q[0])
    requires Items(f) == Around(before, p + q, after) && Items(g) == Around(before, p + " " + q, after)
    ensures SameForm(f, g) == !Meet(p, q)
  {
    BlankTexts();
    hide Form, Front, Items, Squeeze, Lex, Ended, SameForm, Gaps, AllBlank;
    InnerSpaceIff(p, " ", q);
    if Meet(p, q) {
      GapCounts(p, " ", q);
      GapsAbout(before, Squeeze(false, Lex(false, p + q)), after);
      GapsAbout(before, Squeeze(false, Lex(false, p + " " + q)), after);
      if SameForm(f, g) { FormGaps(f, g); }
    } else {
      SameItems(f, g);
    }
  }

  /** A cut inside an open literal. */
  lemma CutOpen(before: seq<Item<string>>, p: string, r1: string, r2: string, q: string, after: seq<Item<string>>,
                f: string, g: string)
    requires !AllClosed(Lex(false, p)) && AllBlank(r1) && AllBlank(r2) && q != "" && !IsBlank(q[0])
    requires Items(f) == Around(before, p + (r1 + r2 + q), after)
    requires Items(g) == Around(before, p + (r1 + " " + r2 + q), after)
    ensures !SameForm(f, g)
  {
    var x, y := r1 + r2, r1 + " " + r2;
    WiderBlank(r1, r2);
    hide AllClosed, Squeeze, Lex, Ended, Numbered, Print, AllBlank, Items, OpenHead;
    var h := OpenForm(before, p, x, q, after);
    var k := OpenForm(before, p, y, q, after);
    if Form(f) == Form(g) { Differ(h, x, y, q[0], Form(f)); }
  }

  lemma WiderBlank(r1: string, r2: string)
    requires AllBlank(r1) && AllBlank(r2)
    ensures AllBlank(r1 + r2) && AllBlank(r1 + " " + r2)
  {
  }

  lemma Differ(h: string, x: string, y: string, c: char, f: string)
    requires !IsBlank(c) && AllBlank(y) && |y| == |x| + 1 && h + (x + [c]) <= f
    ensures !(h + (y + [c]) <= f)
  {
    var n := |h| + |x|;
    assert (h + (x + [c]))[n] == c;
    assert (h + (y + [c]))[n] == y[|x|];
  }

  // ----- the comment -----

  /** A text cut in one of its lines: the line's two parts, and the items of the lines around them. */
  lemma CutLine(s: string, mid: string, t: string) returns (before: seq<Item<string>>, after: seq<Item<string>>)
    requires NoNewline(mid)
    ensures before == Items(s[..LastStart(s)])
    ensures after == var u := t[LineEnd(t, 0)..]; if u == "" then [] else ItemsOf(Lines(u[1..]))
    ensures Items(s + mid + t) == before + Ended(LineItems(LastOf(s) + mid + FirstOf(t))) + after
  {
    hide Items, LineItems, Lines, ItemsOf, Ended, NoNewline;
    var n, e := LastStart(s), LineEnd(t, 0);
    var p, q, u := s[n..], t[..e], t[e..];
    LastLine(s);
    HeadFree(t);
    HeadStops(t);
    JoinNoNewline(p, mid);
    JoinNoNewline(p + mid, q);
    before := Items(s[..n]);
    after := if u == "" then [] else ItemsOf(Lines(u[1..]));
    ItemsAround(s[..n], p + mid + q, u);
    hide *;
    FiveParts(s, n, mid, t, e);
  }

  lemma FiveParts(s: string, n: nat, mid: string, t: string, e: nat)
    requires n <= |s| && e <= |t|
    ensures s + mid + t == s[..n] + (s[n..] + mid + t[..e]) + t[e..]
  {
    assert s == s[..n] + s[n..] && t == t[..e] + t[e..];
  }

  lemma HeadStops(t: string)
    ensures var u := t[LineEnd(t, 0)..]; u != "" ==> u[0] == '\n'
  {
    LineEndStops(t, 0);
  }

  /** The last and the first line of a text. */
  function LastOf(s: string): string { s[LastStart(s)..] }

  function FirstOf(t: string): string { t[..LineEnd(t, 0)] }

  /** Whether a line shows anything. */
  predicate Shows(l: string) { TrimEnd(l) != "" }

  lemma MeetInLine(s: string, t: string)
    ensures var p, q := TrimStart(LastOf(s)), TrimEnd(FirstOf(t));
            Meet(s, t) == (p != "" && q != "" && Meet(p, q))
  {
    hide LastOf, FirstOf, TrimStart, TrimEnd;
    EndOf(s);
    StartOf(t);
  }

  lemma EndOf(s: string)
    ensures var p := TrimStart(LastOf(s)); (s != "" && IdChar(s[|s| - 1])) == (p != "" && IdChar(p[|p| - 1]))
  {
    var l := LastOf(s);
    LastLine(s);
    hide LastStart, TrimStart, TrimEnd, NoNewline, AllEdge;
    TrimParts(l);
    EdgeEnds(l);
    var p := TrimStart(l);
    if p != "" {
      assert l[|l| - 1] == p[|p| - 1] && l[|l| - 1] == s[|s| - 1];
    } else if l != "" {
      assert l[..|l| - 0] == l && l[|l| - 1] == s[|s| - 1];
    }
  }

  lemma StartOf(t: string)
    ensures var q := TrimEnd(FirstOf(t)); (t != "" && IdChar(t[0])) == (q != "" && IdChar(q[0]))
  {
    var m := FirstOf(t);
    HeadStops(t);
    hide LineEnd, TrimStart, TrimEnd, AllEdge;
    TrimParts(m);
    EdgeEnds(m);
    if m != "" { assert m[0] == t[0]; } else { assert t[LineEnd(t, 0)..] == t; }
  }

  lemma EdgeEnds(l: string)
    ensures AllEdge(l) && l != "" ==> !IdChar(l[0]) && !IdChar(l[|l| - 1])
  {
  }

  /** The two parts of a line, white space apart. */
  lemma CutParts(l: string, m: string) returns (p: string, r1: string, r2: string, q: string)
    requires TrimStart(l) != "" && TrimEnd(m) != ""
    ensures p == Before(l) && p != "" && q != "" && !IsBlank(p[|p| - 1]) && !IsBlank(q[0]) && AllBlank(r1) && AllBlank(r2)
    ensures TrimStart(l) == p + r1 && TrimEnd(m) == r2 + q
  {
    TrimParts(l);
    TrimParts(m);
    hide *;
    p, r1 := LastVisible(TrimStart(l));
    r2, q := FirstVisible(TrimEnd(m));
    BeforeIs(l);
  }

  lemma BeforeIs(l: string)
    ensures Before(l) == TrimBlanks(TrimStart(l))
  {
  }

  lemma LastVisible(x: string) returns (p: string, r: string)
    requires x != "" && !Edge(x[0])
    ensures p == TrimBlanks(x) && p != "" && !IsBlank(p[|p| - 1]) && AllBlank(r) && x == p + r
  {
    TrimBlanksIs(x);
    hide TrimBlanks, Edge, IsBlank, AllBlank;
    p := TrimBlanks(x);
    r := x[|p|..];
    NotAllBlank(r);
  }

  lemma FirstVisible(y: string) returns (r: string, q: string)
    requires y != "" && !Edge(y[|y| - 1])
    ensures q != "" && !IsBlank(q[0]) && AllBlank(r) && y == r + q
  {
    BlankRunIs(y);
    hide BlankRun, Edge, IsBlank, AllBlank;
    r, q := y[..BlankRun(y)], y[BlankRun(y)..];
    NotAllBlank(r);
  }

  lemma NotAllBlank(r: string)
    ensures AllBlank(r) && r != "" ==> Edge(r[0]) && Edge(r[|r| - 1])
  {
  }

  /** A space put between two parts of a text without comments: when the form does not see it. */
  lemma CutIff(s: string, t: string)
    ensures SameForm(s + t, s + " " + t) <==> !Meet(s, t) && !(OpenAt(LastOf(s)) && Shows(FirstOf(t)))
  {
    BlankTexts();
    hide Form, Items, LineItems, Ended, OpenAt, TrimStart, TrimEnd, Meet, NoNewline, AllEdge, SameForm, LineEnd, LastStart;
    var before, after := CutLine(s, "", t);
    var before', after' := CutLine(s, " ", t);
    assert s + "" + t == s + t;
    var l, m := LastOf(s), FirstOf(t);
    assert l + "" + m == l + m;
    MeetInLine(s, t);
    if TrimStart(l) == "" || TrimEnd(m) == "" {
      CutOutside(l, " ", m);
      SameLineItems(l + " " + m, l + m);
      SameItems(s + t, s + " " + t);
      HiddenFront(l);
    } else {
      CutTrim(l, "", m);
      CutTrim(l, " ", m);
      CutInside(s, t, before, after);
    }
  }

  lemma SameLineItems(x: string, y: string)
    requires Trim(x) == Trim(y)
    ensures LineItems(x) == LineItems(y)
  {
  }

  lemma HiddenFront(l: string)
    ensures TrimStart(l) == "" ==> !OpenAt(l)
  {
  }

  lemma CutInside(s: string, t: string, before: seq<Item<string>>, after: seq<Item<string>>)
    requires TrimStart(LastOf(s)) != "" && TrimEnd(FirstOf(t)) != ""
    requires var l, m := LastOf(s), FirstOf(t);
             && Trim(l + m) == TrimStart(l) + "" + TrimEnd(m) && Trim(l + " " + m) == TrimStart(l) + " " + TrimEnd(m)
             && Items(s + t) == before + Ended(LineItems(l + m)) + after
             && Items(s + " " + t) == before + Ended(LineItems(l + " " + m)) + after
    ensures SameForm(s + t, s + " " + t) <==>
            !Meet(TrimStart(LastOf(s)), TrimEnd(FirstOf(t))) && !OpenAt(LastOf(s))
  {
    var l, m := LastOf(s), FirstOf(t);
    hide Items, LastOf, FirstOf, TrimStart, TrimEnd, Trim, Ended, AllClosed, Squeeze, Lex, SameForm, Before;
    var p, r1, r2, q := CutParts(l, m);
    assert Items(s + t) == Around(before, Trim(l + m), after);
    assert Items(s + " " + t) == Around(before, Trim(l + " " + m), after);
    CatParts(p, r1, r2, q);
    CutCases(before, p, r1, r2, q, after, s + t, s + " " + t);
  }

  lemma CatParts(p: string, r1: string, r2: string, q: string)
    ensures (p + r1) + "" + (r2 + q) == p + (r1 + r2 + q) && (p + r1) + " " + (r2 + q) == p + (r1 + " " + r2 + q)
  {
  }

  lemma CutCases(before: seq<Item<string>>, p: string, r1: string, r2: string, q: string, after: seq<Item<string>>,
                 f: string, g: string)
    requires p != "" && q != "" && !IsBlank(p[|p| - 1]) && !IsBlank(q[0]) && AllBlank(r1) && AllBlank(r2)
    requires Items(f) == Around(before, p + (r1 + r2 + q), after)
    requires Items(g) == Around(before, p + (r1 + " " + r2 + q), after)
    ensures SameForm(f, g) <==> !Meet(p + r1, r2 + q) && AllClosed(Lex(false, p))
  {
    var x, y := r1 + r2, r1 + " " + r2;
    WiderBlank(r1, r2);
    CatCut(p, r1, r2, q);
    if !AllClosed(Lex(false, p)) {
      hide *;
      CutOpen(before, p, r1, r2, q, after, f, g);
    } else {
      assert Front(p);
      hide *;
      if x == "" {
        CutTight(before, p, q, after, f, g);
      } else {
        CutSpaced(before, p, x, y, q, after);
        SameItems(f, g);
        BlankApart(p, r1, r2, q);
      }
    }
  }

  lemma CatCut(p: string, r1: string, r2: string, q: string)
    ensures var x, y := r1 + r2, r1 + " " + r2;
            p + (x + q) == p + x + q && p + (y + q) == p + y + q &&
            (x == "" ==> p + r1 == p && r2 + q == q && x + q == q && y == " ")
  {
  }

  lemma BlankApart(p: string, r1: string, r2: string, q: string)
    requires AllBlank(r1) && AllBlank(r2) && r1 + r2 != ""
    ensures !Meet(p + r1, r2 + q)
  {
    BlankNoWord();
    if r1 != "" { assert (p + r1)[|p + r1| - 1] == r1[|r1| - 1]; } else { assert (r2 + q)[0] == r2[0]; }
  }

  lemma BlankNoWord()
    ensures forall c :: IsBlank(c) ==> !IdChar(c)
  {
  }

  /** The language reads a comment as a space. After a text that closes its literals and comments, the normal form
      agrees with that reading except in two cases: the comment separates two word characters, which dropping it joins;
      or it stands inside what the line's own lexer takes for an open literal, with something visible after it. */
  lemma CommentAsSpaceIff(a: string, c: string, b: string)
    requires Closed(a) && !HasClose(c)
    ensures NormalForm(a + ("/*" + c + "*/") + b) == NormalForm(a + " " + b) <==>
            !Meet(Strip(a), Strip(b)) && !(OpenAt(LastOf(Strip(a))) && Shows(FirstOf(Strip(b))))
  {
    hide Strip, Closed, HasClose, Items, Numbered, Print, Meet, OpenAt, Shows, LastOf, FirstOf;
    CommentsMoveNothing(a, c, b);
    StripConcat(a, b);
    StripSpace(a, b);
    CutIff(Strip(a), Strip(b));
  }

  lemma StripSpace(a: string, b: string)
    requires Closed(a)
    ensures Strip(a + " " + b) == Strip(a) + " " + Strip(b)
  {
    OneSpace();
    hide *;
    StripConcat(a, " " + b);
    StripConcat(" ", b);
    CatSpace(a, b);
    CatSpace(Strip(a), Strip(b));
  }

  lemma CatSpace(a: string, b: string)
    ensures a + " " + b == a + (" " + b)
  {
  }

  lemma OneSpace()
    ensures Closed(" ") && Strip(" ") == " "
  {
    assert " "[1..] == "";
  }

  /** Dropping a comment can join what it separated: two identifiers become one. */
  lemma CommentJoins()
    ensures NormalForm("a/**/b") != NormalForm("a b")
  {
    assert "a"[1..] == "" && "b"[1..] == "";
    assert Closed("a") && Strip("a") == "a" && Strip("b") == "b";
    assert "a" + ("/*" + "" + "*/") + "b" == "a/**/b" && "a" + " " + "b" == "a b";
    hide *;
    CommentAsSpaceIff("a", "", "b");
    WordsMeet();
  }

  lemma WordsMeet()
    ensures Meet("a", "b") && !HasClose("")
  {
  }
}
