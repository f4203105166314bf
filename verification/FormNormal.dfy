/** The normal form hashed by memfn/src/formhash.c, and what does and does not move it. */
module FormNormal {
  import opened Text
  import opened FormLex
  import opened FormNames

  // ----- from a text to its items -----

  predicate Edge(c: char) { c == ' ' || c == '\t' || c == '\r' }

  function TrimStart(s: string): (r: string)
    ensures |r| <= |s|
  {
    if s != "" && Edge(s[0]) then TrimStart(s[1..]) else s
  }

  function TrimEnd(s: string): (r: string)
    ensures |r| <= |s|
    decreases |s|
  {
    if s != "" && Edge(s[|s| - 1]) then TrimEnd(s[..|s| - 1]) else s
  }

  /** Trimming cuts a suffix that starts with a visible character, and a prefix that ends with one. */
  lemma {:induction false} TrimStartIs(s: string)
    ensures var r := TrimStart(s); r == s[|s| - |r|..] && (r != "" ==> !Edge(r[0]))
    decreases |s|
  {
    if s != "" && Edge(s[0]) { TrimStartIs(s[1..]); }
  }

  lemma {:induction false} TrimEndIs(s: string)
    ensures var r := TrimEnd(s); r == s[..|r|] && (r != "" ==> !Edge(r[|r| - 1]) && r[0] == s[0])
    decreases |s|
  {
    if s != "" && Edge(s[|s| - 1]) { TrimEndIs(s[..|s| - 1]); }
  }

  lemma TrimIsTrimmed(l: string)
    ensures Trimmed(Trim(l)) && Trimmed(TrimEnd(TrimStart(l)))
  {
    TrimStartIs(l);
    TrimEndIs(TrimStart(l));
  }

  function Trim(s: string): string { TrimEnd(TrimStart(s)) }

  /** White space inside a line survives, as one space, between two word characters only. */
  function Squeeze(w: bool, ts: seq<Tok>): seq<Item<string>>
    decreases |ts|
  {
    if ts == [] then []
    else if ts[0].Gap? then
      if w && |ts| > 1 && StartsWord(ts[1]) then [Keep(Gap(" "))] + Squeeze(false, ts[1..]) else Squeeze(w, ts[1..])
    else [ItemOf(ts[0])] + Squeeze(EndsWord(ts[0]), ts[1..])
  }

  function ItemOf(t: Tok): Item<string> {
    if t.Id? && !Kept(t.name) then Name(t.name) else Keep(t)
  }

  function LineItems(l: string): seq<Item<string>> { Squeeze(false, Lex(false, Trim(l))) }

  /** A blank line leaves nothing. */
  function Ended(xs: seq<Item<string>>): seq<Item<string>> { if xs == [] then [] else xs + [Eol] }

  function ItemsOf(lines: seq<string>): seq<Item<string>> {
    if lines == [] then [] else Ended(LineItems(lines[0])) + ItemsOf(lines[1..])
  }

  /** The items of a text from which comments were dropped. */
  function Items(a: string): seq<Item<string>> { ItemsOf(Lines(a)) }

  // ----- printing -----

  function PrintOne(x: Item<nat>): string {
    match x
    case Name(k) => "$" + Dec(k)
    case Keep(t) => Raw(t)
    case Eol => "\n"
  }

  function Print(xs: seq<Item<nat>>): string {
    if xs == [] then "" else PrintOne(xs[0]) + Print(xs[1..])
  }

  /** What is hashed for a source text. */
  function NormalForm(text: string): string { Print(Numbered(Items(Strip(text)))) }

  lemma {:induction false} PrintConcat(xs: seq<Item<nat>>, ys: seq<Item<nat>>)
    ensures Print(xs + ys) == Print(xs) + Print(ys)
    decreases |xs|
  {
    if xs == [] {
      assert xs + ys == ys;
    } else {
      assert (xs + ys)[1..] == xs[1..] + ys;
      PrintConcat(xs[1..], ys);
    }
  }

  lemma PrintKept(t: Tok, rest: seq<Item<nat>>)
    ensures Print([Keep(t)] + rest) == Raw(t) + Print(rest)
  {
    hide Raw;
    assert ([Keep(t)] + rest)[1..] == rest;
  }

  // ----- renaming identifiers -----

  /** A one-to-one map from identifiers that are renamed to such identifiers. */
  ghost predicate Renaming(f: map<string, string>) {
    && (forall n :: n in f ==> Renamed(n) && Renamed(f[n]))
    && (forall m, n :: m in f && n in f && f[m] == f[n] ==> m == n)
  }

  function RenameTok(f: map<string, string>, t: Tok): Tok {
    if t.Id? && t.name in f then Id(f[t.name]) else t
  }

  function RenameToks(f: map<string, string>, ts: seq<Tok>): (r: seq<Tok>)
    ensures |r| == |ts|
  {
    if ts == [] then [] else [RenameTok(f, ts[0])] + RenameToks(f, ts[1..])
  }

  /** A line with its identifiers replaced, its layout and everything else untouched. */
  function RenameLine(f: map<string, string>, l: string): string {
    var s := TrimStart(l);
    var m := TrimEnd(s);
    l[..|l| - |s|] + Render(RenameToks(f, Lex(false, m))) + s[|m|..]
  }

  function RenameText(f: map<string, string>, a: string): string
    decreases |a|
  {
    if a == "" then ""
    else
      var e := LineEnd(a, 0);
      RenameLine(f, a[..e]) + if e < |a| then ['\n'] + RenameText(f, a[e + 1..]) else []
  }

  function RenameItem(f: map<string, string>, x: Item<string>): Item<string> {
    if x.Name? && x.v in f then Name(f[x.v]) else x
  }

  function RenameItems(f: map<string, string>, xs: seq<Item<string>>): (r: seq<Item<string>>)
    ensures |r| == |xs| && forall i :: 0 <= i < |xs| ==> r[i] == RenameItem(f, xs[i])
  {
    seq(|xs|, i requires 0 <= i < |xs| => RenameItem(f, xs[i]))
  }

  lemma RenameTokKeeps(f: map<string, string>, w: bool, t: Tok, rest: seq<Tok>, rest': seq<Tok>)
    requires Renaming(f) && TokOk(w, t, rest) && (rest == [] <==> rest' == [])
    requires rest != [] ==> rest'[0] == RenameTok(f, rest[0])
    ensures TokOk(w, RenameTok(f, t), rest') && EndsWord(RenameTok(f, t)) == EndsWord(t)
  {
    hide Kept;
  }

  lemma {:induction false} RenamedWellFormed(f: map<string, string>, w: bool, ts: seq<Tok>)
    requires Renaming(f) && WellFormed(w, ts)
    ensures WellFormed(w, RenameToks(f, ts))
    decreases |ts|
  {
    hide Renaming, TokOk, RenameTok;
    if ts != [] {
      var rest, ts' := ts[1..], RenameToks(f, ts);
      RenamedWellFormed(f, EndsWord(ts[0]), rest);
      assert ts'[1..] == RenameToks(f, rest);
      RenameTokKeeps(f, w, ts[0], rest, ts'[1..]);
    }
  }

  lemma {:induction false} SqueezeRenamed(f: map<string, string>, w: bool, ts: seq<Tok>)
    requires Renaming(f)
    ensures Squeeze(w, RenameToks(f, ts)) == RenameItems(f, Squeeze(w, ts))
    decreases |ts|
  {
    hide Renaming, RenameTok, ItemOf, RenameItem, StartsWord, EndsWord, RenameItems;
    RenameItemsEmpty(f);
    if ts != [] {
      var rest, ts' := ts[1..], RenameToks(f, ts);
      assert ts'[1..] == RenameToks(f, rest);
      ItemRenamed(f, ts[0]);
      if |ts| > 1 {
        assert rest[0] == ts[1];
        assert ts'[1] == RenameTok(f, ts[1]);
        ItemRenamed(f, ts[1]);
      }
      RenameItemsPush(f, Keep(Gap(" ")), Squeeze(false, rest));
      RenameItemsPush(f, ItemOf(ts[0]), Squeeze(EndsWord(ts[0]), rest));
      assert RenameItem(f, Keep(Gap(" "))) == Keep(Gap(" ")) by { KeepRenamed(f, Gap(" ")); }
      if ts[0].Gap? && w && |ts| > 1 && StartsWord(ts[1]) {
        SqueezeRenamed(f, false, rest);
      } else if ts[0].Gap? {
        SqueezeRenamed(f, w, rest);
      } else {
        SqueezeRenamed(f, EndsWord(ts[0]), rest);
      }
    }
  }

  lemma RenameItemsEmpty(f: map<string, string>)
    ensures RenameItems(f, []) == []
  {
  }

  lemma RenameItemsPush(f: map<string, string>, x: Item<string>, xs: seq<Item<string>>)
    ensures RenameItems(f, [x] + xs) == [RenameItem(f, x)] + RenameItems(f, xs)
  {
  }

  lemma KeepRenamed(f: map<string, string>, t: Tok)
    ensures RenameItem(f, Keep(t)) == Keep(t)
  {
  }

  lemma ItemRenamed(f: map<string, string>, t: Tok)
    requires Renaming(f)
    ensures var t' := RenameTok(f, t);
            ItemOf(t') == RenameItem(f, ItemOf(t)) && t'.Gap? == t.Gap? && EndsWord(t') == EndsWord(t) &&
            StartsWord(t') == StartsWord(t)
  {
    hide Kept, IsId;
  }

  // ----- renaming a line renames its items -----

  predicate AllEdge(s: string) { forall i :: 0 <= i < |s| ==> Edge(s[i]) }

  predicate Trimmed(s: string) { s == "" || (!Edge(s[0]) && !Edge(s[|s| - 1])) }

  lemma {:induction false} TrimStartAt(lead: string, t: string)
    requires AllEdge(lead) && (t != "" ==> !Edge(t[0]))
    ensures TrimStart(lead + t) == t
    decreases |lead|
  {
    if lead == "" {
      assert lead + t == t;
    } else {
      assert (lead + t)[1..] == lead[1..] + t;
      TrimStartAt(lead[1..], t);
    }
  }

  lemma {:induction false} TrimEndAt(t: string, trail: string)
    requires AllEdge(trail) && (t != "" ==> !Edge(t[|t| - 1]))
    ensures TrimEnd(t + trail) == t
    decreases |trail|
  {
    if trail == "" {
      assert t + trail == t;
    } else {
      var n := |trail| - 1;
      assert (t + trail)[..|t| + n] == t + trail[..n];
      TrimEndAt(t, trail[..n]);
    }
  }

  /** Indentation and trailing white space do not reach the tokens. */
  lemma TrimMiddle(lead: string, mid: string, trail: string)
    requires AllEdge(lead) && AllEdge(trail) && Trimmed(mid)
    ensures Trim(lead + mid + trail) == mid
  {
    if mid == "" {
      assert lead + mid + trail == (lead + trail) + "";
      TrimStartAt(lead + trail, "");
      assert TrimEnd("") == "";
    } else {
      assert lead + mid + trail == lead + (mid + trail);
      TrimStartAt(lead, mid + trail);
      TrimEndAt(mid, trail);
    }
  }

  lemma {:induction false} TrimStartSkips(s: string)
    ensures AllEdge(s[..|s| - |TrimStart(s)|])
    decreases |s|
  {
    if s != "" && Edge(s[0]) {
      var n := |s| - |TrimStart(s)|;
      TrimStartSkips(s[1..]);
      assert s[..n] == [s[0]] + s[1..][..n - 1];
    }
  }

  lemma {:induction false} TrimEndSkips(s: string)
    ensures AllEdge(s[|TrimEnd(s)|..])
    decreases |s|
  {
    if s != "" && Edge(s[|s| - 1]) {
      var n := |s| - 1;
      TrimEndSkips(s[..n]);
      assert s[|TrimEnd(s)|..] == s[..n][|TrimEnd(s)|..] + [s[n]];
    }
  }

  /** A rendering begins and ends as its first and last tokens do. */
  lemma {:induction false} RenderEnds(w: bool, ts: seq<Tok>)
    requires WellFormed(w, ts) && ts != []
    ensures Raw(ts[0]) != "" && Raw(ts[|ts| - 1]) != "" && Render(ts) != ""
    ensures Render(ts)[0] == Raw(ts[0])[0]
    ensures Render(ts)[|Render(ts)| - 1] == Raw(ts[|ts| - 1])[|Raw(ts[|ts| - 1])| - 1]
    decreases |ts|
  {
    hide TokOk, EndsWord, Raw;
    RawNonEmpty(w, ts[0], ts[1..]);
    if |ts| > 1 {
      RenderEnds(EndsWord(ts[0]), ts[1..]);
    } else {
      assert Render(ts) == Raw(ts[0]);
    }
  }

  lemma RawNonEmpty(w: bool, t: Tok, rest: seq<Tok>)
    requires TokOk(w, t, rest)
    ensures Raw(t) != ""
  {
  }

  lemma RenamedEnds(f: map<string, string>, t: Tok)
    requires Renaming(f) && Raw(t) != ""
    ensures var r, r' := Raw(t), Raw(RenameTok(f, t));
            r' != "" && (!Edge(r[0]) ==> !Edge(r'[0])) && (!Edge(r[|r| - 1]) ==> !Edge(r'[|r'| - 1]))
  {
    hide Kept;
  }

  lemma {:induction false} RenameAt(f: map<string, string>, ts: seq<Tok>, i: nat)
    requires i < |ts|
    ensures RenameToks(f, ts)[i] == RenameTok(f, ts[i])
    decreases i
  {
    if i > 0 { RenameAt(f, ts[1..], i - 1); }
  }

  lemma RenamedTrimmed(f: map<string, string>, m: string)
    requires Renaming(f) && Trimmed(m)
    ensures Trimmed(Render(RenameToks(f, Lex(false, m))))
    ensures m == "" <==> Render(RenameToks(f, Lex(false, m))) == ""
  {
    hide Renaming, RenameTok, RenameToks, Edge, WellFormed, Render, Lex;
    var ts := Lex(false, m);
    var ts' := RenameToks(f, ts);
    LexSound(false, m);
    RenamedWellFormed(f, false, ts);
    EmptyLex(m);
    EmptyRender(ts');
    if ts != [] {
      RenderEnds(false, ts);
      RenderEnds(false, ts');
      RenameAt(f, ts, 0);
      RenameAt(f, ts, |ts| - 1);
      RenamedEnds(f, ts[0]);
      RenamedEnds(f, ts[|ts| - 1]);
    }
  }

  lemma EmptyLex(m: string)
    ensures Lex(false, m) == [] <==> m == ""
  {
  }

  lemma EmptyRender(ts: seq<Tok>)
    ensures ts == [] ==> Render(ts) == ""
  {
  }

  /** The items of a renamed line are the renamed items. */
  lemma LineRenamed(f: map<string, string>, l: string)
    requires Renaming(f)
    ensures LineItems(RenameLine(f, l)) == RenameItems(f, LineItems(l))
  {
    hide Renaming, RenameToks, AllEdge, WellFormed, Render, Lex, Squeeze, TrimStart, TrimEnd, Trimmed;
    var s := TrimStart(l);
    var m := TrimEnd(s);
    TrimIsTrimmed(l);
    var ts := Lex(false, m);
    LexSound(false, m);
    RenamedWellFormed(f, false, ts);
    LexRender(false, RenameToks(f, ts));
    SqueezeRenamed(f, false, ts);
    RenamedTrimmed(f, m);
    TrimStartSkips(l);
    TrimEndSkips(s);
    TrimMiddle(l[..|l| - |s|], Render(RenameToks(f, ts)), s[|m|..]);
  }

  // ----- renaming a text renames its lines -----

  lemma {:induction false} RenderNoNewline(f: map<string, string>, ts: seq<Tok>)
    requires Renaming(f) && NoNewline(Render(ts))
    ensures NoNewline(Render(RenameToks(f, ts)))
    decreases |ts|
  {
    if ts != [] {
      var ts' := RenameToks(f, ts);
      JoinNoNewline(Raw(ts[0]), Render(ts[1..]));
      RenderNoNewline(f, ts[1..]);
      assert ts'[1..] == RenameToks(f, ts[1..]);
      RawNoNewline(f, ts[0]);
      JoinNoNewline(Raw(ts'[0]), Render(ts'[1..]));
    }
  }

  lemma JoinNoNewline(a: string, b: string)
    ensures NoNewline(a + b) <==> NoNewline(a) && NoNewline(b)
  {
    if NoNewline(a + b) {
      assert forall i :: 0 <= i < |a| ==> a[i] == (a + b)[i];
      assert forall i :: 0 <= i < |b| ==> b[i] == (a + b)[|a| + i];
    }
  }

  lemma RawNoNewline(f: map<string, string>, t: Tok)
    requires Renaming(f) && NoNewline(Raw(t))
    ensures NoNewline(Raw(RenameTok(f, t)))
  {
    hide Kept;
  }

  lemma RenameLineOk(f: map<string, string>, l: string)
    requires Renaming(f) && NoNewline(l)
    ensures NoNewline(RenameLine(f, l)) && (l == "" <==> RenameLine(f, l) == "")
  {
    hide Renaming, NoNewline, RenameToks, AllEdge, WellFormed, Render, Lex, TrimStart, TrimEnd, Trimmed, Edge;
    var s := TrimStart(l);
    var m := TrimEnd(s);
    TrimIsTrimmed(l);
    TrimStartIs(l);
    TrimEndIs(s);
    var lead, trail := l[..|l| - |s|], s[|m|..];
    var mid := Render(RenameToks(f, Lex(false, m)));
    assert l == lead + m + trail;
    JoinNoNewline(lead + m, trail);
    JoinNoNewline(lead, m);
    RenamedTrimmed(f, m);
    LexSound(false, m);
    RenderNoNewline(f, Lex(false, m));
    JoinNoNewline(lead + mid, trail);
    JoinNoNewline(lead, mid);
  }

  function RenameLines(f: map<string, string>, ls: seq<string>): seq<string> {
    if ls == [] then [] else [RenameLine(f, ls[0])] + RenameLines(f, ls[1..])
  }

  lemma {:induction false} LineEndFree(s: string, i: nat)
    requires i <= |s|
    ensures forall j :: i <= j < LineEnd(s, i) ==> s[j] != '\n'
    decreases |s| - i
  {
    if i < |s| && s[i] != '\n' { LineEndFree(s, i + 1); }
  }

  lemma HeadFree(a: string)
    ensures NoNewline(a[..LineEnd(a, 0)])
  {
    LineEndFree(a, 0);
  }

  /** The lines of a text from its first one. */
  lemma LinesFrom(l: string, u: string)
    requires NoNewline(l) && (u != "" ==> u[0] == '\n') && l + u != ""
    ensures Lines(l + u) == [l] + if u == "" then [] else Lines(u[1..])
  {
    var s := l + u;
    LineEndAt(s, 0, |l|);
    assert s[..|l|] == l;
    if u != "" { assert s[|l| + 1..] == u[1..]; }
  }

  lemma RenameFrom(f: map<string, string>, a: string)
    requires Renaming(f) && a != ""
    ensures var e := LineEnd(a, 0);
            e <= |a| && NoNewline(a[..e]) && (e < |a| ==> a[e] == '\n') &&
            RenameText(f, a) == RenameLine(f, a[..e]) + if e < |a| then ['\n'] + RenameText(f, a[e + 1..]) else []
  {
    hide *;
    HeadFree(a);
    LineEndStops(a, 0);
    RenameUnfolds(f, a);
  }

  lemma RenameUnfolds(f: map<string, string>, a: string)
    requires a != ""
    ensures var e := LineEnd(a, 0);
            e <= |a| && RenameText(f, a) == RenameLine(f, a[..e]) + if e < |a| then ['\n'] + RenameText(f, a[e + 1..]) else []
  {
    hide RenameLine, LineEnd;
  }

  lemma {:induction false} LineEndStops(t: string, i: nat)
    requires i <= |t|
    ensures LineEnd(t, i) < |t| ==> t[LineEnd(t, i)] == '\n'
    decreases |t| - i
  {
    if i < |t| && t[i] != '\n' { LineEndStops(t, i + 1); }
  }

  lemma NoLines(f: map<string, string>)
    ensures Lines("") == [] && RenameText(f, "") == ""
  {
  }

  lemma {:induction false} LinesRenamed(f: map<string, string>, a: string)
    requires Renaming(f)
    ensures Lines(RenameText(f, a)) == RenameLines(f, Lines(a))
    ensures a == "" <==> RenameText(f, a) == ""
    decreases |a|
  {
    hide Renaming, RenameLine, NoNewline, LineEnd, Lines, RenameText;
    if a == "" {
      NoLines(f);
    } else {
      RenameFrom(f, a);
      var e := LineEnd(a, 0);
      var l, u := a[..e], a[e..];
      var l' := RenameLine(f, l);
      RenameLineOk(f, l);
      assert a == l + u;
      LinesFrom(l, u);
      if e < |a| {
        var b := a[e + 1..];
        assert u[1..] == b;
        LinesRenamed(f, b);
        var u' := ['\n'] + RenameText(f, b);
        LinesFrom(l', u');
        assert u'[1..] == RenameText(f, b);
        assert Lines(a)[1..] == Lines(b);
      } else {
        LinesFrom(l', []);
        assert l' + [] == l';
        assert Lines(a)[1..] == [];
      }
    }
  }

  lemma {:induction false} ItemsOfRenamed(f: map<string, string>, ls: seq<string>)
    requires Renaming(f)
    ensures ItemsOf(RenameLines(f, ls)) == RenameItems(f, ItemsOf(ls))
    decreases |ls|
  {
    hide Renaming, RenameLine, LineItems;
    if ls != [] {
      var ls' := RenameLines(f, ls);
      assert ls'[1..] == RenameLines(f, ls[1..]);
      ItemsOfRenamed(f, ls[1..]);
      LineRenamed(f, ls[0]);
      EndedRenamed(f, LineItems(ls[0]));
      RenameItemsConcat(f, Ended(LineItems(ls[0])), ItemsOf(ls[1..]));
    }
  }

  lemma EndedRenamed(f: map<string, string>, xs: seq<Item<string>>)
    ensures Ended(RenameItems(f, xs)) == RenameItems(f, Ended(xs))
  {
  }

  lemma RenameItemsConcat(f: map<string, string>, xs: seq<Item<string>>, ys: seq<Item<string>>)
    ensures RenameItems(f, xs + ys) == RenameItems(f, xs) + RenameItems(f, ys)
  {
  }

  /** Renaming the identifiers of a text one to one, however many there are, leaves its normal form: `t'` is any text
      that without comments reads as the renamed `t` does. */
  lemma RenamingKeepsForm(f: map<string, string>, t: string, t': string)
    requires Renaming(f) && NamesOf(Items(Strip(t))) <= f.Keys
    requires Strip(t') == RenameText(f, Strip(t))
    ensures NormalForm(t') == NormalForm(t)
  {
    hide Renaming, RenameText, ItemsOf, Strip, NamesOf, Numbered, RenameItems, Related;
    var a := Strip(t);
    LinesRenamed(f, a);
    ItemsOfRenamed(f, Lines(a));
    RenamedRelated(f, Items(a));
    RelatedNumber(Items(a), RenameItems(f, Items(a)));
  }

  lemma RenamedRelated(f: map<string, string>, xs: seq<Item<string>>)
    requires Renaming(f) && NamesOf(xs) <= f.Keys
    ensures Related(xs, RenameItems(f, xs))
  {
    hide Kept, IsId;
    forall i | 0 <= i < |xs| && xs[i].Name?
      ensures xs[i].v in f
    {
      assert xs[i].v in NamesOf(xs);
    }
  }
}
