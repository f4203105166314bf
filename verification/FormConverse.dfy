/** Equal normal forms of memfn/src/formhash.c: without a `$` outside literals, the printed form determines the items
    and their numbers, so only layout and a one-to-one renaming are lost. */
module FormConverse {
  import opened Text
  import opened FormLex
  import opened FormNames
  import opened FormNormal

  // ----- the items of a line, as tokens -----

  function TokOf(x: Item<string>): Tok {
    match x
    case Name(n) => Id(n)
    case Keep(t) => t
    case Eol => Ch('\n')
  }

  function Toks(xs: seq<Item<string>>): (r: seq<Tok>)
    ensures |r| == |xs|
  {
    if xs == [] then [] else [TokOf(xs[0])] + Toks(xs[1..])
  }

  lemma NotAWord(ts: seq<Tok>)
    requires WellFormed(false, ts) && (ts != [] ==> !StartsWord(ts[0]))
    ensures WellFormed(true, ts)
  {
  }

  lemma SqueezeHead(w: bool, ts: seq<Tok>)
    requires WellFormed(w, ts)
    ensures var xs := Squeeze(w, ts);
            && (ts == [] ==> xs == [])
            && (ts != [] && !ts[0].Gap? ==> xs != [] && TokOf(xs[0]) == ts[0])
            && (ts != [] && ts[0].Gap? && xs != [] ==> |ts| > 1 && (TokOf(xs[0]) == Gap(" ") || TokOf(xs[0]) == ts[1]))
            && (ts != [] && ts[0].Gap? && xs != [] && w ==> !StartsWord(TokOf(xs[0])))
  {
    hide IsId, EndsWord, Kept;
    if ts != [] && ts[0].Gap? && |ts| > 1 {
      assert ts[1..][0] == ts[1] && !ts[1].Gap?;
    }
  }

  /** Squeezing keeps a line's tokens well formed. */
  lemma {:induction false} SqueezeWellFormed(w: bool, ts: seq<Tok>)
    requires WellFormed(w, ts)
    ensures WellFormed(w, Toks(Squeeze(w, ts)))
    decreases |ts|
  {
    if ts != [] {
      var rest := ts[1..];
      var xs := Squeeze(w, ts);
      SqueezeHead(w, ts);
      if ts[0].Gap? && w && |ts| > 1 && StartsWord(ts[1]) {
        SqueezeWellFormed(false, rest);
        SqueezeHead(false, rest);
        assert xs[1..] == Squeeze(false, rest);
        GapKept(w, Toks(xs));
      } else if ts[0].Gap? {
        if w { NotAWord(rest); }
        SqueezeWellFormed(w, rest);
      } else {
        SqueezeWellFormed(EndsWord(ts[0]), rest);
        SqueezeHead(EndsWord(ts[0]), rest);
        assert xs[1..] == Squeeze(EndsWord(ts[0]), rest);
        TokenKept(w, ts[0], rest, Toks(xs)[1..]);
      }
    }
  }

  lemma GapKept(w: bool, us: seq<Tok>)
    requires us != [] && us[0] == Gap(" ") && WellFormed(false, us[1..]) && (|us| > 1 ==> !us[1].Gap?)
    ensures WellFormed(w, us)
  {
  }

  lemma TokenKept(w: bool, t: Tok, rest: seq<Tok>, us: seq<Tok>)
    requires TokOk(w, t, rest) && (rest == [] ==> us == []) && !t.Gap?
    requires t.Id? && us != [] ==> !StartsWord(us[0])
    ensures TokOk(w, t, us)
  {
  }

  // ----- the printed line, as tokens -----

  function Chars(d: string): (r: seq<Tok>)
    ensures |r| == |d|
  {
    if d == "" then [] else [Ch(d[0])] + Chars(d[1..])
  }

  function ShownOne(x: Item<nat>): seq<Tok> {
    match x
    case Name(k) => [Ch('$')] + Chars(Dec(k))
    case Keep(t) => [t]
    case Eol => [Ch('\n')]
  }

  function Shown(xs: seq<Item<nat>>): seq<Tok> {
    if xs == [] then [] else ShownOne(xs[0]) + Shown(xs[1..])
  }

  /** `ns` is `xs` with numbers for names. */
  ghost predicate Shape(xs: seq<Item<string>>, ns: seq<Item<nat>>) {
    |xs| == |ns| && forall i :: 0 <= i < |xs| ==> ShapeOne(xs[i], ns[i])
  }

  ghost predicate ShapeOne(x: Item<string>, n: Item<nat>) {
    match x
    case Name(_) => n.Name?
    case Keep(t) => n == Keep(t)
    case Eol => n == Eol
  }

  lemma {:induction false} CharsRender(d: string)
    ensures Render(Chars(d)) == d
    decreases |d|
  {
    if d != "" {
      CharsRender(d[1..]);
      assert Chars(d)[1..] == Chars(d[1..]);
    }
  }

  lemma {:induction false} ShownPrints(ns: seq<Item<nat>>)
    ensures Render(Shown(ns)) == Print(ns)
    decreases |ns|
  {
    if ns != [] {
      var n := ns[0];
      ShownPrints(ns[1..]);
      RenderConcat(ShownOne(n), Shown(ns[1..]));
      assert Render(ShownOne(n)) == PrintOne(n) by {
        if n.Name? {
          CharsRender(Dec(n.v));
          RenderConcat([Ch('$')], Chars(Dec(n.v)));
          assert Render([Ch('$')]) == "$" by { assert [Ch('$')][1..] == []; }
        } else {
          assert ShownOne(n)[1..] == [];
        }
      }
    }
  }

  predicate AllDigits(d: string) { forall i :: 0 <= i < |d| ==> IsDigit(d[i]) }

  lemma {:induction false} DigitsWellFormed(w: bool, d: string, b: seq<Tok>)
    requires AllDigits(d) && d != "" && WellFormed(true, b)
    ensures WellFormed(w, Chars(d) + b)
    decreases |d|
  {
    hide TokOk, EndsWord, WellFormed;
    var us := Chars(d) + b;
    DigitsHead(d, b);
    DigitsHead(d[1..], b);
    DigitOk(w, d[0], us[1..]);
    if |d| > 1 { DigitsWellFormed(true, d[1..], b); }
    OkThen(w, us);
  }

  lemma OkThen(w: bool, us: seq<Tok>)
    requires us != [] && TokOk(w, us[0], us[1..]) && WellFormed(EndsWord(us[0]), us[1..])
    ensures WellFormed(w, us)
  {
  }

  lemma DigitOk(w: bool, c: char, rest: seq<Tok>)
    requires IsDigit(c)
    ensures TokOk(w, Ch(c), rest) && EndsWord(Ch(c))
  {
  }

  lemma ShownHead(x: Item<string>, n: Item<nat>, ns: seq<Item<nat>>)
    requires ShapeOne(x, n) && ns != [] && ns[0] == n
    ensures Shown(ns) != [] && (TokOf(x) == Shown(ns)[0] || Shown(ns)[0] == Ch('$'))
  {
  }

  lemma {:induction false} ShownWellFormed(w: bool, xs: seq<Item<string>>, ns: seq<Item<nat>>)
    requires WellFormed(w, Toks(xs)) && Shape(xs, ns)
    ensures WellFormed(w, Shown(ns))
    decreases |xs|
  {
    hide TokOk, IsId, EndsWord, StartsWord, Dec, AllDigits;
    if xs != [] {
      var ts, rest := Toks(xs), ns[1..];
      assert ts[1..] == Toks(xs[1..]) && ShapeOne(xs[0], ns[0]);
      ShapeTail(xs, ns);
      ShownWellFormed(EndsWord(ts[0]), xs[1..], rest);
      if rest != [] { ShownHead(xs[1], rest[0], rest); assert Toks(xs[1..])[0] == TokOf(xs[1]); }
      match xs[0]
      case Name(id) =>
        IdEnds(id);
        NumberWellFormed(w, ns[0].v, Shown(rest));
        assert Shown(ns) == [Ch('$')] + Chars(Dec(ns[0].v)) + Shown(rest);
      case Keep(t) =>
        assert Shown(ns)[1..] == Shown(rest);
        KeptToken(w, t, ts[1..], Shown(rest));
      case Eol =>
        assert Shown(ns)[1..] == Shown(rest);
        MarkOk(w, Shown(rest));
    }
  }

  lemma MarkOk(w: bool, rest: seq<Tok>)
    ensures TokOk(w, Ch('$'), rest) && !EndsWord(Ch('$')) && TokOk(w, Ch('\n'), rest) && !EndsWord(Ch('\n'))
  {
  }

  lemma IdEnds(id: string)
    ensures EndsWord(Id(id))
  {
  }

  lemma NumberWellFormed(w: bool, k: nat, b: seq<Tok>)
    requires WellFormed(true, b)
    ensures WellFormed(w, [Ch('$')] + Chars(Dec(k)) + b)
  {
    hide TokOk, EndsWord;
    var us := [Ch('$')] + Chars(Dec(k)) + b;
    assert us[1..] == Chars(Dec(k)) + b;
    assert AllDigits(Dec(k));
    DigitsWellFormed(false, Dec(k), b);
    MarkOk(w, us[1..]);
  }

  lemma ShapeTail(xs: seq<Item<string>>, ns: seq<Item<nat>>)
    requires Shape(xs, ns) && xs != []
    ensures Shape(xs[1..], ns[1..]) && ShapeOne(xs[0], ns[0]) && (|xs| > 1 ==> ShapeOne(xs[1], ns[1]))
  {
  }

  lemma KeptToken(w: bool, t: Tok, rest: seq<Tok>, us: seq<Tok>)
    requires TokOk(w, t, rest) && (rest == [] <==> us == [])
    requires rest != [] ==> us[0] == rest[0] || us[0] == Ch('$')
    ensures TokOk(w, t, us)
  {
  }

  // ----- reading the numbers back -----

  /** No `$` stands outside literals. */
  ghost predicate DollarFree(xs: seq<Item<string>>) { forall i :: 0 <= i < |xs| ==> xs[i] != Keep(Ch('$')) }

  predicate DigitTok(t: Tok) { t.Ch? && IsDigit(t.c) }

  /** Two digit runs that stop at the same kind of place are the same run. */
  lemma {:induction false} SameDigits(d: string, e: string, a: seq<Tok>, b: seq<Tok>)
    requires AllDigits(d) && AllDigits(e) && Chars(d) + a == Chars(e) + b
    requires (a != [] ==> !DigitTok(a[0])) && (b != [] ==> !DigitTok(b[0]))
    ensures d == e && a == b
    decreases |d|
  {
    DigitsHead(d, a);
    DigitsHead(e, b);
    if d != "" && e != "" { SameDigits(d[1..], e[1..], a, b); }
  }

  lemma {:induction false} DigitsHead(d: string, a: seq<Tok>)
    requires AllDigits(d)
    ensures d == "" ==> Chars(d) + a == a
    ensures d != "" ==> var u := Chars(d) + a;
              u != [] && u[0] == Ch(d[0]) && DigitTok(u[0]) && u[1..] == Chars(d[1..]) + a
  {
    if d == "" {
      assert Chars(d) + a == a;
    } else {
      assert Chars(d) == [Ch(d[0])] + Chars(d[1..]);
      assert (Chars(d) + a)[1..] == Chars(d[1..]) + a;
    }
  }

  lemma DecInjective(m: nat, n: nat)
    requires Dec(m) == Dec(n)
    ensures m == n
  {
    DecRoundTrip(m);
    DecRoundTrip(n);
  }

  /** After a number no digit follows. */
  lemma AfterName(w: bool, xs: seq<Item<string>>, ns: seq<Item<nat>>)
    requires WellFormed(w, Toks(xs)) && Shape(xs, ns) && xs != [] && xs[0].Name?
    ensures Shown(ns[1..]) != [] ==> !DigitTok(Shown(ns[1..])[0])
  {
    ShapeTail(xs, ns);
    assert Toks(xs)[1..] == Toks(xs[1..]);
    if |xs| > 1 {
      ShownHead(xs[1], ns[1], ns[1..]);
      assert Toks(xs[1..])[0] == TokOf(xs[1]);
    }
  }

  lemma {:induction false} ShownInjective(w: bool, xs: seq<Item<string>>, ns: seq<Item<nat>>,
                                          v: bool, ys: seq<Item<string>>, ms: seq<Item<nat>>)
    requires WellFormed(w, Toks(xs)) && Shape(xs, ns) && DollarFree(xs) && Eol !in xs
    requires WellFormed(v, Toks(ys)) && Shape(ys, ms) && DollarFree(ys) && Eol !in ys
    requires Shown(ns) == Shown(ms)
    ensures ns == ms
    decreases |xs|
  {
    if xs == [] {
      if ys != [] { ShapeTail(ys, ms); ShownHead(ys[0], ms[0], ms); }
    } else if ys == [] {
      ShapeTail(xs, ns);
      ShownHead(xs[0], ns[0], ns);
    } else {
      ShapeTail(xs, ns);
      ShapeTail(ys, ms);
      HeadsAgree(w, xs, ns, v, ys, ms);
      TailOk(w, xs);
      TailOk(v, ys);
      ShownInjective(EndsWord(Toks(xs)[0]), xs[1..], ns[1..], EndsWord(Toks(ys)[0]), ys[1..], ms[1..]);
    }
  }

  lemma TailOk(w: bool, xs: seq<Item<string>>)
    requires WellFormed(w, Toks(xs)) && DollarFree(xs) && Eol !in xs && xs != []
    ensures WellFormed(EndsWord(Toks(xs)[0]), Toks(xs[1..])) && DollarFree(xs[1..]) && Eol !in xs[1..]
  {
    assert Toks(xs)[1..] == Toks(xs[1..]);
  }

  lemma HeadsAgree(w: bool, xs: seq<Item<string>>, ns: seq<Item<nat>>,
                   v: bool, ys: seq<Item<string>>, ms: seq<Item<nat>>)
    requires WellFormed(w, Toks(xs)) && Shape(xs, ns) && DollarFree(xs) && Eol !in xs && xs != []
    requires WellFormed(v, Toks(ys)) && Shape(ys, ms) && DollarFree(ys) && Eol !in ys && ys != []
    requires Shown(ns) == Shown(ms)
    ensures ns[0] == ms[0] && Shown(ns[1..]) == Shown(ms[1..])
  {
    ShapeTail(xs, ns);
    ShapeTail(ys, ms);
    assert xs[0] in xs && ys[0] in ys && xs[0] != Keep(Ch('$')) && ys[0] != Keep(Ch('$'));
    HeadShown(ns);
    HeadShown(ms);
    hide Shown, Chars, Shape, WellFormed;
    if xs[0].Name? && ys[0].Name? {
      AfterName(w, xs, ns);
      AfterName(v, ys, ms);
      SameDigits(Dec(ns[0].v), Dec(ms[0].v), Shown(ns[1..]), Shown(ms[1..]));
      DecInjective(ns[0].v, ms[0].v);
    }
  }

  lemma {:induction false} HeadShown(ns: seq<Item<nat>>)
    requires ns != [] && ns[0] != Eol
    ensures Shown(ns) != []
    ensures ns[0].Keep? ==> Shown(ns)[0] == ns[0].t && Shown(ns)[1..] == Shown(ns[1..])
    ensures ns[0].Name? ==> Shown(ns)[0] == Ch('$') && Shown(ns)[1..] == Chars(Dec(ns[0].v)) + Shown(ns[1..])
  {
    hide Dec;
    var b := Shown(ns[1..]);
    if ns[0].Keep? {
      assert Shown(ns) == [ns[0].t] + b;
    } else {
      var d := Chars(Dec(ns[0].v));
      assert Shown(ns) == [Ch('$')] + d + b;
      assert ([Ch('$')] + d + b)[1..] == d + b;
    }
  }

  // ----- the lines of a printed form -----

  function EolAt(xs: seq<Item<string>>): (e: nat)
    ensures e <= |xs| && (forall i :: 0 <= i < e ==> xs[i] != Eol) && (e < |xs| ==> xs[e] == Eol)
  {
    if xs == [] || xs[0] == Eol then 0 else 1 + EolAt(xs[1..])
  }

  /** Lines of well-formed tokens without newlines, each ended. */
  ghost predicate Sheet(xs: seq<Item<string>>)
    decreases |xs|
  {
    xs == [] || (EolAt(xs) < |xs| && LineOk(xs[..EolAt(xs)]) && Sheet(xs[EolAt(xs) + 1..]))
  }

  ghost predicate LineOk(xs: seq<Item<string>>) {
    Eol !in xs && WellFormed(false, Toks(xs)) && NoNewline(Render(Toks(xs)))
  }

  lemma {:induction false} EolAtIs(xs: seq<Item<string>>, rest: seq<Item<string>>)
    requires Eol !in xs
    ensures EolAt(xs + [Eol] + rest) == |xs|
    decreases |xs|
  {
    var all := xs + [Eol] + rest;
    if xs != [] {
      assert all[1..] == xs[1..] + [Eol] + rest;
      EolAtIs(xs[1..], rest);
    }
  }

  lemma {:induction false} SqueezeNoEol(w: bool, ts: seq<Tok>)
    ensures Eol !in Squeeze(w, ts)
    decreases |ts|
  {
    if ts != [] {
      SqueezeNoEol(false, ts[1..]);
      SqueezeNoEol(w, ts[1..]);
      SqueezeNoEol(EndsWord(ts[0]), ts[1..]);
    }
  }

  lemma {:induction false} SqueezeNoNewline(w: bool, ts: seq<Tok>)
    requires NoNewline(Render(ts))
    ensures NoNewline(Render(Toks(Squeeze(w, ts))))
    decreases |ts|
  {
    if ts != [] {
      var xs := Squeeze(w, ts);
      JoinNoNewline(Raw(ts[0]), Render(ts[1..]));
      var w' := if ts[0].Gap? then (if w && |ts| > 1 && StartsWord(ts[1]) then false else w) else EndsWord(ts[0]);
      SqueezeNoNewline(w', ts[1..]);
      if !ts[0].Gap? || (w && |ts| > 1 && StartsWord(ts[1])) {
        assert xs[1..] == Squeeze(w', ts[1..]);
        assert NoNewline(Raw(TokOf(xs[0])));
        JoinNoNewline(Raw(TokOf(xs[0])), Render(Toks(xs[1..])));
        assert Toks(xs)[1..] == Toks(xs[1..]);
      }
    }
  }

  lemma LineItemsOk(l: string)
    requires NoNewline(l)
    ensures LineOk(LineItems(l))
  {
    hide WellFormed, Squeeze, Render, Lex, TrimStart, TrimEnd;
    var m := Trim(l);
    TrimStartIs(l);
    TrimEndIs(TrimStart(l));
    LexSound(false, m);
    var ts := Lex(false, m);
    SqueezeWellFormed(false, ts);
    SqueezeNoEol(false, ts);
    SqueezeNoNewline(false, ts);
  }

  lemma {:induction false} ItemsSheet(ls: seq<string>)
    requires forall i :: 0 <= i < |ls| ==> NoNewline(ls[i])
    ensures Sheet(ItemsOf(ls))
    decreases |ls|
  {
    hide LineItems, LineOk, NoNewline;
    if ls != [] {
      var xs, rest := LineItems(ls[0]), ItemsOf(ls[1..]);
      LineItemsOk(ls[0]);
      ItemsSheet(ls[1..]);
      if xs != [] {
        var all := xs + [Eol] + rest;
        assert ItemsOf(ls) == all;
        NoEol(xs);
        EolAtIs(xs, rest);
        assert all[..|xs|] == xs && all[|xs| + 1..] == rest;
      } else {
        assert ItemsOf(ls) == rest;
      }
    }
  }

  lemma NoEol(xs: seq<Item<string>>)
    requires LineOk(xs)
    ensures Eol !in xs
  {
  }

  lemma {:induction false} LinesFree(a: string)
    ensures forall i :: 0 <= i < |Lines(a)| ==> NoNewline(Lines(a)[i])
    decreases |a|
  {
    hide NoNewline, LineEnd;
    if a != "" {
      var e := LineEnd(a, 0);
      HeadFree(a);
      if e < |a| {
        LinesFree(a[e + 1..]);
        assert Lines(a) == [a[..e]] + Lines(a[e + 1..]);
      } else {
        assert Lines(a) == [a[..e]];
      }
    }
  }

  /** A printed line holds no newline. */
  lemma {:induction false} PrintedLine(xs: seq<Item<string>>, ns: seq<Item<nat>>)
    requires Shape(xs, ns) && Eol !in xs && NoNewline(Render(Toks(xs)))
    ensures NoNewline(Print(ns))
    decreases |xs|
  {
    hide Dec;
    if xs != [] {
      ShapeTail(xs, ns);
      assert xs[0] in xs;
      assert Toks(xs)[1..] == Toks(xs[1..]);
      JoinNoNewline(Raw(TokOf(xs[0])), Render(Toks(xs[1..])));
      PrintedLine(xs[1..], ns[1..]);
      if ns[0].Name? { JoinNoNewline("$", Dec(ns[0].v)); }
      JoinNoNewline(PrintOne(ns[0]), Print(ns[1..]));
    }
  }

  lemma PrintSplit(ns: seq<Item<nat>>, e: nat)
    requires e < |ns| && ns[e] == Eol
    ensures Print(ns) == Print(ns[..e]) + "\n" + Print(ns[e + 1..])
  {
    hide Print;
    var a, b := ns[..e], ns[e + 1..];
    assert ns == a + ([Eol] + b);
    PrintConcat(a, [Eol] + b);
    PrintEol(b);
    assert Print(a) + ("\n" + Print(b)) == Print(a) + "\n" + Print(b);
  }

  lemma PrintEol(b: seq<Item<nat>>)
    ensures Print([Eol] + b) == "\n" + Print(b)
  {
    assert ([Eol] + b)[1..] == b;
  }

  lemma ShapeCut(xs: seq<Item<string>>, ns: seq<Item<nat>>, e: nat)
    requires Shape(xs, ns) && e < |xs| && xs[e] == Eol
    ensures |ns| == |xs| && ns[e] == Eol && Shape(xs[..e], ns[..e]) && Shape(xs[e + 1..], ns[e + 1..])
  {
  }

  lemma DollarCut(xs: seq<Item<string>>, e: nat)
    requires DollarFree(xs) && e < |xs|
    ensures DollarFree(xs[..e]) && DollarFree(xs[e + 1..])
  {
  }

  lemma SameFirstLine(a: string, b: string, c: string, d: string)
    requires NoNewline(a) && NoNewline(c) && a + "\n" + b == c + "\n" + d
    ensures a == c && b == d
  {
    var s := a + "\n" + b;
    LineEndAt(s, 0, |a|);
    LineEndAt(s, 0, |c|);
    assert a == s[..|a|] && b == s[|a| + 1..];
    assert c == s[..|c|] && d == s[|c| + 1..];
  }

  lemma SameLine(xs: seq<Item<string>>, ns: seq<Item<nat>>, ys: seq<Item<string>>, ms: seq<Item<nat>>)
    requires LineOk(xs) && Shape(xs, ns) && DollarFree(xs) && LineOk(ys) && Shape(ys, ms) && DollarFree(ys)
    requires Print(ns) == Print(ms)
    ensures ns == ms
  {
    hide WellFormed, Shown, Print, Shape, DollarFree;
    ShownPrints(ns);
    ShownPrints(ms);
    ShownWellFormed(false, xs, ns);
    ShownWellFormed(false, ys, ms);
    LexRender(false, Shown(ns));
    LexRender(false, Shown(ms));
    ShownInjective(false, xs, ns, false, ys, ms);
  }

  lemma {:induction false} SheetInjective(xs: seq<Item<string>>, ns: seq<Item<nat>>,
                                          ys: seq<Item<string>>, ms: seq<Item<nat>>)
    requires Sheet(xs) && Shape(xs, ns) && DollarFree(xs) && Sheet(ys) && Shape(ys, ms) && DollarFree(ys)
    requires Print(ns) == Print(ms)
    ensures ns == ms
    decreases |xs|
  {
    hide Sheet, Shape, DollarFree, LineOk, Print;
    ShapeLength(xs, ns);
    ShapeLength(ys, ms);
    if xs != [] { SheetLine(xs, ns); }
    if ys != [] { SheetLine(ys, ms); }
    if xs != [] && ys != [] {
      var e, f := EolAt(xs), EolAt(ys);
      DollarCut(xs, e);
      DollarCut(ys, f);
      SameFirstLine(Print(ns[..e]), Print(ns[e + 1..]), Print(ms[..f]), Print(ms[f + 1..]));
      SameLine(xs[..e], ns[..e], ys[..f], ms[..f]);
      SheetInjective(xs[e + 1..], ns[e + 1..], ys[f + 1..], ms[f + 1..]);
      assert ns == ns[..e] + [Eol] + ns[e + 1..];
      assert ms == ms[..f] + [Eol] + ms[f + 1..];
    }
  }

  lemma ShapeLength(xs: seq<Item<string>>, ns: seq<Item<nat>>)
    requires Shape(xs, ns)
    ensures |xs| == |ns| && (ns == [] ==> Print(ns) == "")
  {
  }

  lemma LineParts(xs: seq<Item<string>>)
    requires LineOk(xs)
    ensures Eol !in xs && NoNewline(Render(Toks(xs)))
  {
  }

  lemma SheetLine(xs: seq<Item<string>>, ns: seq<Item<nat>>)
    requires Sheet(xs) && Shape(xs, ns) && xs != []
    ensures EolAt(xs) < |xs| == |ns| && LineCut(xs, ns, EolAt(xs))
  {
    SheetCut(xs);
    var e := EolAt(xs);
    LineCutAt(xs, ns, e);
  }

  /** The first line of a sheet, and the lines below it. */
  ghost predicate LineCut(xs: seq<Item<string>>, ns: seq<Item<nat>>, e: nat)
    requires e < |xs| == |ns|
  {
    && ns[e] == Eol && LineOk(xs[..e]) && Sheet(xs[e + 1..])
    && Shape(xs[..e], ns[..e]) && Shape(xs[e + 1..], ns[e + 1..]) && NoNewline(Print(ns[..e]))
    && Print(ns) == Print(ns[..e]) + "\n" + Print(ns[e + 1..]) && Print(ns) != ""
  }

  lemma LineCutAt(xs: seq<Item<string>>, ns: seq<Item<nat>>, e: nat)
    requires Shape(xs, ns) && e < |xs| && xs[e] == Eol && LineOk(xs[..e]) && Sheet(xs[e + 1..])
    ensures |xs| == |ns| && LineCut(xs, ns, e)
  {
    hide Shape, LineOk, Sheet, NoNewline, Print, Toks, Render;
    ShapeCut(xs, ns, e);
    LineParts(xs[..e]);
    PrintSplit(ns, e);
    PrintedLine(xs[..e], ns[..e]);
  }

  lemma SheetCut(xs: seq<Item<string>>)
    requires Sheet(xs) && xs != []
    ensures var e := EolAt(xs); e < |xs| && xs[e] == Eol && LineOk(xs[..e]) && Sheet(xs[e + 1..])
  {
    hide LineOk;
  }

  // ----- what the form tells -----

  lemma NumberedShape(xs: seq<Item<string>>)
    ensures Shape(xs, Numbered(xs))
  {
    forall i | 0 <= i < |xs|
      ensures ShapeOne(xs[i], Numbered(xs)[i])
    {
      NumberedAt(xs, i);
    }
  }

  /** Two texts without `$` outside literals, the first with at most one name use beyond the table, have one normal form
      exactly when their items differ by a one-to-one renaming: every other token counts. */
  lemma NormalFormIff(t: string, t': string)
    requires DollarFree(Items(Strip(t))) && DollarFree(Items(Strip(t')))
    ensures NormalForm(t) == NormalForm(t') <==> Numbered(Items(Strip(t))) == Numbered(Items(Strip(t')))
    ensures Fits(Items(Strip(t))) ==> (NormalForm(t) == NormalForm(t') <==> Related(Items(Strip(t)), Items(Strip(t'))))
  {
    hide DollarFree, Fits, Strip, ItemsOf, Numbered, Print, Related, Shape, Sheet;
    var xs, ys := Items(Strip(t)), Items(Strip(t'));
    NumberedShape(xs);
    NumberedShape(ys);
    LinesFree(Strip(t));
    LinesFree(Strip(t'));
    ItemsSheet(Lines(Strip(t)));
    ItemsSheet(Lines(Strip(t')));
    if NormalForm(t) == NormalForm(t') {
      SheetInjective(xs, Numbered(xs), ys, Numbered(ys));
      if Fits(xs) { SameNumbersRelated(xs, ys); }
    }
    if Related(xs, ys) { RelatedNumber(xs, ys); }
  }

  /** A `$` outside literals can imitate a numbered name. */
  lemma DollarImitates()
    ensures NormalForm("x") == NormalForm("$0")
    ensures !Related(Items(Strip("x")), Items(Strip("$0")))
  {
    WordForm();
    DollarForm();
  }

  lemma XNotKept()
    ensures !Kept("x")
  {
    assert "x" !in Keywords1();
    assert "x" !in Keywords2();
    assert "x" !in Keywords3();
    assert "x" !in Keywords4();
    assert "x" !in LibraryNames();
  }

  lemma OneLine(s: string)
    requires NoNewline(s) && s != "" && Trimmed(s)
    ensures Lines(s) == [s] && Trim(s) == s
  {
    hide Trim, Edge, Trimmed;
    LineEndAt(s, 0, |s|);
    assert s[..|s|] == s;
    assert AllEdge("");
    TrimMiddle("", s, "");
    assert "" + s + "" == s;
  }

  lemma OneLineItems(s: string)
    requires NoNewline(s) && s != "" && Trimmed(s)
    ensures Items(s) == Ended(Squeeze(false, Lex(false, s)))
  {
    OneLine(s);
    assert [s][1..] == [];
    assert ItemsOf([]) == [];
  }

  lemma WordForm()
    ensures Items(Strip("x")) == [Name("x"), Eol] && NormalForm("x") == "$0\n"
  {
    hide Kept, Trim, Lines;
    assert "x"[1..] == "";
    assert Strip("x") == "x";
    OneLineItems("x");
    assert WordRun("x") == 1 && First(false, "x") == Id("x");
    assert Lex(false, "x") == [Id("x")];
    XNotKept();
    var xs: seq<Item<string>> := [Name("x"), Eol];
    assert Squeeze(false, [Id("x")]) == [Name("x")] by { assert [Id("x")][1..] == []; }
    NumberedAt(xs, 0);
    NumberedAt(xs, 1);
    assert Table(xs[..0]) == [];
    assert Numbered(xs) == [Name(0), Eol];
    PrintPair(Name(0));
  }

  lemma PrintPair(x: Item<nat>)
    ensures Print([x, Eol]) == PrintOne(x) + "\n"
  {
    var end: seq<Item<nat>> := [Eol];
    assert [x, Eol][1..] == end && end[1..] == [];
    assert Print(end) == PrintOne(Eol) + "" == "\n";
  }

  lemma DollarItems()
    ensures Items(Strip("$0")) == [Keep(Ch('$')), Keep(Ch('0')), Eol]
  {
    hide Kept, Trim, Lines, ItemsOf, WordRun, BlankRun, LitEnd;
    var s := "$0";
    assert s[1..] == "0" && "0"[1..] == "";
    assert Strip("0") == "0" && Strip(s) == s;
    OneLineItems(s);
    assert First(false, s) == Ch('$') && First(false, "0") == Ch('0');
    assert Lex(false, "0") == [Ch('0')];
    var ts := [Ch('$'), Ch('0')];
    assert Lex(false, s) == ts;
    assert ts[1..] == [Ch('0')] && [Ch('0')][1..] == [];
    assert Squeeze(false, [Ch('0')]) == [Keep(Ch('0'))];
    assert Squeeze(false, ts) == [Keep(Ch('$')), Keep(Ch('0'))];
  }

  lemma DollarForm()
    ensures Items(Strip("$0")) == [Keep(Ch('$')), Keep(Ch('0')), Eol] && NormalForm("$0") == "$0\n"
  {
    hide Items, Strip, Numbered, Table;
    DollarItems();
    var xs: seq<Item<string>> := [Keep(Ch('$')), Keep(Ch('0')), Eol];
    NumberedAt(xs, 0);
    NumberedAt(xs, 1);
    NumberedAt(xs, 2);
    var ns: seq<Item<nat>> := [Keep(Ch('$')), Keep(Ch('0')), Eol];
    assert Numbered(xs) == ns;
    assert ns[1..] == [Keep(Ch('0')), Eol];
    PrintPair(Keep(Ch('0')));
  }
}
