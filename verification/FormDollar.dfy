/** Dollar signs in the normal form of memfn/src/formhash.c: exactly when a text with `$` outside literals has the form
    of a text without. All texts here are read after comments were dropped. */
module FormDollar {
  import opened Text
  import opened FormLex
  import opened FormNames
  import opened FormNormal
  import opened FormConverse
  import opened FormSpace
  import opened FormOperators

  // ----- sequences of numbers that are a numbering -----

  function Step(s: nat, k: nat): nat { if k == s && s < NAMES then s + 1 else s }

  function After(s: nat, ns: seq<Item<nat>>): nat
    decreases |ns|
  {
    if ns == [] then s else After(if ns[0].Name? then Step(s, ns[0].v) else s, ns[1..])
  }

  /** With `s` names known, the numbers are those of some identifiers in order of first appearance. */
  predicate Countable(s: nat, ns: seq<Item<nat>>)
    decreases |ns|
  {
    ns == [] ||
    if ns[0].Name? then ns[0].v <= s && Countable(Step(s, ns[0].v), ns[1..]) else Countable(s, ns[1..])
  }

  lemma {:induction false} CountableSnoc(s: nat, ns: seq<Item<nat>>, n: Item<nat>)
    ensures Countable(s, ns + [n]) <==> Countable(s, ns) && (n.Name? ==> n.v <= After(s, ns))
    ensures After(s, ns + [n]) == if n.Name? then Step(After(s, ns), n.v) else After(s, ns)
    decreases |ns|
  {
    hide Step;
    var all := ns + [n];
    if ns == [] {
      assert all[1..] == [];
    } else {
      assert all[1..] == ns[1..] + [n];
      CountableSnoc(if ns[0].Name? then Step(s, ns[0].v) else s, ns[1..], n);
    }
  }

  lemma {:induction false} NumberedCountable(xs: seq<Item<string>>)
    ensures Countable(0, Numbered(xs)) && After(0, Numbered(xs)) == |Table(xs)|
    decreases |xs|
  {
    if xs != [] {
      var n := |xs| - 1;
      NumberedCountable(xs[..n]);
      TableGrows(xs[..n], 0);
      CountableSnoc(0, Numbered(xs[..n]), NumberOne(Table(xs[..n]), xs[n]));
    }
  }

  /** With more names known the numbers stay possible. */
  lemma {:induction false} CountableMore(s: nat, s': nat, ns: seq<Item<nat>>)
    requires s <= s' <= NAMES && Countable(s, ns)
    ensures Countable(s', ns)
    decreases |ns|
  {
    if ns != [] {
      if ns[0].Name? {
        CountableMore(Step(s, ns[0].v), Step(s', ns[0].v), ns[1..]);
      } else {
        CountableMore(s, s', ns[1..]);
      }
    }
  }

  // ----- names for any such numbers -----

  function NameFor(k: nat): (n: string)
    ensures Renamed(n) && |n| == 33 + k
  {
    var n := seq(33 + k, _ => 'a');
    assert !Kept(n) by { if Kept(n) { KeptShort(n); } }
    n
  }

  function NamesFor(m: nat): (r: seq<string>)
    ensures |r| == m && forall k :: 0 <= k < m ==> r[k] == NameFor(k)
  {
    seq(m, k requires 0 <= k < m => NameFor(k))
  }

  function Named(n: Item<nat>): Item<string> {
    match n
    case Name(k) => Name(NameFor(k))
    case Keep(t) => Keep(t)
    case Eol => Eol
  }

  function NamedAll(ns: seq<Item<nat>>): (r: seq<Item<string>>)
    ensures |r| == |ns|
  {
    if ns == [] then [] else NamedAll(ns[..|ns| - 1]) + [Named(ns[|ns| - 1])]
  }

  lemma FindNameFor(m: nat, k: nat)
    requires k <= m
    ensures Find(NamesFor(m), NameFor(k)) == k
  {
    hide Kept;
    var names, f := NamesFor(m), Find(NamesFor(m), NameFor(k));
    if f < m { assert |names[f]| == 33 + f; }
    if k < m { assert names[k] == NameFor(k); }
  }

  /** Every possible sequence of numbers is the numbering of some identifiers. */
  lemma {:induction false} NamedNumbered(ns: seq<Item<nat>>)
    requires Countable(0, ns)
    ensures Numbered(NamedAll(ns)) == ns && Table(NamedAll(ns)) == NamesFor(After(0, ns)) && After(0, ns) <= NAMES
    decreases |ns|
  {
    hide NameFor, NamesFor, Find, Countable, After, Step, Known, NumberOne, Named;
    if ns == [] {
      NoNumbers();
    } else {
      var m := |ns| - 1;
      assert ns == ns[..m] + [ns[m]];
      CountableSnoc(0, ns[..m], ns[m]);
      NamedNumbered(ns[..m]);
      var xs := NamedAll(ns);
      assert xs[..m] == NamedAll(ns[..m]);
      NamedStep(After(0, ns[..m]), ns[m]);
    }
  }

  lemma NoNumbers()
    ensures NamesFor(After(0, [])) == [] && After(0, []) == 0
  {
  }

  lemma NamedStep(s: nat, n: Item<nat>)
    requires s <= NAMES && (n.Name? ==> n.v <= s)
    ensures NumberOne(NamesFor(s), Named(n)) == n && Named(n).Name? == n.Name?
    ensures n.Name? ==> Known(NamesFor(s), Named(n).v) == NamesFor(Step(s, n.v)) && Step(s, n.v) <= NAMES
  {
    hide NameFor, NamesFor, Known;
    if n.Name? {
      FindNameFor(s, n.v);
      NextName(s, n.v);
    }
  }

  lemma NextName(s: nat, k: nat)
    requires k <= s <= NAMES
    ensures Known(NamesFor(s), NameFor(k)) == NamesFor(Step(s, k))
  {
    FindNameFor(s, k);
    hide Kept, NameFor;
    if k == s && s < NAMES { assert NamesFor(s + 1) == NamesFor(s) + [NameFor(s)]; }
  }

  // ----- spelling one number out -----

  function DigitItems(d: string): (r: seq<Item<nat>>)
    ensures |r| == |d|
  {
    if d == "" then [] else [Keep(Ch(d[0]))] + DigitItems(d[1..])
  }

  /** A numbered name, written as a dollar sign and digits. */
  function SpelledOut(k: nat): (r: seq<Item<nat>>)
    ensures |r| > 1
  {
    [Keep(Ch('$'))] + DigitItems(Dec(k))
  }

  lemma {:induction false} DigitsPrint(d: string)
    ensures Print(DigitItems(d)) == d
    decreases |d|
  {
    if d != "" {
      hide Print;
      DigitsPrint(d[1..]);
      PrintKept(Ch(d[0]), DigitItems(d[1..]));
    }
  }

  lemma SpelledPrints(k: nat)
    ensures Print(SpelledOut(k)) == PrintOne(Name(k))
  {
    hide Dec;
    DigitsPrint(Dec(k));
    assert SpelledOut(k)[1..] == DigitItems(Dec(k));
  }

  lemma {:induction false} DigitsUncounted(s: nat, d: string, rest: seq<Item<nat>>)
    ensures Countable(s, DigitItems(d) + rest) == Countable(s, rest)
    decreases |d|
  {
    var all := DigitItems(d) + rest;
    if d == "" {
      assert all == rest;
    } else {
      assert all[1..] == DigitItems(d[1..]) + rest;
      DigitsUncounted(s, d[1..], rest);
    }
  }

  lemma SpelledUncounted(s: nat, k: nat, rest: seq<Item<nat>>)
    ensures Countable(s, SpelledOut(k) + rest) == Countable(s, rest)
  {
    hide Dec;
    var all := SpelledOut(k) + rest;
    assert all[1..] == DigitItems(Dec(k)) + rest;
    DigitsUncounted(s, Dec(k), rest);
  }

  predicate GapItem<N>(x: Item<N>) { x.Keep? && x.t.Gap? }

  /** `ms` is `ns` with some numbers spelled out, none of them right after a gap (`g`: a gap stands before). */
  ghost predicate SomeSpelled(g: bool, ns: seq<Item<nat>>, ms: seq<Item<nat>>)
    decreases |ns|
  {
    if ns == [] then ms == []
    else
      || (ms != [] && ms[0] == ns[0] && SomeSpelled(GapItem(ns[0]), ns[1..], ms[1..]))
      || (!g && ns[0].Name? && SpelledOut(ns[0].v) <= ms &&
          SomeSpelled(false, ns[1..], ms[|SpelledOut(ns[0].v)|..]))
  }

  /** No gap stands before position `i`. */
  predicate Bare<N>(g: bool, xs: seq<Item<N>>, i: nat)
    requires i < |xs|
  {
    if i == 0 then !g else !GapItem(xs[i - 1])
  }

  const FILLER: Item<nat> := Keep(Ch('$'))

  /** A numbered name that is no gap's follower, and that the other numbers do not need. */
  predicate Spare(g: bool, s: nat, ns: seq<Item<nat>>, i: nat) {
    i < |ns| && ns[i].Name? && Bare(g, ns, i) && Countable(s, ns[i := FILLER])
  }

  /** If some numbers can be spelled out together, one can alone. */
  lemma {:induction false} OneSpare(g: bool, s: nat, s': nat, ns: seq<Item<nat>>, ms: seq<Item<nat>>) returns (i: nat)
    requires SomeSpelled(g, ns, ms) && s <= s' <= NAMES && Countable(s', ns) && Countable(s, ms) && ns != ms
    ensures Spare(g, s', ns, i)
    decreases |ns|
  {
    hide Dec, SpelledOut;
    var rest := ns[1..];
    if ms != [] && ms[0] == ns[0] && SomeSpelled(GapItem(ns[0]), rest, ms[1..]) {
      assert ns == [ns[0]] + rest && ms == [ms[0]] + ms[1..];
      var t, t' := if ns[0].Name? then Step(s, ns[0].v) else s, if ns[0].Name? then Step(s', ns[0].v) else s';
      i := OneSpare(GapItem(ns[0]), t, t', rest, ms[1..]);
      SpareLater(g, s', ns, i);
      i := i + 1;
    } else {
      var tail := ms[|SpelledOut(ns[0].v)|..];
      assert ms == SpelledOut(ns[0].v) + tail;
      SpelledUncounted(s, ns[0].v, tail);
      if rest == tail {
        i := 0;
        CountableMore(s, s', rest);
        assert ns[0 := FILLER][1..] == rest;
      } else {
        i := OneSpare(false, s, Step(s', ns[0].v), rest, tail);
        SpareLater(g, s', ns, i);
        i := i + 1;
      }
    }
  }

  lemma SpareLater(g: bool, s: nat, ns: seq<Item<nat>>, i: nat)
    requires ns != [] && (ns[0].Name? ==> ns[0].v <= s)
    requires Spare(GapItem(ns[0]), if ns[0].Name? then Step(s, ns[0].v) else s, ns[1..], i)
    ensures Spare(g, s, ns, i + 1)
  {
    hide Step;
    assert ns[i + 1 := FILLER][1..] == ns[1..][i := FILLER];
  }

  // ----- a text with the form of a dollar-free one spells some numbers out -----

  /** Every gap is followed by a word. */
  ghost predicate Leads(ys: seq<Item<string>>) {
    forall i :: 0 <= i < |ys| && GapItem(ys[i]) ==> i + 1 < |ys| && StartsWord(TokOf(ys[i + 1]))
  }

  lemma {:induction false} SqueezeLeads(w: bool, ts: seq<Tok>)
    requires WellFormed(w, ts)
    ensures Leads(Squeeze(w, ts))
    decreases |ts|
  {
    hide IsId, Kept, TokOf;
    if ts != [] {
      var rest := ts[1..];
      SqueezeHead(w, ts);
      if ts[0].Gap? && w && |ts| > 1 && StartsWord(ts[1]) {
        SqueezeLeads(false, rest);
        SqueezeHead(false, rest);
        LeadsCons(Keep(Gap(" ")), Squeeze(false, rest));
      } else if ts[0].Gap? {
        if w { NotAWord(rest); }
        SqueezeLeads(w, rest);
      } else {
        SqueezeLeads(EndsWord(ts[0]), rest);
        LeadsCons(ItemOf(ts[0]), Squeeze(EndsWord(ts[0]), rest));
      }
    }
  }

  lemma LeadsCons(x: Item<string>, ys: seq<Item<string>>)
    requires Leads(ys) && (GapItem(x) ==> ys != [] && StartsWord(TokOf(ys[0])))
    ensures Leads([x] + ys)
  {
    hide TokOf, StartsWord;
    var zs := [x] + ys;
    forall i | 0 <= i < |zs| && GapItem(zs[i])
      ensures i + 1 < |zs| && StartsWord(TokOf(zs[i + 1]))
    {
      if i > 0 { assert zs[i] == ys[i - 1] && GapItem(ys[i - 1]); }
    }
  }

  lemma LeadsConcat(xs: seq<Item<string>>, ys: seq<Item<string>>)
    requires Leads(xs) && Leads(ys)
    ensures Leads(xs + ys)
  {
    hide TokOf, StartsWord;
    var zs := xs + ys;
    forall i | 0 <= i < |zs| && GapItem(zs[i])
      ensures i + 1 < |zs| && StartsWord(TokOf(zs[i + 1]))
    {
      if i < |xs| { assert GapItem(xs[i]); } else { assert GapItem(ys[i - |xs|]); }
    }
  }

  lemma {:induction false} ItemsLead(lines: seq<string>)
    ensures Leads(ItemsOf(lines))
    decreases |lines|
  {
    hide Lex, Squeeze, WellFormed, Leads, Trim;
    NothingLeads();
    if lines != [] {
      ItemsLead(lines[1..]);
      var m := Trim(lines[0]);
      LexSound(false, m);
      SqueezeLeads(false, Lex(false, m));
      LeadsConcat(LineItems(lines[0]), [Eol]);
      LeadsConcat(Ended(LineItems(lines[0])), ItemsOf(lines[1..]));
    }
  }

  lemma NothingLeads()
    ensures Leads([]) && Leads([Eol])
  {
  }

  /** What `ys` must satisfy while it is read from the left. */
  ghost predicate Tail(v: bool, ys: seq<Item<string>>, ms: seq<Item<nat>>) {
    WellFormed(v, Toks(ys)) && Shape(ys, ms) && Eol !in ys && Leads(ys)
  }

  lemma TailNext(v: bool, ys: seq<Item<string>>, ms: seq<Item<nat>>) returns (v': bool)
    requires Tail(v, ys, ms) && ys != []
    ensures |ms| == |ys| && ms[0] != Eol && ShapeOne(ys[0], ms[0]) && Tail(v', ys[1..], ms[1..])
    ensures GapItem(ys[0]) ==> |ys| > 1 && StartsWord(TokOf(ys[1]))
  {
    hide TokOf, StartsWord, TokOk;
    ShapeTail(ys, ms);
    assert ys[0] in ys;
    assert Toks(ys)[1..] == Toks(ys[1..]);
    v' := EndsWord(Toks(ys)[0]);
    assert Leads(ys[1..]) by {
      assert ys == [ys[0]] + ys[1..];
      forall i | 0 <= i < |ys[1..]| && GapItem(ys[1..][i])
        ensures i + 1 < |ys[1..]| && StartsWord(TokOf(ys[1..][i + 1]))
      {
        assert GapItem(ys[i + 1]);
      }
    }
  }

  /** Digit tokens come from digit items only. */
  lemma {:induction false} PeelDigits(v: bool, ys: seq<Item<string>>, ms: seq<Item<nat>>, d: string, b: seq<Tok>)
    returns (v': bool)
    requires Tail(v, ys, ms) && AllDigits(d) && Shown(ms) == Chars(d) + b
    ensures DigitItems(d) <= ms && |ys| == |ms| && Tail(v', ys[|d|..], ms[|d|..]) && Shown(ms[|d|..]) == b
    decreases |d|
  {
    TailLength(v, ys, ms);
    DigitsHead(d, b);
    NoDigits();
    hide *;
    if d == "" {
      v' := v;
      assert ys[0..] == ys && ms[0..] == ms;
    } else {
      var u := PeelOne(v, ys, ms, d, b);
      v' := PeelDigits(u, ys[1..], ms[1..], d[1..], b);
      SkipMore(ys, |d|);
      SkipMore(ms, |d|);
      DigitsLead(d, ms);
    }
  }

  lemma SkipMore<T>(s: seq<T>, n: nat)
    requires 1 <= n <= |s|
    ensures s[1..][n - 1..] == s[n..]
  {
  }

  /** The first digit of a run. */
  lemma PeelOne(v: bool, ys: seq<Item<string>>, ms: seq<Item<nat>>, d: string, b: seq<Tok>) returns (u: bool)
    requires Tail(v, ys, ms) && AllDigits(d) && d != "" && Shown(ms) == Chars(d) + b
    ensures ys != [] && ms != [] && ms[0] == Keep(Ch(d[0])) && AllDigits(d[1..])
    ensures Tail(u, ys[1..], ms[1..]) && Shown(ms[1..]) == Chars(d[1..]) + b
  {
    hide Tail, WellFormed, Shape, Chars, Shown, AllDigits, TokOf, StartsWord;
    TailLength(v, ys, ms);
    DigitsHead(d, b);
    NothingShown();
    assert ms != [];
    TailDigits(d);
    u := TailNext(v, ys, ms);
    HeadShown(ms);
    NotDollar(d[0]);
  }

  lemma DigitsLead(d: string, ms: seq<Item<nat>>)
    requires d != "" && ms != [] && ms[0] == Keep(Ch(d[0])) && DigitItems(d[1..]) <= ms[1..]
    ensures DigitItems(d) <= ms
  {
    assert ms == [ms[0]] + ms[1..];
  }

  lemma NotDollar(c: char)
    requires IsDigit(c)
    ensures Ch(c) != Ch('$')
  {
  }

  lemma TailLength(v: bool, ys: seq<Item<string>>, ms: seq<Item<nat>>)
    requires Tail(v, ys, ms)
    ensures |ys| == |ms|
  {
  }

  lemma {:induction false} ShownSpelled(w: bool, xs: seq<Item<string>>, ns: seq<Item<nat>>,
                                        v: bool, ys: seq<Item<string>>, ms: seq<Item<nat>>, g: bool)
    requires WellFormed(w, Toks(xs)) && Shape(xs, ns) && DollarFree(xs) && Eol !in xs
    requires Tail(v, ys, ms) && (g && ys != [] ==> StartsWord(TokOf(ys[0])))
    requires Shown(ns) == Shown(ms)
    ensures SomeSpelled(g, ns, ms)
    decreases |xs|
  {
    hide Tail, WellFormed, Shape, Dec, Chars, Shown, SpelledOut, DigitItems, SomeSpelled, StartsWord, EndsWord, AllDigits;
    ShapeLength(xs, ns);
    TailLength(v, ys, ms);
    if xs == [] {
      NothingShown();
      if ys != [] {
        var u := TailNext(v, ys, ms);
        HeadShown(ms);
      }
    } else {
      ShapeTail(xs, ns);
      assert xs[0] in xs && xs[0] != Keep(Ch('$'));
      HeadShown(ns);
      TailOk(w, xs);
      if ys == [] { NothingShown(); }
      var u := TailNext(v, ys, ms);
      HeadShown(ms);
      var w' := EndsWord(Toks(xs)[0]);
      if ns[0].Keep? {
        ShownSpelled(w', xs[1..], ns[1..], u, ys[1..], ms[1..], GapItem(ns[0]));
        KeepsFirst(g, ns, ms);
      } else if ms[0].Name? {
        NamesAgree(w, xs, ns, v, ys, ms);
        ShownSpelled(w', xs[1..], ns[1..], u, ys[1..], ms[1..], false);
        KeepsFirst(g, ns, ms);
      } else {
        var d := Dec(ns[0].v);
        DecDigits(ns[0].v);
        var u' := PeelDigits(u, ys[1..], ms[1..], d, Shown(ns[1..]));
        assert ys[1..][|d|..] == ys[1 + |d|..] && ms[1..][|d|..] == ms[1 + |d|..];
        ShownSpelled(w', xs[1..], ns[1..], u', ys[1 + |d|..], ms[1 + |d|..], false);
        DollarStartsNot();
        SpellsFirst(g, ns, ms);
      }
    }
  }

  lemma NothingShown()
    ensures Shown([]) == [] && forall g :: SomeSpelled(g, [], [])
  {
  }

  lemma DecDigits(k: nat)
    ensures AllDigits(Dec(k))
  {
  }

  /** Two numbers at the front of equal texts are the same. */
  lemma NamesAgree(w: bool, xs: seq<Item<string>>, ns: seq<Item<nat>>, v: bool, ys: seq<Item<string>>, ms: seq<Item<nat>>)
    requires WellFormed(w, Toks(xs)) && Shape(xs, ns) && xs != [] && xs[0].Name? && |ns| > 0 && ns[0].Name?
    requires Tail(v, ys, ms) && ys != [] && ys[0].Name? && |ms| > 0 && ms[0].Name?
    requires Chars(Dec(ns[0].v)) + Shown(ns[1..]) == Chars(Dec(ms[0].v)) + Shown(ms[1..])
    ensures ns[0] == ms[0] && Shown(ns[1..]) == Shown(ms[1..])
  {
    hide Tail, WellFormed, Shape, Dec, Chars, Shown, AllDigits, DigitTok;
    AfterName(w, xs, ns);
    TailAfter(v, ys, ms);
    AfterName(v, ys, ms);
    DecDigits(ns[0].v);
    DecDigits(ms[0].v);
    SameDigits(Dec(ns[0].v), Dec(ms[0].v), Shown(ns[1..]), Shown(ms[1..]));
    DecInjective(ns[0].v, ms[0].v);
  }

  lemma KeepsFirst(g: bool, ns: seq<Item<nat>>, ms: seq<Item<nat>>)
    requires ns != [] && ms != [] && ms[0] == ns[0] && SomeSpelled(GapItem(ns[0]), ns[1..], ms[1..])
    ensures SomeSpelled(g, ns, ms)
  {
  }

  lemma SpellsFirst(g: bool, ns: seq<Item<nat>>, ms: seq<Item<nat>>)
    requires !g && ns != [] && ns[0].Name? && ms != [] && ms[0] == Keep(Ch('$')) && DigitItems(Dec(ns[0].v)) <= ms[1..]
    requires SomeSpelled(false, ns[1..], ms[1 + |Dec(ns[0].v)|..])
    ensures SomeSpelled(g, ns, ms)
  {
    hide Dec, DigitItems;
    assert ms == [ms[0]] + ms[1..];
    assert |SpelledOut(ns[0].v)| == 1 + |Dec(ns[0].v)|;
  }

  lemma TailAfter(v: bool, ys: seq<Item<string>>, ms: seq<Item<nat>>)
    requires Tail(v, ys, ms)
    ensures WellFormed(v, Toks(ys)) && Shape(ys, ms)
  {
  }

  lemma DollarStartsNot()
    ensures !StartsWord(Ch('$'))
  {
  }

  lemma {:induction false} SpelledConcat(g: bool, a: seq<Item<nat>>, c: seq<Item<nat>>,
                                         b: seq<Item<nat>>, d: seq<Item<nat>>)
    requires SomeSpelled(g, a, c) && SomeSpelled(false, b, d)
    ensures SomeSpelled(g, a + [Eol] + b, c + [Eol] + d)
    decreases |a|
  {
    hide SpelledOut;
    var x, y := a + [Eol] + b, c + [Eol] + d;
    if a == [] {
      assert x[1..] == b && y[1..] == d;
    } else if c != [] && c[0] == a[0] && SomeSpelled(GapItem(a[0]), a[1..], c[1..]) {
      assert x[1..] == a[1..] + [Eol] + b && y[1..] == c[1..] + [Eol] + d;
      SpelledConcat(GapItem(a[0]), a[1..], c[1..], b, d);
    } else {
      var n := |SpelledOut(a[0].v)|;
      assert x[1..] == a[1..] + [Eol] + b && y[n..] == c[n..] + [Eol] + d;
      assert SpelledOut(a[0].v) <= y;
      SpelledConcat(false, a[1..], c[n..], b, d);
    }
  }

  lemma LineSpelled(xs: seq<Item<string>>, ns: seq<Item<nat>>, ys: seq<Item<string>>, ms: seq<Item<nat>>)
    requires LineOk(xs) && Shape(xs, ns) && DollarFree(xs) && LineOk(ys) && Shape(ys, ms) && Leads(ys)
    requires Print(ns) == Print(ms)
    ensures SomeSpelled(false, ns, ms)
  {
    hide WellFormed, Shown, Print, Shape, DollarFree, Leads;
    ShownPrints(ns);
    ShownPrints(ms);
    ShownWellFormed(false, xs, ns);
    ShownWellFormed(false, ys, ms);
    LexRender(false, Shown(ns));
    LexRender(false, Shown(ms));
    ShownSpelled(false, xs, ns, false, ys, ms, false);
  }

  lemma LeadsCut(ys: seq<Item<string>>, e: nat)
    requires Leads(ys) && e < |ys| && ys[e] == Eol
    ensures Leads(ys[..e]) && Leads(ys[e + 1..])
  {
    hide TokOf;
    assert !StartsWord(TokOf(ys[e])) by { EolNoWord(); }
    forall i | 0 <= i < e && GapItem(ys[..e][i])
      ensures i + 1 < e && StartsWord(TokOf(ys[..e][i + 1]))
    {
      assert GapItem(ys[i]);
    }
    var tail := ys[e + 1..];
    forall i | 0 <= i < |tail| && GapItem(tail[i])
      ensures i + 1 < |tail| && StartsWord(TokOf(tail[i + 1]))
    {
      assert GapItem(ys[e + 1 + i]);
    }
  }

  lemma EolNoWord()
    ensures !StartsWord(TokOf(Eol))
  {
  }

  lemma EolThere(xs: seq<Item<string>>)
    ensures EolAt(xs) < |xs| ==> xs[EolAt(xs)] == Eol
  {
  }

  lemma {:induction false} SheetSpelled(xs: seq<Item<string>>, ns: seq<Item<nat>>,
                                        ys: seq<Item<string>>, ms: seq<Item<nat>>)
    requires Sheet(xs) && Shape(xs, ns) && DollarFree(xs) && Sheet(ys) && Shape(ys, ms) && Leads(ys)
    requires Print(ns) == Print(ms)
    ensures SomeSpelled(false, ns, ms)
    decreases |xs|
  {
    hide Sheet, Shape, DollarFree, LineOk, Print, Leads, SomeSpelled, EolAt, NoNewline;
    NothingShown();
    ShapeLength(xs, ns);
    ShapeLength(ys, ms);
    if xs != [] { SheetLine(xs, ns); }
    if ys != [] { SheetLine(ys, ms); }
    if xs != [] && ys != [] {
      var e, f := EolAt(xs), EolAt(ys);
      DollarCut(xs, e);
      EolThere(ys);
      LeadsCut(ys, f);
      SameFirstLine(Print(ns[..e]), Print(ns[e + 1..]), Print(ms[..f]), Print(ms[f + 1..]));
      LineSpelled(xs[..e], ns[..e], ys[..f], ms[..f]);
      SheetSpelled(xs[e + 1..], ns[e + 1..], ys[f + 1..], ms[f + 1..]);
      SpelledConcat(false, ns[..e], ms[..f], ns[e + 1..], ms[f + 1..]);
      assert ns == ns[..e] + [Eol] + ns[e + 1..];
      assert ms == ms[..f] + [Eol] + ms[f + 1..];
    }
  }

  /** A text that imitates a dollar-free one leaves a spare number in it. */
  lemma ImitatedSpare(a: string, b: string) returns (i: nat)
    requires DollarFree(Items(a)) && Form(a) == Form(b) && Numbered(Items(a)) != Numbered(Items(b))
    ensures Spare(false, 0, Numbered(Items(a)), i)
  {
    hide Items, DollarFree, Sheet, Shape, Print, Leads, Countable, SomeSpelled, Numbered, Spare;
    TextSheet(a);
    TextSheet(b);
    TextLeads(b);
    NumberedShape(Items(a));
    NumberedShape(Items(b));
    SheetSpelled(Items(a), Numbered(Items(a)), Items(b), Numbered(Items(b)));
    NumberedCountable(Items(a));
    NumberedCountable(Items(b));
    i := OneSpare(false, 0, 0, Numbered(Items(a)), Numbered(Items(b)));
  }

  lemma TextLeads(b: string)
    ensures Leads(Items(b))
  {
    hide Leads, ItemsOf;
    ItemsLead(Lines(b));
  }

  // ----- writing items as a text -----

  /** Items that are what a line of their own text gives. */
  ghost predicate GoodLine(xs: seq<Item<string>>) {
    xs != [] && LineOk(xs) && Squeeze(false, Toks(xs)) == xs && Trimmed(Render(Toks(xs)))
  }

  ghost predicate GoodSheet(xs: seq<Item<string>>)
    decreases |xs|
  {
    xs == [] || (EolAt(xs) < |xs| && GoodLine(xs[..EolAt(xs)]) && GoodSheet(xs[EolAt(xs) + 1..]))
  }

  lemma {:induction false} ToksConcat(xs: seq<Item<string>>, ys: seq<Item<string>>)
    ensures Toks(xs + ys) == Toks(xs) + Toks(ys)
    decreases |xs|
  {
    hide TokOf;
    if xs == [] {
      assert xs + ys == ys;
    } else {
      assert (xs + ys)[1..] == xs[1..] + ys;
      ToksConcat(xs[1..], ys);
    }
  }

  /** The text of a good sheet has exactly its items. */
  lemma {:induction false} TextOfSheet(xs: seq<Item<string>>)
    requires GoodSheet(xs)
    ensures Items(Render(Toks(xs))) == xs
    decreases |xs|
  {
    hide GoodLine, GoodSheet, EolAt, Toks, Render, Lines, ItemsOf, LineItems, Ended;
    if xs == [] {
      EmptyText();
    } else {
      GoodSheetCut(xs);
      var e := EolAt(xs);
      var line, rest := xs[..e], xs[e + 1..];
      TextOfSheet(rest);
      RenderSheet(line, rest);
      LineBack(line);
      LineThen(Render(Toks(line)), Render(Toks(rest)));
      ItemsCons(Render(Toks(line)), Lines(Render(Toks(rest))));
      EndedIs(line);
    }
  }

  lemma EmptyText()
    ensures Items(Render(Toks([]))) == []
  {
    assert Render([]) == "" && Lines("") == [];
  }

  lemma EndedIs(line: seq<Item<string>>)
    requires GoodLine(line)
    ensures Ended(line) == line + [Eol]
  {
  }

  lemma RenderSheet(line: seq<Item<string>>, rest: seq<Item<string>>)
    ensures Render(Toks(line + [Eol] + rest)) == Render(Toks(line)) + ("\n" + Render(Toks(rest)))
  {
    EolText();
    hide Toks, Render;
    ToksConcat(line + [Eol], rest);
    ToksConcat(line, [Eol]);
    RenderConcat(Toks(line + [Eol]), Toks(rest));
    RenderConcat(Toks(line), Toks([Eol]));
  }

  lemma EolText()
    ensures Render(Toks([Eol])) == "\n"
  {
    var one: seq<Item<string>> := [Eol];
    assert one[1..] == [] && Toks(one) == [Ch('\n')];
    assert [Ch('\n')][1..] == [];
  }

  lemma LineBack(line: seq<Item<string>>)
    requires GoodLine(line)
    ensures NoNewline(Render(Toks(line))) && LineItems(Render(Toks(line))) == line
  {
    hide WellFormed, Render, Lex, Squeeze, Toks, NoNewline, Trimmed, Trim;
    var l := Render(Toks(line));
    LexRender(false, Toks(line));
    TrimSame(l);
  }

  lemma TrimSame(l: string)
    requires Trimmed(l)
    ensures Trim(l) == l
  {
    hide Trim, Trimmed, Edge;
    assert AllEdge("");
    TrimMiddle("", l, "");
    assert "" + l + "" == l;
  }

  /** The items of any text are a good sheet. */
  lemma {:induction false} GoodItems(ls: seq<string>)
    requires forall i :: 0 <= i < |ls| ==> NoNewline(ls[i])
    ensures GoodSheet(ItemsOf(ls))
    decreases |ls|
  {
    hide LineItems, GoodLine, NoNewline;
    if ls != [] {
      var xs, rest := LineItems(ls[0]), ItemsOf(ls[1..]);
      GoodItems(ls[1..]);
      if xs != [] {
        GoodLineItems(ls[0]);
        var all := xs + [Eol] + rest;
        GoodNoEol(xs);
        EolAtIs(xs, rest);
        assert all[..|xs|] == xs && all[|xs| + 1..] == rest;
        assert ItemsOf(ls) == all;
      } else {
        assert ItemsOf(ls) == rest;
      }
    }
  }

  lemma GoodNoEol(xs: seq<Item<string>>)
    requires GoodLine(xs)
    ensures Eol !in xs
  {
  }

  lemma GoodLineItems(l: string)
    requires NoNewline(l) && LineItems(l) != []
    ensures GoodLine(LineItems(l))
  {
    LineItemsOk(l);
    hide WellFormed, Squeeze, Render, Lex, TrimStart, TrimEnd, Toks, NoNewline, LineOk, Trimmed;
    var m := Trim(l);
    LexSound(false, m);
    SqueezeAgain(false, Lex(false, m));
    TrimIsTrimmed(l);
    SqueezedTrimmed(m);
  }

  /** Squeezing keeps a line's last token. */
  lemma {:induction false} SqueezeLast(w: bool, ts: seq<Tok>)
    requires ts != [] && !ts[|ts| - 1].Gap?
    ensures var xs := Squeeze(w, ts); xs != [] && TokOf(xs[|xs| - 1]) == ts[|ts| - 1]
    decreases |ts|
  {
    hide TokOf, ItemOf, StartsWord, EndsWord;
    if |ts| == 1 {
      assert ts[1..] == [];
      ItemTok(ts[0]);
    } else {
      SqueezeLast(false, ts[1..]);
      SqueezeLast(w, ts[1..]);
      SqueezeLast(EndsWord(ts[0]), ts[1..]);
    }
  }

  lemma {:induction false} ToksAt(xs: seq<Item<string>>, i: nat)
    requires i < |xs|
    ensures Toks(xs)[i] == TokOf(xs[i])
    decreases i
  {
    hide TokOf;
    if i > 0 { ToksAt(xs[1..], i - 1); }
  }

  /** A gap shows blanks at both ends. */
  lemma GapShows(w: bool, t: Tok, rest: seq<Tok>)
    requires TokOk(w, t, rest)
    ensures Raw(t) != "" && (t.Gap? ==> Edge(Raw(t)[0]) && Edge(Raw(t)[|Raw(t)| - 1]))
  {
  }

  /** Squeezing keeps a trimmed line trimmed. */
  lemma SqueezedTrimmed(m: string)
    requires Trimmed(m)
    ensures Trimmed(Render(Toks(Squeeze(false, Lex(false, m)))))
  {
    hide Squeeze, Lex, WellFormed, Render, Toks, Raw, Edge, TokOf, TokOk;
    var ts := Lex(false, m);
    var xs := Squeeze(false, ts);
    var us := Toks(xs);
    LexSound(false, m);
    SqueezeWellFormed(false, ts);
    EmptyRender(us);
    if us != [] {
      SqueezeNothing(ts);
      RenderEnds(false, us);
      RenderEnds(false, ts);
      FirstTokOk(false, ts);
      var v := LastOk(false, ts);
      GapShows(false, ts[0], ts[1..]);
      GapShows(v, ts[|ts| - 1], []);
      SqueezeHead(false, ts);
      SqueezeLast(false, ts);
      ToksAt(xs, 0);
      ToksAt(xs, |xs| - 1);
    }
  }

  lemma SqueezeNothing(ts: seq<Tok>)
    ensures Toks(Squeeze(false, ts)) != [] ==> ts != []
  {
  }

  lemma FirstTokOk(w: bool, ts: seq<Tok>)
    requires WellFormed(w, ts) && ts != []
    ensures TokOk(w, ts[0], ts[1..])
  {
  }

  // ----- spelling one number out in a text -----

  /** The numbers with the one at `i`, if there is one, spelled out. */
  function Spell(ns: seq<Item<nat>>, i: int): seq<Item<nat>> {
    if ns == [] then []
    else (if i == 0 && ns[0].Name? then SpelledOut(ns[0].v) else [ns[0]]) + Spell(ns[1..], i - 1)
  }

  lemma {:induction false} NamedConcat(a: seq<Item<nat>>, b: seq<Item<nat>>)
    ensures NamedAll(a + b) == NamedAll(a) + NamedAll(b)
    decreases |b|
  {
    hide Named;
    if b == [] {
      assert a + b == a;
    } else {
      var n := |b| - 1;
      assert (a + b)[..|a + b| - 1] == a + b[..n];
      NamedConcat(a, b[..n]);
    }
  }

  lemma NamedCons(n: Item<nat>, b: seq<Item<nat>>)
    ensures NamedAll([n] + b) == [Named(n)] + NamedAll(b)
  {
    NamedConcat([n], b);
    assert [n][..0] == [];
    assert NamedAll([n]) == NamedAll([]) + [Named(n)];
  }

  /** Items that squeezing leaves, after `w`. */
  ghost predicate Fixed(w: bool, xs: seq<Item<string>>) {
    WellFormed(w, Toks(xs)) && Squeeze(w, Toks(xs)) == xs && Eol !in xs
  }

  /** An item that squeezing keeps in its place. */
  ghost predicate Placed(w: bool, x: Item<string>, rest: seq<Item<string>>) {
    var t := TokOf(x);
    && x != Eol && TokOk(w, t, Toks(rest))
    && if t.Gap? then x == Keep(Gap(" ")) && w && rest != [] && StartsWord(TokOf(rest[0])) else x == ItemOf(t)
  }

  lemma FixedTail(w: bool, xs: seq<Item<string>>)
    requires Fixed(w, xs) && xs != []
    ensures Placed(w, xs[0], xs[1..]) && Fixed(EndsWord(TokOf(xs[0])), xs[1..])
  {
    hide TokOk, StartsWord, EndsWord;
    var ts, rest := Toks(xs), Toks(xs[1..]);
    assert ts[1..] == rest && xs[0] in xs;
    var t := TokOf(xs[0]);
    if t.Gap? {
      FixedGap(w, t, rest, xs);
      if xs[1..] != [] { assert rest[0] == TokOf(xs[1]); }
    } else {
      assert Squeeze(w, ts) == [ItemOf(t)] + Squeeze(EndsWord(t), rest);
      assert ([ItemOf(t)] + Squeeze(EndsWord(t), rest))[1..] == Squeeze(EndsWord(t), rest);
    }
  }

  /** A gap that squeezing keeps. */
  lemma FixedGap(w: bool, t: Tok, rest: seq<Tok>, xs: seq<Item<string>>)
    requires t.Gap? && TokOk(w, t, rest) && xs != [] && TokOf(xs[0]) == t && xs[0] != Eol
    requires Squeeze(w, [t] + rest) == xs
    ensures xs[0] == Keep(Gap(" ")) && w && rest != [] && StartsWord(rest[0]) && Squeeze(false, rest) == xs[1..]
    ensures !EndsWord(t)
  {
    hide Kept, StartsWord, IsId;
    var all := [t] + rest;
    assert all[1..] == rest;
    if rest != [] && w && StartsWord(rest[0]) {
      assert ([Keep(Gap(" "))] + Squeeze(false, rest))[1..] == Squeeze(false, rest);
    } else {
      SqueezeHead(w, rest);
    }
  }

  lemma FixedCons(w: bool, x: Item<string>, zs: seq<Item<string>>)
    requires Placed(w, x, zs) && Fixed(EndsWord(TokOf(x)), zs)
    ensures Fixed(w, [x] + zs)
  {
    hide TokOk, StartsWord, IsId, Kept;
    var all := [x] + zs;
    assert all[1..] == zs;
    var ts := Toks(all);
    assert ts == [TokOf(x)] + Toks(zs) && ts[1..] == Toks(zs);
    if zs != [] { assert ts[1] == TokOf(zs[0]); }
  }

  /** What follows a token matters only by how it begins. */
  lemma TokOkLike(w: bool, t: Tok, rest: seq<Tok>, rest': seq<Tok>)
    requires TokOk(w, t, rest) && (rest == [] <==> rest' == [])
    requires rest != [] ==> (StartsWord(rest'[0]) ==> StartsWord(rest[0])) && (rest'[0].Gap? ==> rest[0].Gap?)
    ensures TokOk(w, t, rest')
  {
  }

  /** `zs` begins as `xs` does; where the first number is spelled out, with a dollar sign. */
  ghost predicate Begins(xs: seq<Item<string>>, zs: seq<Item<string>>, spelled: bool) {
    && (xs == [] <==> zs == [])
    && (xs != [] ==> if spelled then TokOf(zs[0]) == Ch('$')
                     else StartsWord(TokOf(zs[0])) == StartsWord(TokOf(xs[0])) && GapItem(zs[0]) == GapItem(xs[0]))
  }

  lemma {:induction false} FixedDigits(w: bool, d: string, zs: seq<Item<string>>)
    requires d != "" && AllDigits(d) && Fixed(true, zs)
    ensures Fixed(w, NamedAll(DigitItems(d)) + zs)
    decreases |d|
  {
    hide Fixed, Placed, NamedAll, DigitItems, AllDigits, TokOf, EndsWord;
    var x: Item<string> := Keep(Ch(d[0]));
    var rest := NamedAll(DigitItems(d[1..])) + zs;
    DigitsFirst(d, zs);
    DigitPlaced(w, d[0], rest);
    if |d| > 1 {
      TailDigits(d);
      FixedDigits(true, d[1..], zs);
    } else {
      assert d[1..] == "";
    }
    FixedCons(w, x, rest);
  }

  lemma TailDigits(d: string)
    requires AllDigits(d) && d != ""
    ensures AllDigits(d[1..]) && IsDigit(d[0])
  {
  }

  lemma DigitsFirst(d: string, zs: seq<Item<string>>)
    requires d != "" && AllDigits(d)
    ensures IsDigit(d[0]) && NamedAll(DigitItems("")) + zs == zs
    ensures NamedAll(DigitItems(d)) + zs == [Keep(Ch(d[0]))] + (NamedAll(DigitItems(d[1..])) + zs)
  {
    NamedCons(Keep(Ch(d[0])), DigitItems(d[1..]));
    hide NamedAll, DigitItems;
    NoDigits();
    assert NamedAll([]) + zs == zs by { assert NamedAll([]) == []; }
    CatDigits(Keep(Ch(d[0])), NamedAll(DigitItems(d[1..])), zs, NamedAll(DigitItems(d)));
  }

  lemma NoDigits()
    ensures NamedAll([]) == [] && DigitItems("") == []
  {
  }

  lemma CatDigits(x: Item<string>, a: seq<Item<string>>, zs: seq<Item<string>>, all: seq<Item<string>>)
    requires all == [x] + a
    ensures all + zs == [x] + (a + zs)
  {
  }

  lemma DigitPlaced(w: bool, c: char, rest: seq<Item<string>>)
    requires IsDigit(c) || c == '$'
    ensures Placed(w, Keep(Ch(c)), rest) && EndsWord(TokOf(Keep(Ch(c)))) == IsDigit(c)
  {
  }

  lemma {:induction false} FixedSpell(w: bool, xs: seq<Item<string>>, ns: seq<Item<nat>>, i: int)
    requires Fixed(w, xs) && Shape(xs, ns) && (0 <= i < |xs| ==> ns[i].Name?)
    requires 0 < i < |xs| ==> !GapItem(xs[i - 1])
    ensures var zs := NamedAll(Spell(ns, i)); Fixed(w, zs) && Begins(xs, zs, i == 0)
    decreases |xs|
  {
    hide Fixed, Placed, Shape, Begins, WellFormed, TokOf, ItemOf, Spell, NamedAll, Named, SpelledOut, ShapeOne, EndsWord,
         Print;
    ShapeLength(xs, ns);
    if xs == [] {
      NothingSpelled(w, ns, i);
    } else {
      FixedTail(w, xs);
      ShapeTail(xs, ns);
      var rest := NamedAll(Spell(ns[1..], i - 1));
      FixedSpell(EndsWord(TokOf(xs[0])), xs[1..], ns[1..], i - 1);
      SpellFirst(ns, i);
      if i == 0 {
        SpelledHead(w, xs, ns, rest);
      } else {
        assert i == 1 && |xs| > 1 ==> !GapItem(xs[0]);
        NamedHead(w, xs, ns[0], rest, i == 1);
      }
    }
  }

  lemma NothingSpelled(w: bool, ns: seq<Item<nat>>, i: int)
    requires ns == []
    ensures Fixed(w, NamedAll(Spell(ns, i))) && Begins([], NamedAll(Spell(ns, i)), i == 0)
  {
    assert NamedAll([]) == [];
  }

  /** A spelled number in front. */
  lemma SpelledHead(w: bool, xs: seq<Item<string>>, ns: seq<Item<nat>>, rest: seq<Item<string>>)
    requires xs != [] && |ns| == |xs| && ns[0].Name? && ShapeOne(xs[0], ns[0])
    requires Fixed(EndsWord(TokOf(xs[0])), rest)
    ensures Fixed(w, NamedAll(SpelledOut(ns[0].v)) + rest) && Begins(xs, NamedAll(SpelledOut(ns[0].v)) + rest, true)
  {
    hide Fixed, Placed, Dec;
    var d := Dec(ns[0].v);
    assert EndsWord(TokOf(xs[0]));
    assert AllDigits(d);
    FixedDigits(false, d, rest);
    NamedCons(Keep(Ch('$')), DigitItems(d));
    var tail := NamedAll(DigitItems(d)) + rest;
    DigitPlaced(w, '$', tail);
    FixedCons(w, Keep(Ch('$')), tail);
    assert NamedAll(SpelledOut(ns[0].v)) + rest == [Keep(Ch('$'))] + tail;
  }

  /** Any other item in front; what follows it may begin with a spelled number unless it is a gap. */
  lemma NamedHead(w: bool, xs: seq<Item<string>>, n: Item<nat>, rest: seq<Item<string>>, spelled: bool)
    requires xs != [] && ShapeOne(xs[0], n) && Placed(w, xs[0], xs[1..]) && Begins(xs[1..], rest, spelled)
    requires Fixed(EndsWord(TokOf(xs[0])), rest) && (spelled && |xs| > 1 ==> !GapItem(xs[0]))
    ensures Fixed(w, [Named(n)] + rest) && Begins(xs, [Named(n)] + rest, false)
  {
    hide Fixed, Kept, NameFor, Squeeze, WellFormed;
    var t := TokOf(xs[0]);
    var a, b := Toks(xs[1..]), Toks(rest);
    assert a != [] ==> a[0] == TokOf(xs[1..][0]);
    assert b != [] ==> b[0] == TokOf(rest[0]);
    TokOkLike(w, t, a, b);
    NamedPlaced(w, xs[0], n, xs[1..], rest);
    FixedCons(w, Named(n), rest);
  }

  lemma NamedPlaced(w: bool, x: Item<string>, n: Item<nat>, xs: seq<Item<string>>, rest: seq<Item<string>>)
    requires ShapeOne(x, n) && Placed(w, x, xs) && TokOk(w, TokOf(x), Toks(rest))
    requires GapItem(x) ==> rest != [] && StartsWord(TokOf(rest[0]))
    ensures Placed(w, Named(n), rest) && EndsWord(TokOf(Named(n))) == EndsWord(TokOf(x))
    ensures StartsWord(TokOf(Named(n))) == StartsWord(TokOf(x)) && GapItem(Named(n)) == GapItem(x)
  {
    hide Kept, Toks;
  }

  // ----- the spelled text -----

  /** The number at `i`, if that is a position, is one that no gap precedes. */
  ghost predicate Spellable(xs: seq<Item<string>>, ns: seq<Item<nat>>, i: int) {
    Shape(xs, ns) && (0 <= i < |xs| ==> ns[i].Name? && (i > 0 ==> !GapItem(xs[i - 1])))
  }

  lemma {:induction false} SpellConcat(a: seq<Item<nat>>, b: seq<Item<nat>>, i: int)
    ensures Spell(a + b, i) == Spell(a, i) + Spell(b, i - |a|)
    decreases |a|
  {
    hide SpelledOut;
    if a == [] {
      assert a + b == b;
    } else {
      assert (a + b)[1..] == a[1..] + b;
      SpellConcat(a[1..], b, i - 1);
    }
  }

  lemma {:induction false} SpellPrints(ns: seq<Item<nat>>, i: int)
    ensures Print(Spell(ns, i)) == Print(ns)
    decreases |ns|
  {
    hide SpelledOut, PrintOne;
    if ns != [] {
      SpellPrints(ns[1..], i - 1);
      var more := Spell(ns[1..], i - 1);
      if i == 0 && ns[0].Name? {
        SpelledPrints(ns[0].v);
        PrintConcat(SpelledOut(ns[0].v), more);
      } else {
        assert ([ns[0]] + more)[1..] == more;
      }
    }
  }

  lemma {:induction false} SpellNone(ns: seq<Item<nat>>, i: int)
    requires i < 0
    ensures Spell(ns, i) == ns
    decreases |ns|
  {
    if ns != [] { SpellNone(ns[1..], i - 1); }
  }

  lemma {:induction false} SpellCountable(s: nat, ns: seq<Item<nat>>, i: nat)
    requires i < |ns| && ns[i].Name? && Countable(s, ns[i := FILLER])
    ensures Countable(s, Spell(ns, i)) && |Spell(ns, i)| > |ns|
    decreases |ns|
  {
    hide SpelledOut, Step;
    var ms, rest := ns[i := FILLER], ns[1..];
    var more := Spell(rest, i - 1);
    if i == 0 {
      SpellNone(rest, i - 1);
      assert ms[1..] == rest;
      SpelledUncounted(s, ns[0].v, rest);
    } else {
      assert ms[1..] == rest[i - 1 := FILLER];
      SpellCountable(if ns[0].Name? then Step(s, ns[0].v) else s, rest, i - 1);
      assert ([ns[0]] + more)[1..] == more;
    }
  }

  /** How a spelled line begins and ends. */
  lemma {:induction false} SpellEnds(ns: seq<Item<nat>>, i: int)
    requires ns != []
    ensures var zs := NamedAll(Spell(ns, i));
            && zs != [] && (zs[0] == Named(ns[0]) || zs[0] == Keep(Ch('$')))
            && (zs[|zs| - 1] == Named(ns[|ns| - 1]) || exists c :: IsDigit(c) && zs[|zs| - 1] == Keep(Ch(c)))
    decreases |ns|
  {
    hide Named, NameFor;
    var more := Spell(ns[1..], i - 1);
    if i == 0 && ns[0].Name? {
      NamedConcat(SpelledOut(ns[0].v), more);
      SpelledEnds(ns[0].v);
    } else {
      NamedCons(ns[0], more);
    }
    if |ns| > 1 { SpellEnds(ns[1..], i - 1); } else { assert NamedAll(more) == []; }
  }

  lemma SpelledEnds(k: nat)
    ensures var zs := NamedAll(SpelledOut(k));
            zs != [] && zs[0] == Keep(Ch('$')) && exists c :: IsDigit(c) && zs[|zs| - 1] == Keep(Ch(c))
  {
    var d := Dec(k);
    hide Dec;
    NamedCons(Keep(Ch('$')), DigitItems(d));
    assert AllDigits(d);
    DigitsEnd(d);
  }

  lemma {:induction false} DigitsEnd(d: string)
    requires d != "" && AllDigits(d)
    ensures var zs := NamedAll(DigitItems(d)); zs != [] && exists c :: IsDigit(c) && zs[|zs| - 1] == Keep(Ch(c))
    decreases |d|
  {
    NamedCons(Keep(Ch(d[0])), DigitItems(d[1..]));
    if |d| > 1 { DigitsEnd(d[1..]); } else { assert NamedAll(DigitItems(d[1..])) == []; }
  }

  lemma {:induction false} DigitsNoNewline(d: string)
    requires AllDigits(d)
    ensures NoNewline(Render(Toks(NamedAll(DigitItems(d)))))
    decreases |d|
  {
    hide NoNewline;
    if d == "" {
      NothingToShow();
    } else {
      var x: Item<nat> := Keep(Ch(d[0]));
      NamedCons(x, DigitItems(d[1..]));
      DigitsNoNewline(d[1..]);
      OneShown(Named(x), NamedAll(DigitItems(d[1..])));
      CharNoNewline(d[0]);
    }
  }

  lemma NothingToShow()
    ensures NoNewline(Render(Toks(NamedAll([]))))
  {
    assert Toks(NamedAll([])) == [];
  }

  lemma CharNoNewline(c: char)
    requires IsDigit(c) || c == '$'
    ensures NoNewline(Raw(Ch(c)))
  {
  }

  lemma OneShown(x: Item<string>, ys: seq<Item<string>>)
    ensures NoNewline(Render(Toks([x] + ys))) == (NoNewline(Raw(TokOf(x))) && NoNewline(Render(Toks(ys))))
  {
    hide NoNewline, Raw, TokOf;
    var xs := [x] + ys;
    assert xs[1..] == ys;
    assert Toks(xs)[1..] == Toks(ys);
    JoinNoNewline(Raw(TokOf(x)), Render(Toks(ys)));
  }

  lemma JoinShown(xs: seq<Item<string>>, ys: seq<Item<string>>)
    ensures NoNewline(Render(Toks(xs + ys))) == (NoNewline(Render(Toks(xs))) && NoNewline(Render(Toks(ys))))
  {
    hide NoNewline, Toks, Render;
    ToksConcat(xs, ys);
    RenderConcat(Toks(xs), Toks(ys));
    JoinNoNewline(Render(Toks(xs)), Render(Toks(ys)));
  }

  /** A spelled line holds no newline. */
  lemma {:induction false} SpellNoNewline(xs: seq<Item<string>>, ns: seq<Item<nat>>, i: int)
    requires Shape(xs, ns) && NoNewline(Render(Toks(xs)))
    ensures NoNewline(Render(Toks(NamedAll(Spell(ns, i)))))
    decreases |xs|
  {
    hide Shape, NoNewline, Render, Toks, Named, Spell, NamedAll, SpelledOut, Raw, TokOf, Print;
    ShapeLength(xs, ns);
    if xs == [] {
      SpellNothing(i);
      NothingToShow();
    } else {
      ShapeTail(xs, ns);
      OneShown(xs[0], xs[1..]);
      assert xs == [xs[0]] + xs[1..];
      SpellNoNewline(xs[1..], ns[1..], i - 1);
      SpellFirst(ns, i);
      if i == 0 && ns[0].Name? {
        SpelledNoNewline(ns[0].v);
        JoinShown(NamedAll(SpelledOut(ns[0].v)), NamedAll(Spell(ns[1..], i - 1)));
      } else {
        NamedNoNewline(xs[0], ns[0]);
        OneShown(Named(ns[0]), NamedAll(Spell(ns[1..], i - 1)));
      }
    }
  }

  lemma SpellNothing(i: int)
    ensures Spell([], i) == []
  {
  }

  lemma SpellFirst(ns: seq<Item<nat>>, i: int)
    requires ns != []
    ensures NamedAll(Spell(ns, i)) ==
      (if i == 0 && ns[0].Name? then NamedAll(SpelledOut(ns[0].v)) else [Named(ns[0])]) + NamedAll(Spell(ns[1..], i - 1))
  {
    hide NamedAll, Named, SpelledOut;
    var more := Spell(ns[1..], i - 1);
    if i == 0 && ns[0].Name? {
      NamedConcat(SpelledOut(ns[0].v), more);
    } else {
      NamedCons(ns[0], more);
    }
  }

  lemma SpelledNoNewline(k: nat)
    ensures NoNewline(Render(Toks(NamedAll(SpelledOut(k)))))
  {
    var d := Dec(k);
    assert AllDigits(d);
    hide Dec, NoNewline, Render, Toks;
    NamedCons(Keep(Ch('$')), DigitItems(d));
    DigitsNoNewline(d);
    CharNoNewline('$');
    OneShown(Keep(Ch('$')), NamedAll(DigitItems(d)));
  }

  lemma NamedNoNewline(x: Item<string>, n: Item<nat>)
    requires ShapeOne(x, n) && NoNewline(Raw(TokOf(x)))
    ensures NoNewline(Raw(TokOf(Named(n))))
  {
    hide Kept;
  }

  /** Spelling a number out keeps a good line good. */
  lemma SpelledLine(xs: seq<Item<string>>, ns: seq<Item<nat>>, i: int)
    requires GoodLine(xs) && Spellable(xs, ns, i)
    ensures GoodLine(NamedAll(Spell(ns, i)))
  {
    hide WellFormed, Squeeze, Render, Toks, Shape, Trimmed, NoNewline;
    ShapeLength(xs, ns);
    FixedSpell(false, xs, ns, i);
    SpellNoNewline(xs, ns, i);
    SpelledTrimmed(xs, ns, i);
    SpellEnds(ns, i);
  }

  lemma SpelledTrimmed(xs: seq<Item<string>>, ns: seq<Item<nat>>, i: int)
    requires xs != [] && Shape(xs, ns) && Fixed(false, xs) && Fixed(false, NamedAll(Spell(ns, i)))
    requires Trimmed(Render(Toks(xs)))
    ensures Trimmed(Render(Toks(NamedAll(Spell(ns, i)))))
  {
    hide Render, Toks, Squeeze, WellFormed, TokOk, Named, TokOf, Raw, Edge, Spell, NamedAll, ShapeOne;
    var zs := NamedAll(Spell(ns, i));
    SpellEnds(ns, i);
    LineEnds(xs);
    LineEnds(zs);
    NamedEdges(xs[0], ns[0]);
    NamedEdges(xs[|xs| - 1], ns[|ns| - 1]);
    DigitEdges();
  }

  /** The first and the last character of a line are those of its first and last token. */
  lemma LineEnds(xs: seq<Item<string>>)
    requires xs != [] && WellFormed(false, Toks(xs))
    ensures var s, a, z := Render(Toks(xs)), Raw(TokOf(xs[0])), Raw(TokOf(xs[|xs| - 1]));
            s != "" && a != "" && z != "" && s[0] == a[0] && s[|s| - 1] == z[|z| - 1]
  {
    hide Render, WellFormed, TokOk, TokOf, Raw;
    var us := Toks(xs);
    RenderEnds(false, us);
    FirstTokOk(false, us);
    var v := LastOk(false, us);
    GapShows(false, us[0], us[1..]);
    GapShows(v, us[|us| - 1], []);
    ToksAt(xs, 0);
    ToksAt(xs, |xs| - 1);
  }

  lemma NamedEdges(x: Item<string>, n: Item<nat>)
    requires ShapeOne(x, n) && x != Eol && Raw(TokOf(x)) != ""
    ensures var r, r' := Raw(TokOf(x)), Raw(TokOf(Named(n)));
            r' != "" && (Edge(r'[0]) ==> Edge(r[0])) && (Edge(r'[|r'| - 1]) ==> Edge(r[|r| - 1]))
  {
    hide Kept;
  }

  lemma DigitEdges()
    ensures forall c :: IsDigit(c) || c == '$' ==> Raw(TokOf(Keep(Ch(c)))) == [c] && !Edge(c)
  {
  }

  lemma SpellableCut(xs: seq<Item<string>>, ns: seq<Item<nat>>, i: int, e: nat)
    requires Spellable(xs, ns, i) && e < |xs| && xs[e] == Eol
    ensures |ns| == |xs| && ns[e] == Eol && Spellable(xs[..e], ns[..e], i)
    ensures Spellable(xs[e + 1..], ns[e + 1..], i - e - 1)
  {
    ShapeCut(xs, ns, e);
  }

  lemma {:induction false} SpelledSheet(xs: seq<Item<string>>, ns: seq<Item<nat>>, i: int)
    requires GoodSheet(xs) && Spellable(xs, ns, i)
    ensures GoodSheet(NamedAll(Spell(ns, i)))
    decreases |xs|
  {
    hide GoodLine, Spellable, Named, SpelledOut, Spell, NamedAll, GoodSheet, EolAt;
    if xs == [] {
      NoSpelled(xs, ns, i);
    } else {
      GoodSheetCut(xs);
      var e := EolAt(xs);
      SpellableCut(xs, ns, i, e);
      SpelledLine(xs[..e], ns[..e], i);
      SpelledSheet(xs[e + 1..], ns[e + 1..], i - e - 1);
      SpelledAround(ns, i, e);
      SheetCons(NamedAll(Spell(ns[..e], i)), NamedAll(Spell(ns[e + 1..], i - e - 1)));
    }
  }

  lemma GoodSheetCut(xs: seq<Item<string>>)
    requires GoodSheet(xs) && xs != []
    ensures var e := EolAt(xs);
      e < |xs| && xs[e] == Eol && GoodLine(xs[..e]) && GoodSheet(xs[e + 1..]) && xs == xs[..e] + [Eol] + xs[e + 1..]
  {
    SheetParts(xs);
    EolThere(xs);
    hide *;
    CutAround(xs, EolAt(xs));
  }

  lemma SheetParts(xs: seq<Item<string>>)
    requires GoodSheet(xs) && xs != []
    ensures var e := EolAt(xs); e < |xs| && GoodLine(xs[..e]) && GoodSheet(xs[e + 1..])
  {
    hide GoodLine, EolAt;
  }

  lemma CutAround<T>(s: seq<T>, e: nat)
    requires e < |s|
    ensures s == s[..e] + [s[e]] + s[e + 1..]
  {
  }

  lemma SpelledAround(ns: seq<Item<nat>>, i: int, e: nat)
    requires e < |ns| && ns[e] == Eol
    ensures NamedAll(Spell(ns, i)) == NamedAll(Spell(ns[..e], i)) + [Eol] + NamedAll(Spell(ns[e + 1..], i - e - 1))
  {
    hide NamedAll, Named, Spell;
    var line, rest := Spell(ns[..e], i), Spell(ns[e + 1..], i - e - 1);
    SpellAround(ns, i, e);
    NamedConcat(line, [Eol] + rest);
    NamedCons(Eol, rest);
    EolStays();
    assert NamedAll(line) + ([Eol] + NamedAll(rest)) == NamedAll(line) + [Eol] + NamedAll(rest);
  }

  lemma EolStays()
    ensures Named(Eol) == Eol
  {
  }

  lemma NoSpelled(xs: seq<Item<string>>, ns: seq<Item<nat>>, i: int)
    requires Spellable(xs, ns, i) && xs == []
    ensures GoodSheet(NamedAll(Spell(ns, i)))
  {
  }

  lemma SpellAround(ns: seq<Item<nat>>, i: int, e: nat)
    requires e < |ns| && ns[e] == Eol
    ensures Spell(ns, i) == Spell(ns[..e], i) + ([Eol] + Spell(ns[e + 1..], i - e - 1))
  {
    var rest := ns[e + 1..];
    assert ns == ns[..e] + ([Eol] + rest);
    SpellConcat(ns[..e], [Eol] + rest, i);
    assert ([Eol] + rest)[1..] == rest;
  }

  lemma SheetCons(line: seq<Item<string>>, rest: seq<Item<string>>)
    requires GoodLine(line) && GoodSheet(rest)
    ensures GoodSheet(line + [Eol] + rest)
  {
    hide GoodLine;
    GoodNoEol(line);
    EolAtIs(line, rest);
    var all := line + [Eol] + rest;
    assert all[..|line|] == line && all[|line| + 1..] == rest;
  }

  /** Spelling a spare number out gives another text of the same form. */
  lemma SpareImitates(a: string, i: nat) returns (b: string)
    requires Spare(false, 0, Numbered(Items(a)), i)
    ensures Form(b) == Form(a) && Numbered(Items(b)) != Numbered(Items(a))
  {
    hide GoodSheet, Items, Spell, NamedAll, Countable, Shape, Print, Numbered, Toks, Render;
    var xs, ns := Items(a), Numbered(Items(a));
    NumberedShape(xs);
    GoodText(a);
    SpareSpellable(xs, ns, i);
    SpelledSheet(xs, ns, i);
    SpellCountable(0, ns, i);
    SpellPrints(ns, i);
    NamedNumbered(Spell(ns, i));
    TextOfSheet(NamedAll(Spell(ns, i)));
    b := Render(Toks(NamedAll(Spell(ns, i))));
  }

  lemma GoodText(a: string)
    ensures GoodSheet(Items(a))
  {
    LinesFree(a);
    GoodItems(Lines(a));
  }

  lemma SpareSpellable(xs: seq<Item<string>>, ns: seq<Item<nat>>, i: nat)
    requires Shape(xs, ns) && Spare(false, 0, ns, i)
    ensures Spellable(xs, ns, i)
  {
    hide Countable;
    if i > 0 { assert ShapeOne(xs[i - 1], ns[i - 1]); }
  }

  /** A text without `$` outside literals has a spare number exactly when some text of the same form is not numbered
      as it is. */
  lemma DollarExact(a: string)
    requires DollarFree(Items(a))
    ensures (exists i :: Spare(false, 0, Numbered(Items(a)), i)) <==>
            (exists b :: SameForm(a, b) && Numbered(Items(b)) != Numbered(Items(a)))
  {
    hide Items, DollarFree, Spare, Numbered, Form;
    if i :| Spare(false, 0, Numbered(Items(a)), i) {
      var b := SpareImitates(a, i);
      assert SameForm(a, b);
    }
    if b :| SameForm(a, b) && Numbered(Items(b)) != Numbered(Items(a)) {
      var i := ImitatedSpare(a, b);
    }
  }

  /** Without a spare number, and with at most one use of a name beyond the table, the form tells the text apart from
      every text, dollar signs or not. */
  lemma NoSpareTells(t: string, t': string)
    requires DollarFree(Items(Strip(t))) && Fits(Items(Strip(t)))
    requires forall i :: !Spare(false, 0, Numbered(Items(Strip(t))), i)
    ensures NormalForm(t) == NormalForm(t') <==> Related(Items(Strip(t)), Items(Strip(t')))
  {
    hide Items, DollarFree, Spare, Numbered, Related, Strip, Fits, Print;
    var a, b := Strip(t), Strip(t');
    if Form(a) == Form(b) {
      if Numbered(Items(a)) != Numbered(Items(b)) { var i := ImitatedSpare(a, b); }
      SameNumbersRelated(Items(a), Items(b));
    }
    if Related(Items(a), Items(b)) { RelatedNumber(Items(a), Items(b)); }
  }
}
