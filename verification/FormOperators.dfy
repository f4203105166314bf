/** Operators in the normal form of memfn/src/formhash.c: it drops the white space that tells some of them apart. */
module FormOperators {
  import opened Text
  import opened FormLex
  import opened FormNames
  import opened FormNormal
  import opened FormTells
  import opened FormConverse
  import opened FormSpace

  // ----- operators -----

  /** A character that is part of no word, literal or white space. */
  predicate OpTok(t: Tok) { t.Ch? && !IdChar(t.c) }

  /** The items of a line with one more kind of gap kept: white space between two operator characters, which can tell
      operators apart. */
  function Reading(w: bool, o: bool, ts: seq<Tok>): seq<Item<string>>
    decreases |ts|
  {
    if ts == [] then []
    else if ts[0].Gap? then
      if |ts| > 1 && ((w && StartsWord(ts[1])) || (o && OpTok(ts[1])))
      then [Keep(Gap(" "))] + Reading(false, false, ts[1..]) else Reading(w, o, ts[1..])
    else [ItemOf(ts[0])] + Reading(EndsWord(ts[0]), OpTok(ts[0]), ts[1..])
  }

  /** No white space stands between two operator characters. */
  predicate Tight(o: bool, ts: seq<Tok>)
    decreases |ts|
  {
    ts == [] ||
    if ts[0].Gap? then !(|ts| > 1 && o && OpTok(ts[1])) && Tight(o, ts[1..]) else Tight(OpTok(ts[0]), ts[1..])
  }

  /** The form keeps a line's reading exactly when the line is tight. */
  lemma {:induction false} TightIff(w: bool, o: bool, ts: seq<Tok>)
    requires !(w && o) && WellFormed(w, ts)
    ensures Gaps(Squeeze(w, ts)) <= Gaps(Reading(w, o, ts))
    ensures Tight(o, ts) ==> Reading(w, o, ts) == Squeeze(w, ts)
    ensures !Tight(o, ts) ==> Gaps(Squeeze(w, ts)) < Gaps(Reading(w, o, ts))
    decreases |ts|
  {
    hide IsId, Kept;
    if ts != [] {
      var rest := ts[1..];
      if !ts[0].Gap? {
        TightIff(EndsWord(ts[0]), OpTok(ts[0]), rest);
        GapsCons(ItemOf(ts[0]), Squeeze(EndsWord(ts[0]), rest));
        GapsCons(ItemOf(ts[0]), Reading(EndsWord(ts[0]), OpTok(ts[0]), rest));
      } else if rest == [] {
        assert Tight(o, rest);
      } else if w && StartsWord(rest[0]) {
        TightIff(false, false, rest);
        GapsCons(Keep(Gap(" ")), Squeeze(false, rest));
        GapsCons(Keep(Gap(" ")), Reading(false, false, rest));
        StateUnread(o, rest);
      } else {
        if w { NotAWord(rest); }
        TightIff(w, o, rest);
        if o && OpTok(rest[0]) {
          TightIff(false, false, rest);
          StateUnread(o, rest);
          GapsCons(Keep(Gap(" ")), Reading(false, false, rest));
        }
      }
    }
  }

  /** What stood before a token that is no gap does not matter to what follows it. */
  lemma StateUnread(o: bool, ts: seq<Tok>)
    requires ts != [] && !ts[0].Gap?
    ensures Tight(o, ts) == Tight(false, ts) && Squeeze(true, ts) == Squeeze(false, ts)
    ensures Reading(false, o, ts) == Reading(false, false, ts) == Reading(true, false, ts)
  {
  }

  /** Squeezing again changes nothing. */
  lemma {:induction false} SqueezeAgain(w: bool, ts: seq<Tok>)
    requires WellFormed(w, ts)
    ensures Squeeze(w, Toks(Squeeze(w, ts))) == Squeeze(w, ts)
    decreases |ts|
  {
    hide IsId, Kept, TokOf, ItemOf;
    if ts != [] {
      var rest := ts[1..];
      var xs := Squeeze(w, ts);
      if ts[0].Gap? && w && |ts| > 1 && StartsWord(ts[1]) {
        SqueezeAgain(false, rest);
        SqueezeHead(false, rest);
        assert xs[1..] == Squeeze(false, rest);
        var us := Toks(xs);
        assert us[1..] == Toks(xs[1..]);
        GapTok();
        assert us[1] == ts[1] by { assert Toks(xs[1..])[0] == TokOf(xs[1]); }
      } else if ts[0].Gap? {
        if w { NotAWord(rest); }
        SqueezeAgain(w, rest);
      } else {
        SqueezeAgain(EndsWord(ts[0]), rest);
        assert xs[1..] == Squeeze(EndsWord(ts[0]), rest);
        assert Toks(xs)[1..] == Toks(xs[1..]);
        ItemTok(ts[0]);
      }
    }
  }

  lemma GapTok()
    ensures TokOf(Keep(Gap(" "))) == Gap(" ")
  {
  }

  lemma ItemTok(t: Tok)
    ensures TokOf(ItemOf(t)) == t
  {
    hide Kept;
  }

  /** A squeezed line is tight. */
  lemma {:induction false} SqueezedTight(w: bool, o: bool, ts: seq<Tok>)
    requires WellFormed(w, ts)
    ensures Tight(o, Toks(Squeeze(w, ts)))
    decreases |ts|
  {
    hide IsId, Kept, TokOf, ItemOf;
    if ts != [] {
      var rest := ts[1..];
      var xs := Squeeze(w, ts);
      if ts[0].Gap? && w && |ts| > 1 && StartsWord(ts[1]) {
        SqueezedTight(false, o, rest);
        SqueezeHead(false, rest);
        assert xs[1..] == Squeeze(false, rest);
        var us := Toks(xs);
        assert us[1..] == Toks(xs[1..]);
        GapTok();
        assert us[1] == ts[1] by { assert Toks(xs[1..])[0] == TokOf(xs[1]); }
      } else if ts[0].Gap? {
        if w { NotAWord(rest); }
        SqueezedTight(w, o, rest);
      } else {
        SqueezedTight(EndsWord(ts[0]), OpTok(ts[0]), rest);
        assert xs[1..] == Squeeze(EndsWord(ts[0]), rest);
        assert Toks(xs)[1..] == Toks(xs[1..]);
        ItemTok(ts[0]);
      }
    }
  }

  /** A line without white space between two operator characters, as its tokens. */
  predicate TightLine(l: string) { Tight(false, Lex(false, l)) }

  function LineReading(l: string): seq<Item<string>> { Reading(false, false, Lex(false, l)) }

  function LineForm(l: string): seq<Item<string>> { Squeeze(false, Lex(false, l)) }

  /** A line's reading can be told from what the form keeps of it exactly when the line is tight: then every tight line
      with that form reads the same, and otherwise one reads differently. */
  lemma TightLineExact(l: string)
    ensures TightLine(l) <==>
            forall m: string :: TightLine(m) && LineForm(m) == LineForm(l) ==> LineReading(m) == LineReading(l)
  {
    hide Lex, Squeeze, Reading, Tight, WellFormed, Toks, Gaps, Render;
    var ts := Lex(false, l);
    LexSound(false, l);
    TightIff(false, false, ts);
    forall m: string | TightLine(m)
      ensures LineReading(m) == LineForm(m)
    {
      LexSound(false, m);
      TightIff(false, false, Lex(false, m));
    }
    if !TightLine(l) {
      var us := Toks(Squeeze(false, ts));
      var m := Render(us);
      SqueezeWellFormed(false, ts);
      LexRender(false, us);
      SqueezeAgain(false, ts);
      SqueezedTight(false, false, ts);
      assert LineForm(m) == LineForm(l) && TightLine(m);
      assert Gaps(LineReading(m)) < Gaps(LineReading(l));
    }
  }

  /** White space may move over any part of a line whose edges are no two word characters. */
  lemma GapMoves(p: string, x: string, q: string)
    requires Front(p) && Front(p + x) && x != "" && q != "" && !IsBlank(x[0]) && !IsBlank(q[0])
    requires !Meet(p, x + q) && !Meet(p + x, q)
    ensures LineForm(p + " " + (x + q)) == LineForm(p + x + " " + q)
  {
    BlankTexts();
    hide Front, Squeeze, Lex, AllBlank;
    FrontEnds(p);
    InnerSpaceIff(p, " ", x + q);
    InnerSpaceIff(p + x, " ", q);
    assert p + (x + q) == p + x + q;
  }

  /** Six one-character tokens in a row. */
  lemma SixTokens(ts: seq<Tok>, l: string)
    requires |ts| == 6 && |l| == 6 && WellFormed(false, ts) && forall i :: 0 <= i < 6 ==> Raw(ts[i]) == [l[i]]
    ensures Lex(false, l) == ts
  {
    hide WellFormed, Lex, Raw;
    assert Render(ts[6..]) == "";
    assert ts[5..][1..] == ts[6..] && Render(ts[5..]) == l[5..];
    assert ts[4..][1..] == ts[5..] && Render(ts[4..]) == l[4..];
    assert ts[3..][1..] == ts[4..] && Render(ts[3..]) == l[3..];
    assert ts[2..][1..] == ts[3..] && Render(ts[2..]) == l[2..];
    assert ts[1..][1..] == ts[2..] && Render(ts[1..]) == l[1..];
    assert Render(ts) == l;
    LexRender(false, ts);
  }

  lemma PairWellFormed(x: Tok, y: Tok)
    requires (x == Ch('-') && y == Gap(" ")) || (x == Gap(" ") && y == Ch('-'))
    ensures WellFormed(false, [Id("a"), Ch('-'), x, y, Ch('-'), Id("b")])
  {
    var ts := [Id("a"), Ch('-'), x, y, Ch('-'), Id("b")];
    assert ts[1..] == [Ch('-'), x, y, Ch('-'), Id("b")];
    assert ts[1..][1..] == [x, y, Ch('-'), Id("b")];
    assert [x, y, Ch('-'), Id("b")][1..] == [y, Ch('-'), Id("b")];
    assert [y, Ch('-'), Id("b")][1..] == [Ch('-'), Id("b")];
    assert [Ch('-'), Id("b")][1..] == [Id("b")] && [Id("b")][1..] == [];
    assert WellFormed(false, [Id("b")]);
    assert WellFormed(false, [Ch('-'), Id("b")]) && WellFormed(true, [Ch('-'), Id("b")]);
    assert WellFormed(false, [y, Ch('-'), Id("b")]);
    assert WellFormed(false, [x, y, Ch('-'), Id("b")]);
    assert WellFormed(true, ts[1..]);
  }

  /** So the form hides a change of operators: `a - (--b)` and `(a--) - b`, each spaced to show its own. */
  lemma OperatorsHidden()
    ensures NormalForm("a- --b") == NormalForm("a-- -b") && LineReading("a- --b") != LineReading("a-- -b")
  {
    PairLexed();
    var one, two := "a- --b", "a-- -b";
    PairItems();
    hide Squeeze, Lex, Reading;
    OneLineForm(one);
    OneLineForm(two);
  }

  lemma PairLexed()
    ensures Lex(false, "a- --b") == [Id("a"), Ch('-'), Gap(" "), Ch('-'), Ch('-'), Id("b")]
    ensures Lex(false, "a-- -b") == [Id("a"), Ch('-'), Ch('-'), Gap(" "), Ch('-'), Id("b")]
  {
    hide WellFormed, Lex;
    PairWellFormed(Gap(" "), Ch('-'));
    PairWellFormed(Ch('-'), Gap(" "));
    SixTokens([Id("a"), Ch('-'), Gap(" "), Ch('-'), Ch('-'), Id("b")], "a- --b");
    SixTokens([Id("a"), Ch('-'), Ch('-'), Gap(" "), Ch('-'), Id("b")], "a-- -b");
  }

  /** The two lines' forms agree; their readings part at the third item. */
  lemma PairItems()
    ensures LineForm("a- --b") == LineForm("a-- -b") && LineReading("a- --b") != LineReading("a-- -b")
  {
    PairLexed();
    PairForms();
    PairReadings();
    hide Lex, Squeeze, Reading;
    assert LineReading("a- --b")[2] != LineReading("a-- -b")[2];
  }

  lemma PairForms()
    ensures Squeeze(false, [Id("a"), Ch('-'), Gap(" "), Ch('-'), Ch('-'), Id("b")]) ==
            Squeeze(false, [Id("a"), Ch('-'), Ch('-'), Gap(" "), Ch('-'), Id("b")])
  {
    hide *;
    var x, k, m := ItemOf(Id("a")), ItemOf(Ch('-')), Ch('-');
    var end := [m, Id("b")];
    SqueezeOne(false, Id("a"), [m, Gap(" "), m] + end);
    SqueezeOne(true, m, [Gap(" "), m] + end);
    SqueezeNone(" ", [m] + end);
    SqueezeOne(false, m, end);
    SqueezeOne(false, Id("a"), [m, m, Gap(" ")] + end);
    SqueezeOne(true, m, [m, Gap(" ")] + end);
    SqueezeOne(false, m, [Gap(" ")] + end);
    SqueezeNone(" ", end);
    assert [Id("a")] + ([m, Gap(" "), m] + end) == [Id("a"), m, Gap(" "), m, m, Id("b")];
    assert [Id("a")] + ([m, m, Gap(" ")] + end) == [Id("a"), m, m, Gap(" "), m, Id("b")];
    assert [m] + ([Gap(" "), m] + end) == [m, Gap(" "), m] + end;
    assert [Gap(" ")] + ([m] + end) == [Gap(" "), m] + end;
    assert [m] + ([m, Gap(" ")] + end) == [m, m, Gap(" ")] + end;
    assert [m] + ([Gap(" ")] + end) == [m, Gap(" ")] + end;
  }

  lemma SqueezeOne(w: bool, t: Tok, rest: seq<Tok>)
    requires t in {Id("a"), Ch('-')}
    ensures Squeeze(w, [t] + rest) == [ItemOf(t)] + Squeeze(t.Id?, rest)
  {
    hide ItemOf;
    assert ([t] + rest)[1..] == rest;
  }

  lemma SqueezeNone(r: string, rest: seq<Tok>)
    ensures Squeeze(false, [Gap(r)] + rest) == Squeeze(false, rest)
  {
    assert ([Gap(r)] + rest)[1..] == rest;
  }

  lemma PairReadings()
    ensures var one := Reading(false, false, [Id("a"), Ch('-'), Gap(" "), Ch('-'), Ch('-'), Id("b")]);
            |one| > 2 && one[2] == Keep(Gap(" "))
    ensures var two := Reading(false, false, [Id("a"), Ch('-'), Ch('-'), Gap(" "), Ch('-'), Id("b")]);
            |two| > 2 && two[2] == Keep(Ch('-'))
  {
    hide Kept;
    var m := Ch('-');
    var one, two := [Gap(" "), m, m, Id("b")], [m, Gap(" "), m, Id("b")];
    assert [Id("a"), m, Gap(" "), m, m, Id("b")][1..] == [m, Gap(" "), m, m, Id("b")];
    assert [Id("a"), m, m, Gap(" "), m, Id("b")][1..] == [m, m, Gap(" "), m, Id("b")];
    assert [m, Gap(" "), m, m, Id("b")][1..] == one && [m, m, Gap(" "), m, Id("b")][1..] == two;
    assert Reading(false, true, one) == [Keep(Gap(" "))] + Reading(false, false, one[1..]);
    assert Reading(false, true, two) == [Keep(m)] + Reading(false, true, two[1..]);
  }

  lemma OneLineForm(s: string)
    requires s in {"a- --b", "a-- -b"}
    ensures NormalForm(s) == Print(Numbered(Ended(LineForm(s))))
  {
    hide Squeeze, Lex;
    NoComment(s, |s|);
    OneLineItems(s);
  }

  /** A text without slashes and quotes has no comment. */
  lemma {:induction false} NoComment(s: string, n: nat)
    requires n == |s| && forall i :: 0 <= i < |s| ==> s[i] != '/' && !Quote(s[i])
    ensures Strip(s) == s
    decreases n
  {
    if s != "" { NoComment(s[1..], n - 1); }
  }

  // ----- whole texts -----

  function ReadingsOf(lines: seq<string>): seq<Item<string>> {
    if lines == [] then [] else Ended(LineReading(Trim(lines[0]))) + ReadingsOf(lines[1..])
  }

  /** The items of a text without comments, with the white space between operator characters. */
  function Readings(a: string): seq<Item<string>> { ReadingsOf(Lines(a)) }

  predicate TightLines(lines: seq<string>) { lines == [] || (TightLine(Trim(lines[0])) && TightLines(lines[1..])) }

  predicate TightText(a: string) { TightLines(Lines(a)) }

  lemma {:induction false} TightReadings(lines: seq<string>)
    requires TightLines(lines)
    ensures ReadingsOf(lines) == ItemsOf(lines)
    decreases |lines|
  {
    hide Lex, Squeeze, Reading, Tight, WellFormed, Trim;
    if lines != [] {
      TightReadings(lines[1..]);
      var m := Trim(lines[0]);
      LexSound(false, m);
      TightIff(false, false, Lex(false, m));
    }
  }

  /** Two texts without white space between operator characters and without `$` outside literals, the first with at
      most one name use beyond the table, have one normal form exactly when even these finer items differ by a
      one-to-one renaming: no change of an operator is hidden. */
  lemma TightFormTells(t: string, t': string)
    requires DollarFree(Items(Strip(t))) && DollarFree(Items(Strip(t'))) && Fits(Items(Strip(t)))
    requires TightText(Strip(t)) && TightText(Strip(t'))
    ensures NormalForm(t) == NormalForm(t') <==> Related(Readings(Strip(t)), Readings(Strip(t')))
  {
    hide DollarFree, Fits, Strip, ItemsOf, ReadingsOf, Numbered, Print, Related, TightLines;
    NormalFormIff(t, t');
    TightReadings(Lines(Strip(t)));
    TightReadings(Lines(Strip(t')));
  }
}
