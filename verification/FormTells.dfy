/** Layout in the normal form of memfn/src/formhash.c: indentation, trailing white space and blank lines never move it,
    and inside a line only the presence of white space can. */
module FormTells {
  import opened Text
  import opened FormLex
  import opened FormNormal

  // ----- indentation and blank lines -----

  /** The lines that are not blank, without indentation and trailing white space. */
  function Bodies(ls: seq<string>): seq<string> {
    if ls == [] then [] else (if Trim(ls[0]) == "" then [] else [Trim(ls[0])]) + Bodies(ls[1..])
  }

  lemma EmptyItems(l: string)
    ensures Trim(l) == "" ==> LineItems(l) == []
  {
  }

  lemma {:induction false} ItemsFromBodies(ls: seq<string>)
    ensures ItemsOf(ls) == ItemsOf(Bodies(ls))
    decreases |ls|
  {
    hide Trim, Lex, Squeeze, Trimmed, Edge;
    if ls != [] {
      var m := Trim(ls[0]);
      ItemsFromBodies(ls[1..]);
      TrimIsTrimmed(ls[0]);
      EmptyItems(ls[0]);
      assert AllEdge("");
      TrimMiddle("", m, "");
      assert "" + m + "" == m;
      if m == "" {
        assert Bodies(ls) == Bodies(ls[1..]);
      } else {
        assert Bodies(ls)[1..] == Bodies(ls[1..]);
      }
    }
  }

  /** Two texts whose non-blank lines differ in indentation and trailing white space only have one normal form. */
  lemma LayoutKeepsForm(t: string, t': string)
    requires Bodies(Lines(Strip(t))) == Bodies(Lines(Strip(t')))
    ensures NormalForm(t) == NormalForm(t')
  {
    hide Bodies, Strip, ItemsOf;
    ItemsFromBodies(Lines(Strip(t)));
    ItemsFromBodies(Lines(Strip(t')));
  }

  // ----- white space inside a line -----

  predicate AllClosed(ts: seq<Tok>) {
    forall i :: 0 <= i < |ts| ==> (ts[i].Lit? && ts[i].raw != "" ==> Closes(ts[i].raw, ts[i].raw[0], 1))
  }

  /** `next` may follow `t`. */
  predicate Joins(t: Tok, next: Tok) { (t.Id? ==> !StartsWord(next)) && (t.Gap? ==> !next.Gap?) }

  lemma {:induction false} WellFormedConcat(w: bool, a: seq<Tok>, b: seq<Tok>)
    requires WellFormed(w, a) && a != [] && AllClosed(a) && b != [] && Joins(a[|a| - 1], b[0])
    requires WellFormed(EndsWord(a[|a| - 1]), b)
    ensures WellFormed(w, a + b)
    decreases |a|
  {
    hide EndsWord, StartsWord, IsId;
    assert (a + b)[1..] == a[1..] + b;
    if |a| > 1 {
      assert AllClosed(a[1..]);
      WellFormedConcat(EndsWord(a[0]), a[1..], b);
    } else {
      assert a[1..] == [] && a[1..] + b == b;
    }
  }

  lemma {:induction false} SqueezeConcat(w: bool, a: seq<Tok>, b: seq<Tok>)
    requires a != [] && !a[|a| - 1].Gap?
    ensures Squeeze(w, a + b) == Squeeze(w, a) + Squeeze(EndsWord(a[|a| - 1]), b)
    decreases |a|
  {
    hide EndsWord, StartsWord, ItemOf;
    assert (a + b)[1..] == a[1..] + b;
    if |a| == 1 {
      assert a[1..] == [] && a[1..] + b == b;
    } else if a[0].Gap? {
      assert (a + b)[1] == a[1];
      SqueezeConcat(if w && StartsWord(a[1]) then false else w, a[1..], b);
    } else {
      SqueezeConcat(EndsWord(a[0]), a[1..], b);
    }
  }

  /** A line cut at a token's end: its front part closes its literals. */
  predicate Front(p: string) { p != "" && !IsBlank(p[|p| - 1]) && AllClosed(Lex(false, p)) }

  lemma FrontEnds(p: string)
    requires Front(p)
    ensures var a := Lex(false, p);
            p != "" && a != [] && !a[|a| - 1].Gap? && WellFormed(false, a) && Render(a) == p && AllClosed(a) &&
            (EndsWord(a[|a| - 1]) <==> IdChar(p[|p| - 1]))
  {
    hide AllClosed, IsId, WellFormed;
    var a := Lex(false, p);
    LexSound(false, p);
    EmptyLex(p);
    LexEnds(false, a);
  }

  lemma {:induction false} LexEnds(w: bool, a: seq<Tok>)
    requires WellFormed(w, a) && a != []
    ensures var t, s := a[|a| - 1], Render(a);
            s != "" && (t.Gap? ==> IsBlank(s[|s| - 1])) && (EndsWord(t) <==> IdChar(s[|s| - 1]))
    decreases |a|
  {
    RenderEnds(w, a);
    if |a| > 1 {
      LexEnds(EndsWord(a[0]), a[1..]);
      RenderEnds(EndsWord(a[0]), a[1..]);
    } else {
      LastChar(w, a[0], a[1..]);
    }
  }

  lemma LastChar(w: bool, t: Tok, rest: seq<Tok>)
    requires TokOk(w, t, rest)
    ensures Raw(t) != ""
    ensures (t.Gap? ==> IsBlank(Raw(t)[|Raw(t)| - 1])) && (EndsWord(t) <==> IdChar(Raw(t)[|Raw(t)| - 1]))
  {
  }

  /** Where a line may be cut, the width of the white space does not matter, and outside two word characters its
      presence does not either. */
  lemma InnerSpace(p: string, r: string, r': string, q: string)
    requires Front(p) && q != "" && !IsBlank(q[0])
    requires r != "" && AllBlank(r) && r' != "" && AllBlank(r')
    ensures Squeeze(false, Lex(false, p + r + q)) == Squeeze(false, Lex(false, p + r' + q))
    ensures !(IdChar(p[|p| - 1]) && IdChar(q[0])) ==>
              Squeeze(false, Lex(false, p + r + q)) == Squeeze(false, Lex(false, p + q))
  {
    hide Front, AllClosed, WellFormed, AllBlank, Squeeze, Lex, EndsWord, StartsWord, IdChar, Render;
    FrontEnds(p);
    SpacedLine(p, r, q);
    SpacedLine(p, r', q);
    FirstStarts(false, q);
    GapSqueezed(EndsWord(Lex(false, p)[|Lex(false, p)| - 1]), r, r', Lex(false, q));
    if !(IdChar(p[|p| - 1]) && IdChar(q[0])) { UnspacedLine(p, q); }
  }

  lemma GapSqueezed(v: bool, r: string, r': string, b: seq<Tok>)
    requires b != []
    ensures Squeeze(v, [Gap(r)] + b) == Squeeze(v, [Gap(r')] + b)
    ensures !(v && StartsWord(b[0])) ==> Squeeze(v, [Gap(r)] + b) == Squeeze(v, b)
  {
    assert ([Gap(r)] + b)[1..] == b && ([Gap(r')] + b)[1..] == b;
  }

  lemma GapFirst(v: bool, r: string, b: seq<Tok>)
    requires r != "" && AllBlank(r) && WellFormed(false, b) && (b != [] ==> !b[0].Gap?)
    ensures WellFormed(v, [Gap(r)] + b) && Render([Gap(r)] + b) == r + Render(b)
  {
    assert ([Gap(r)] + b)[1..] == b;
  }

  lemma SpacedLine(p: string, r: string, q: string)
    requires Front(p) && q != "" && !IsBlank(q[0]) && r != "" && AllBlank(r)
    ensures var a := Lex(false, p);
            a != [] && Squeeze(false, Lex(false, p + r + q)) ==
            Squeeze(false, a) + Squeeze(EndsWord(a[|a| - 1]), [Gap(r)] + Lex(false, q))
  {
    hide Front, AllClosed, Squeeze, AllBlank, WellFormed, Lex, EndsWord, Render;
    var a, b := Lex(false, p), Lex(false, q);
    FrontEnds(p);
    LexSound(false, q);
    FirstStarts(false, q);
    var d := [Gap(r)] + b;
    GapFirst(EndsWord(a[|a| - 1]), r, b);
    WellFormedConcat(false, a, d);
    RenderConcat(a, d);
    assert p + r + q == p + (r + q);
    LexRender(false, a + d);
    SqueezeConcat(false, a, d);
  }

  lemma UnspacedLine(p: string, q: string)
    requires Front(p) && q != "" && !IsBlank(q[0]) && !(IdChar(p[|p| - 1]) && IdChar(q[0]))
    ensures var a := Lex(false, p);
            a != [] && Squeeze(false, Lex(false, p + q)) ==
            Squeeze(false, a) + Squeeze(EndsWord(a[|a| - 1]), Lex(false, q))
  {
    hide Front, AllClosed, Squeeze;
    var a := Lex(false, p);
    FrontEnds(p);
    var v := EndsWord(a[|a| - 1]);
    var b := Lex(v, q);
    assert b == Lex(false, q);
    LexSound(v, q);
    FirstStarts(v, q);
    WellFormedConcat(false, a, b);
    RenderConcat(a, b);
    LexRender(false, a + b);
    SqueezeConcat(false, a, b);
  }
}
