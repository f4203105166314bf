/** Known answers of the form hash (memfn/src/formhash.c): one text's normal form and one text's digest. */
module FormAnswers {
  import opened Text
  import opened FormLex
  import opened FormNames
  import opened FormNormal
  import opened FormConverse
  import opened FormHash

  // ----- a normal form -----

  /** A text with kept words, two names, one of them twice, an escaped quote, a number with letters in it, white space of
      both kinds and two comments; and what is hashed for it. */
  function Front(): string { "int f(x){return x +" }
  function Quoted(): string { "'\\''" }
  function Back(): string { "+0x1f;}" }
  function Comments(): string { "/*'*/" + (" " + "// \"d") }
  function Source(): string { Front() + Quoted() + Back() + Comments() }

  lemma PlainCloses(s: string, n: nat)
    requires n == |s| && Plain(s)
    ensures Closed(s) && Strip(s) == s
    decreases n
  {
    if s != "" { PlainCloses(s[1..], n - 1); }
  }

  lemma QuotedCloses()
    ensures Closed(Quoted()) && Strip(Quoted()) == Quoted()
  {
    var q := Quoted();
    assert |q| == 4 && q[0] == '\'' && q[1] == '\\' && q[2] == '\'' && q[3] == '\'';
    assert LitEnd(q, '\'', 3) == 4 && Closes(q, '\'', 3);
    assert LitEnd(q, '\'', 1) == 4 && Closes(q, '\'', 1);
    assert q[..4] == q && q[4..] == "";
    assert Closed("") && Strip("") == "";
  }

  lemma CommentsGo()
    ensures Strip(Comments()) == " "
  {
    assert !HasClose("'");
    BlockComment("'");
    assert "/*" + "'" + "*/" == "/*'*/";
    LastComment();
    hide Strip, Closed;
    StripConcat("/*'*/", " " + "// \"d");
    assert "" + Strip(" " + "// \"d") == Strip(" " + "// \"d");
  }

  lemma LastComment()
    ensures Strip(" " + "// \"d") == " "
  {
    var c, t := "// \"d", " " + "// \"d";
    assert t[0] == ' ' && t[1..] == c;
    assert c[2..] == " \"d" && FromNewline(" \"d") == "" by {
      assert " \"d"[1..] == "\"d" && "\"d"[1..] == "d" && "d"[1..] == "";
    }
    assert Strip(c) == "";
  }

  lemma TextStripped()
    ensures Strip(Source()) == Front() + Quoted() + Back() + " "
  {
    PartsClose();
    CommentsGo();
    hide *;
    var a, b, c, d := Front(), Quoted(), Back(), Comments();
    StripConcat(c, d);
    StripConcat(b, c + d);
    StripConcat(a, b + (c + d));
    Regroup(a, b, c, d);
    Regroup(a, b, c, " ");
    SourceIs();
  }

  lemma SourceIs()
    ensures Source() == Front() + Quoted() + Back() + Comments()
  {
  }

  lemma PartsClose()
    ensures Closed(Front()) && Strip(Front()) == Front() && Closed(Quoted()) && Strip(Quoted()) == Quoted()
    ensures Closed(Back()) && Strip(Back()) == Back()
  {
    FrontPlain();
    BackPlain();
    QuotedCloses();
    hide *;
    PlainCloses(Front(), |Front()|);
    PlainCloses(Back(), |Back()|);
  }

  predicate Plain(s: string) { forall i :: 0 <= i < |s| ==> s[i] != '/' && !Quote(s[i]) }

  lemma FrontPlain()
    ensures Plain(Front())
  {
  }

  lemma BackPlain()
    ensures Plain(Back())
  {
  }

  lemma Regroup(a: string, b: string, c: string, d: string)
    ensures a + b + c + d == a + (b + (c + d))
  {
  }

  function Tokens(): (r: seq<Tok>)
    ensures |r| == 20
  {
    [Id("int"), Gap(" "), Id("f"), Ch('('), Id("x"), Ch(')'), Ch('{'), Id("return"), Gap(" "), Id("x"), Gap(" "), Ch('+'),
     Lit("'\\''"), Ch('+'), Ch('0'), Ch('x'), Ch('1'), Ch('f'), Ch(';'), Ch('}')]
  }

  function Shown(): (r: seq<Item<string>>)
    ensures |r| == 19
  {
    [Keep(Id("int")), Keep(Gap(" ")), Name("f"), Keep(Ch('(')), Name("x"), Keep(Ch(')')), Keep(Ch('{')),
     Keep(Id("return")), Keep(Gap(" ")), Name("x"), Keep(Ch('+')), Keep(Lit("'\\''")), Keep(Ch('+')), Keep(Ch('0')),
     Keep(Ch('x')), Keep(Ch('1')), Keep(Ch('f')), Keep(Ch(';')), Keep(Ch('}'))]
  }

  function Numbers(): (r: seq<Item<nat>>)
    ensures |r| == 20
  {
    [Keep(Id("int")), Keep(Gap(" ")), Name(0), Keep(Ch('(')), Name(1), Keep(Ch(')')), Keep(Ch('{')),
     Keep(Id("return")), Keep(Gap(" ")), Name(1), Keep(Ch('+')), Keep(Lit("'\\''")), Keep(Ch('+')), Keep(Ch('0')),
     Keep(Ch('x')), Keep(Ch('1')), Keep(Ch('f')), Keep(Ch(';')), Keep(Ch('}')), Eol]
  }

  /** One token more at the front. */
  lemma TokenBefore(w: bool, t: Tok, rest: seq<Tok>)
    requires TokOk(w, t, rest) && WellFormed(EndsWord(t), rest)
    ensures WellFormed(w, [t] + rest)
    ensures Render([t] + rest) == Raw(t) + Render(rest)
    ensures t.Gap? ==>
      Squeeze(w, [t] + rest) ==
      if w && rest != [] && StartsWord(rest[0]) then [Keep(Gap(" "))] + Squeeze(false, rest) else Squeeze(w, rest)
    ensures !t.Gap? ==> Squeeze(w, [t] + rest) == [ItemOf(t)] + Squeeze(EndsWord(t), rest)
  {
    hide TokOk, EndsWord, StartsWord, ItemOf;
    assert ([t] + rest)[1..] == rest;
  }

  lemma NamesNotKept()
    ensures !Kept("x") && !Kept("f")
  {
    XNotKept();
    assert "f" !in Keywords1();
    assert "f" !in Keywords2();
    assert "f" !in Keywords3();
    assert "f" !in Keywords4();
    assert "f" !in LibraryNames();
  }

  lemma WordsKept()
    ensures Kept("int") && Kept("return")
  {
    var list := KeptList();
    assert Keywords2()[8] == "int" && Keywords3()[2] == "return";
    hide Keywords1, Keywords2, Keywords3, Keywords4, LibraryNames;
    assert "int" in Keywords2() && "return" in Keywords3();
  }

  function Line(): (r: string)
    ensures |r| == 30
  {
    "int f(x){return x +'\\''+0x1f;}"
  }

  /** The tokens from number `i` on show the line from offset `p` on, and leave the items from number `k` on. */
  ghost predicate Stands(i: nat, w: bool, p: nat, k: nat) {
    i <= 20 && p <= 30 && k <= 19 &&
    var ts := Tokens()[i..]; WellFormed(w, ts) && Render(ts) == Line()[p..] && Squeeze(w, ts) == Shown()[k..]
  }

  /** Token `i` shows the line at `p` and is item `k`. */
  ghost predicate Placed(i: nat, w: bool, t: Tok, p: nat, k: nat) {
    && i < 20 && k < 19 && p + |Raw(t)| <= 30 && Tokens()[i] == t && !t.Gap? && Shown()[k] == ItemOf(t)
    && (forall j :: 0 <= j < |Raw(t)| ==> Line()[p + j] == Raw(t)[j])
    && TokOk(w, t, Tokens()[i + 1..])
  }

  lemma NextKept(i: nat, w: bool, t: Tok, p: nat, k: nat)
    requires Placed(i, w, t, p, k) && Stands(i + 1, EndsWord(t), p + |Raw(t)|, k + 1)
    ensures Stands(i, w, p, k)
  {
    var all, xs := Tokens(), Shown();
    hide Tokens, Shown, TokOk, EndsWord, StartsWord, ItemOf, Raw, Line;
    assert all[i..] == [t] + all[i + 1..] && xs[k..] == [xs[k]] + xs[k + 1..];
    TokenBefore(w, t, all[i + 1..]);
    ShowsAt(Line(), p, Raw(t));
  }

  lemma ShowsAt(l: string, p: nat, r: string)
    requires p + |r| <= |l| && forall j :: 0 <= j < |r| ==> l[p + j] == r[j]
    ensures l[p..] == r + l[p + |r|..]
  {
  }

  ghost predicate Space(i: nat, p: nat, k: nat) {
    && i < 19 && Tokens()[i] == Gap(" ") && StartsWord(Tokens()[i + 1]) && p < 30 && Line()[p] == ' '
    && k < 19 && Shown()[k] == Keep(Gap(" "))
  }

  ghost predicate Dropped(i: nat, p: nat) {
    i < 19 && Tokens()[i] == Gap(" ") && Tokens()[i + 1] == Ch('+') && p < 30 && Line()[p] == ' '
  }

  /** A blank that is kept, between two word characters; and one that is not. */
  lemma NextSpace(i: nat, p: nat, k: nat)
    requires Space(i, p, k) && Stands(i + 1, false, p + 1, k + 1)
    ensures Stands(i, true, p, k)
  {
    var all, xs := Tokens(), Shown();
    assert !all[i + 1].Gap?;
    hide Tokens, Shown, StartsWord, Line, TokOk;
    assert all[i..] == [Gap(" ")] + all[i + 1..] && xs[k..] == [xs[k]] + xs[k + 1..];
    TokenBefore(true, Gap(" "), all[i + 1..]);
    ShowsAt(Line(), p, " ");
  }

  lemma NextDropped(i: nat, p: nat, k: nat)
    requires Dropped(i, p) && Stands(i + 1, false, p + 1, k) && Stands(i + 1, true, p + 1, k)
    ensures Stands(i, true, p, k)
  {
    var all, xs := Tokens(), Shown();
    assert !StartsWord(Ch('+')) && TokOk(true, Gap(" "), all[i + 1..]);
    hide Tokens, Shown, Line, TokOk, StartsWord, WellFormed, Render, Squeeze;
    assert all[i..] == [Gap(" ")] + all[i + 1..];
    TokenBefore(true, Gap(" "), all[i + 1..]);
    ShowsAt(Line(), p, " ");
  }

  lemma LastToken()
    ensures Stands(20, false, 30, 19)
  {
    assert Tokens()[20..] == [] && Shown()[19..] == [] && Line()[30..] == "";
  }

  lemma WordPlaced(i: nat, n: string, p: nat, k: nat)
    requires i < 19 && k < 19 && p + |n| <= 30 && IsId(n) && Tokens()[i] == Id(n) && Shown()[k] == ItemOf(Id(n))
    requires (forall j :: 0 <= j < |n| ==> Line()[p + j] == n[j]) && !StartsWord(Tokens()[i + 1])
    ensures Placed(i, false, Id(n), p, k) && EndsWord(Id(n)) && |Raw(Id(n))| == |n|
  {
    hide Tokens, Shown, Line, IsId, StartsWord, ItemOf;
    assert Tokens()[i + 1..][0] == Tokens()[i + 1];
  }

  lemma CharPlaced(i: nat, w: bool, c: char, p: nat, k: nat)
    requires i < 20 && k < 19 && p < 30 && Tokens()[i] == Ch(c) && Shown()[k] == Keep(Ch(c)) && Line()[p] == c
    requires !IsBlank(c) && !Quote(c) && (IdStart(c) ==> w)
    ensures Placed(i, w, Ch(c), p, k) && EndsWord(Ch(c)) == IdChar(c) && |Raw(Ch(c))| == 1
  {
    hide Tokens, Shown, Line, Kept;
  }

  lemma NextStarts(i: nat)
    requires i in {1, 3, 5, 8, 10}
    ensures !StartsWord(Tokens()[i])
  {
  }

  lemma Place0()
    ensures Placed(0, false, Id("int"), 0, 0) && EndsWord(Id("int")) == true && |Raw(Id("int"))| == 3
  {
    WordsKept();
    hide Kept, TokOk, StartsWord;
    assert Tokens()[0] == Id("int") && IsId("int") && Shown()[0] == ItemOf(Id("int"));
    assert !StartsWord(Tokens()[1]) by { NextStarts(1); }
    WordPlaced(0, "int", 0, 0);
  }

  lemma Place2()
    ensures Placed(2, false, Id("f"), 4, 2) && EndsWord(Id("f")) == true && |Raw(Id("f"))| == 1
  {
    NamesNotKept();
    hide Kept, TokOk, StartsWord;
    assert Tokens()[2] == Id("f") && IsId("f") && Shown()[2] == ItemOf(Id("f"));
    assert !StartsWord(Tokens()[3]) by { NextStarts(3); }
    WordPlaced(2, "f", 4, 2);
  }

  lemma Place3()
    ensures Placed(3, true, Ch('('), 5, 3) && EndsWord(Ch('(')) == false && |Raw(Ch('('))| == 1
  {
    CharPlaced(3, true, '(', 5, 3);
  }

  lemma Place4()
    ensures Placed(4, false, Id("x"), 6, 4) && EndsWord(Id("x")) == true && |Raw(Id("x"))| == 1
  {
    NamesNotKept();
    hide Kept, TokOk, StartsWord;
    assert Tokens()[4] == Id("x") && IsId("x") && Shown()[4] == ItemOf(Id("x"));
    assert !StartsWord(Tokens()[5]) by { NextStarts(5); }
    WordPlaced(4, "x", 6, 4);
  }

  lemma Place5()
    ensures Placed(5, true, Ch(')'), 7, 5) && EndsWord(Ch(')')) == false && |Raw(Ch(')'))| == 1
  {
    CharPlaced(5, true, ')', 7, 5);
  }

  lemma Place6()
    ensures Placed(6, false, Ch('{'), 8, 6) && EndsWord(Ch('{')) == false && |Raw(Ch('{'))| == 1
  {
    CharPlaced(6, false, '{', 8, 6);
  }

  lemma Place7()
    ensures Placed(7, false, Id("return"), 9, 7) && EndsWord(Id("return")) == true && |Raw(Id("return"))| == 6
  {
    WordsKept();
    hide Kept, TokOk, StartsWord;
    assert Tokens()[7] == Id("return") && IsId("return") && Shown()[7] == ItemOf(Id("return"));
    assert !StartsWord(Tokens()[8]) by { NextStarts(8); }
    WordPlaced(7, "return", 9, 7);
  }

  lemma Place9()
    ensures Placed(9, false, Id("x"), 16, 9) && EndsWord(Id("x")) == true && |Raw(Id("x"))| == 1
  {
    NamesNotKept();
    hide Kept, TokOk, StartsWord;
    assert Tokens()[9] == Id("x") && IsId("x") && Shown()[9] == ItemOf(Id("x"));
    assert !StartsWord(Tokens()[10]) by { NextStarts(10); }
    WordPlaced(9, "x", 16, 9);
  }

  lemma Place11()
    ensures Placed(11, false, Ch('+'), 18, 10) && EndsWord(Ch('+')) == false && |Raw(Ch('+'))| == 1
  {
    CharPlaced(11, false, '+', 18, 10);
  }

  lemma Place11Word()
    ensures Placed(11, true, Ch('+'), 18, 10) && EndsWord(Ch('+')) == false && |Raw(Ch('+'))| == 1
  {
    CharPlaced(11, true, '+', 18, 10);
  }

  lemma Place12()
    ensures Placed(12, false, Lit("'\\''"), 19, 11) && EndsWord(Lit("'\\''")) == false && |Raw(Lit("'\\''"))| == 4
  { }

  lemma Place13()
    ensures Placed(13, false, Ch('+'), 23, 12) && EndsWord(Ch('+')) == false && |Raw(Ch('+'))| == 1
  {
    CharPlaced(13, false, '+', 23, 12);
  }

  lemma Place14()
    ensures Placed(14, false, Ch('0'), 24, 13) && EndsWord(Ch('0')) == true && |Raw(Ch('0'))| == 1
  {
    CharPlaced(14, false, '0', 24, 13);
  }

  lemma Place15()
    ensures Placed(15, true, Ch('x'), 25, 14) && EndsWord(Ch('x')) == true && |Raw(Ch('x'))| == 1
  {
    CharPlaced(15, true, 'x', 25, 14);
  }

  lemma Place16()
    ensures Placed(16, true, Ch('1'), 26, 15) && EndsWord(Ch('1')) == true && |Raw(Ch('1'))| == 1
  {
    CharPlaced(16, true, '1', 26, 15);
  }

  lemma Place17()
    ensures Placed(17, true, Ch('f'), 27, 16) && EndsWord(Ch('f')) == true && |Raw(Ch('f'))| == 1
  {
    CharPlaced(17, true, 'f', 27, 16);
  }

  lemma Place18()
    ensures Placed(18, true, Ch(';'), 28, 17) && EndsWord(Ch(';')) == false && |Raw(Ch(';'))| == 1
  {
    CharPlaced(18, true, ';', 28, 17);
  }

  lemma Place19()
    ensures Placed(19, false, Ch('}'), 29, 18) && EndsWord(Ch('}')) == false && |Raw(Ch('}'))| == 1
  {
    CharPlaced(19, false, '}', 29, 18);
  }

  lemma AllTokens()
    ensures Stands(0, false, 0, 0)
  {
    LastToken();
    hide Placed, Stands, EndsWord, Raw, Tokens, Shown, Line;
    Place19();
    NextKept(19, false, Ch('}'), 29, 18);
    Place18();
    NextKept(18, true, Ch(';'), 28, 17);
    Place17();
    NextKept(17, true, Ch('f'), 27, 16);
    Place16();
    NextKept(16, true, Ch('1'), 26, 15);
    Place15();
    NextKept(15, true, Ch('x'), 25, 14);
    Place14();
    NextKept(14, false, Ch('0'), 24, 13);
    Place13();
    NextKept(13, false, Ch('+'), 23, 12);
    Place12();
    NextKept(12, false, Lit("'\\''"), 19, 11);
    Place11();
    NextKept(11, false, Ch('+'), 18, 10);
    Place11Word();
    NextKept(11, true, Ch('+'), 18, 10);
    DroppedThere();
    NextDropped(10, 17, 10);
    Place9();
    NextKept(9, false, Id("x"), 16, 9);
    SpaceThere8();
    NextSpace(8, 15, 8);
    Place7();
    NextKept(7, false, Id("return"), 9, 7);
    Place6();
    NextKept(6, false, Ch('{'), 8, 6);
    Place5();
    NextKept(5, true, Ch(')'), 7, 5);
    Place4();
    NextKept(4, false, Id("x"), 6, 4);
    Place3();
    NextKept(3, true, Ch('('), 5, 3);
    Place2();
    NextKept(2, false, Id("f"), 4, 2);
    SpaceThere1();
    NextSpace(1, 3, 1);
    Place0();
    NextKept(0, false, Id("int"), 0, 0);
  }

  lemma SpaceThere1()
    ensures Space(1, 3, 1)
  {
  }

  lemma SpaceThere8()
    ensures Space(8, 15, 8)
  {
  }

  lemma DroppedThere()
    ensures Dropped(10, 17)
  {
  }

  // ----- the numbering and the printed form -----

  lemma LineIs()
    ensures Line() == Front() + Quoted() + Back()
  {
  }

  lemma LineEdges()
    ensures NoNewline(Line()) && Trimmed(Line()) && Line() != ""
  {
  }

  /** The trailing blank goes, and the line's items are left. */
  lemma SourceItems()
    ensures Items(Strip(Source())) == Shown() + [Eol]
  {
    TextStripped();
    LineIs();
    LineEdges();
    AllTokens();
    TokensAre();
    hide *;
    var l := Line();
    LexRender(false, Tokens());
    OneLineBlank(l);
  }

  /** All tokens show the whole line, and leave all items. */
  lemma TokensAre()
    requires Stands(0, false, 0, 0)
    ensures WellFormed(false, Tokens()) && Render(Tokens()) == Line() && Squeeze(false, Tokens()) == Shown() && Shown() != []
  {
    var all, xs, l := Tokens(), Shown(), Line();
    hide Tokens, Shown, Line, WellFormed, Render, Squeeze;
    assert all[0..] == all && xs[0..] == xs && l[0..] == l;
  }

  lemma OneLineBlank(l: string)
    requires NoNewline(l) && Trimmed(l) && l != "" && Squeeze(false, Lex(false, l)) != []
    ensures Items(l + " ") == Squeeze(false, Lex(false, l)) + [Eol]
  {
    hide Squeeze, Lex, Trim, NoNewline, Trimmed, Edge;
    var s := l + " ";
    NoNewlineMore(l);
    LineEndAt(s, 0, |s|);
    assert s[..|s|] == s && Lines(s) == [s];
    assert AllEdge("") && AllEdge(" ") by { Blanks(); }
    TrimMiddle("", l, " ");
    assert "" + l + " " == s;
    assert [s][1..] == [] && ItemsOf([]) == [];
  }

  lemma Blanks()
    ensures AllEdge("") && AllEdge(" ")
  {
  }

  lemma NoNewlineMore(l: string)
    requires NoNewline(l)
    ensures NoNewline(l + " ")
  {
  }

  /** The names known before item `i`. */
  lemma TableStep(xs: seq<Item<string>>, i: nat)
    requires i < |xs|
    ensures Table(xs[..i + 1]) == if xs[i].Name? then Known(Table(xs[..i]), xs[i].v) else Table(xs[..i])
  {
    var ys := xs[..i + 1];
    assert ys[..i] == xs[..i] && ys[i] == xs[i];
  }

  lemma Known1()
    ensures Known([], "f") == ["f"] && Known(["f"], "x") == ["f", "x"] && Known(["f", "x"], "x") == ["f", "x"]
    ensures Find([], "f") == 0 && Find(["f"], "x") == 1 && Find(["f", "x"], "x") == 1
  {
    assert ["f"][0] != "x" by { assert "f"[0] != "x"[0]; }
    assert ["f", "x"][1] == "x";
  }

  lemma Tables()
    ensures var xs := Shown() + [Eol];
      Table(xs[..2]) == [] && Table(xs[..4]) == ["f"] && Table(xs[..9]) == ["f", "x"]
  {
    var xs := Shown() + [Eol];
    Known1();
    hide Table, Known, Find;
    NoTable();
    assert xs[..0] == [];
    TableStep(xs, 0);
    TableStep(xs, 1);
    TableStep(xs, 2);
    TableStep(xs, 3);
    TableStep(xs, 4);
    TableStep(xs, 5);
    TableStep(xs, 6);
    TableStep(xs, 7);
    TableStep(xs, 8);
  }

  lemma NoTable()
    ensures Table([]) == []
  {
  }

  lemma SourceNumbers()
    ensures Numbered(Shown() + [Eol]) == Numbers()
  {
    var xs := Shown() + [Eol];
    Known1();
    Tables();
    var ns, numbers := Numbered(xs), Numbers();
    hide Table, Known, Find, Numbered;
    forall i | 0 <= i < 20
      ensures ns[i] == numbers[i]
    {
      NumberedAt(xs, i);
      if !xs[i].Name? { SameKept(i); }
      assert i < 20;
      if i == 2 || i == 4 || i == 9 {} else { NotName(i); }
    }
  }

  lemma SameKept(i: nat)
    requires i < 20 && !(Shown() + [Eol])[i].Name?
    ensures Numbers()[i] == if i == 19 then Eol else Keep((Shown())[i].t)
  {
  }

  lemma NotName(i: nat)
    requires i < 20 && i != 2 && i != 4 && i != 9
    ensures !(Shown() + [Eol])[i].Name?
  {
  }

  // ----- the printed form -----

  function Out(): (r: string)
    ensures |r| == 33
  {
    "int $0($1){return $1+'\\''+0x1f;}\n"
  }

  /** The numbered items from `i` on print as the text from `p` on. */
  ghost predicate Prints(i: nat, p: nat) { i <= 20 && p <= 33 && Print(Numbers()[i..]) == Out()[p..] }

  ghost predicate PrintsOne(i: nat, p: nat, s: string) {
    && i < 20 && p + |s| <= 33 && PrintOne(Numbers()[i]) == s && forall j :: 0 <= j < |s| ==> Out()[p + j] == s[j]
  }

  lemma PrintStep(i: nat, p: nat, s: string)
    requires PrintsOne(i, p, s) && Prints(i + 1, p + |s|)
    ensures Prints(i, p)
  {
    var ns := Numbers();
    hide Numbers, PrintOne, Out;
    assert ns[i..][1..] == ns[i + 1..];
    ShowsAt(Out(), p, s);
  }

  lemma PrintLast()
    ensures Prints(20, 33)
  {
    assert Numbers()[20..] == [] && Out()[33..] == "";
  }

  lemma Digits()
    ensures Dec(0) == "0" && Dec(1) == "1" && "$" + "0" == "$0" && "$" + "1" == "$1"
  {
  }

  lemma Print0() ensures PrintsOne(0, 0, "int") {}
  lemma Print1() ensures PrintsOne(1, 3, " ") {}
  lemma Print2() ensures PrintsOne(2, 4, "$0") { Digits(); hide Dec; }
  lemma Print3() ensures PrintsOne(3, 6, "(") {}
  lemma Print4() ensures PrintsOne(4, 7, "$1") { Digits(); hide Dec; }
  lemma Print5() ensures PrintsOne(5, 9, ")") {}
  lemma Print6() ensures PrintsOne(6, 10, "{") {}
  lemma Print7() ensures PrintsOne(7, 11, "return") {}
  lemma Print8() ensures PrintsOne(8, 17, " ") {}
  lemma Print9() ensures PrintsOne(9, 18, "$1") { Digits(); hide Dec; }
  lemma Print10() ensures PrintsOne(10, 20, "+") {}
  lemma Print11() ensures PrintsOne(11, 21, "'\\''") {}
  lemma Print12() ensures PrintsOne(12, 25, "+") {}
  lemma Print13() ensures PrintsOne(13, 26, "0") {}
  lemma Print14() ensures PrintsOne(14, 27, "x") {}
  lemma Print15() ensures PrintsOne(15, 28, "1") {}
  lemma Print16() ensures PrintsOne(16, 29, "f") {}
  lemma Print17() ensures PrintsOne(17, 30, ";") {}
  lemma Print18() ensures PrintsOne(18, 31, "}") {}
  lemma Print19() ensures PrintsOne(19, 32, "\n") {}

  lemma AllPrinted()
    ensures Print(Numbers()) == Out()
  {
    PrintLast();
    hide Prints, PrintsOne;
    Print19();
    PrintStep(19, 32, "\n");
    Print18();
    PrintStep(18, 31, "}");
    Print17();
    PrintStep(17, 30, ";");
    Print16();
    PrintStep(16, 29, "f");
    Print15();
    PrintStep(15, 28, "1");
    Print14();
    PrintStep(14, 27, "x");
    Print13();
    PrintStep(13, 26, "0");
    Print12();
    PrintStep(12, 25, "+");
    Print11();
    PrintStep(11, 21, "'\\''");
    Print10();
    PrintStep(10, 20, "+");
    Print9();
    PrintStep(9, 18, "$1");
    Print8();
    PrintStep(8, 17, " ");
    Print7();
    PrintStep(7, 11, "return");
    Print6();
    PrintStep(6, 10, "{");
    Print5();
    PrintStep(5, 9, ")");
    Print4();
    PrintStep(4, 7, "$1");
    Print3();
    PrintStep(3, 6, "(");
    Print2();
    PrintStep(2, 4, "$0");
    Print1();
    PrintStep(1, 3, " ");
    Print0();
    PrintStep(0, 0, "int");
    PrintedWhole();
  }

  lemma PrintedWhole()
    ensures Prints(0, 0) ==> Print(Numbers()) == Out()
  {
    hide Print, Numbers, Out;
    assert Numbers()[0..] == Numbers() && Out()[0..] == Out();
  }

  /** What is hashed for the text: its comments dropped, white space kept between words only, its names numbered in order
      of first appearance, everything else as it stands. */
  lemma SourceForm()
    ensures NormalForm(Source()) == "int $0($1){return $1+'\\''+0x1f;}\n"
  {
    SourceItems();
    SourceNumbers();
    AllPrinted();
    hide Items, Strip, Numbered, Print, Shown, Numbers;
  }

  // ----- a digest -----

  lemma Mixes()
    ensures Mix(FNV_OFFSET, 0x24) == 0x44bd4fd473cd34c5 && Mix(0x44bd4fd473cd34c5, 0x30) == 0x9ae39b00c5b0fc4f
    ensures Mix(0x9ae39b00c5b0fc4f, 0x0A) == 0xe1bca74febbca93f
  {
  }

  lemma ByteValues()
    ensures ByteBits(0x24) == 0x24 && ByteBits(0x30) == 0x30 && ByteBits(0x0A) == 0x0A
  {
  }

  lemma CharValues()
    ensures CharBits('$') == 0x24 && CharBits('0') == 0x30 && CharBits('\n') == 0x0A
  {
    ByteValues();
    hide ByteBits;
    assert '$' as int % 256 == 0x24 && '0' as int % 256 == 0x30 && '\n' as int % 256 == 0x0A;
  }

  lemma ThreeSteps(h: bv64)
    ensures Fnv(h, "$0\n") == FnvStep(FnvStep(FnvStep(h, '$'), '0'), '\n')
  {
    hide FnvStep;
    assert "$0\n"[1..] == "0\n" && "0\n"[1..] == "\n" && "\n"[1..] == "";
  }

  lemma HashOfX()
    ensures Fnv(FNV_OFFSET, NormalForm("x")) == 0xe1bca74febbca93f
  {
    WordForm();
    ThreeSteps(FNV_OFFSET);
    Mixes();
    CharValues();
    hide Fnv, NormalForm, Mix, CharBits;
  }

  lemma HexDigits(n: nat, w: nat, s: string, d: char)
    requires w > 0 && Hex(n / 16, w - 1, false) == s && HexChar(n % 16, false) == d
    ensures Hex(n, w, false) == s + [d]
  {
  }

  lemma DigitChars()
    ensures HexChar(0x1, false) == '1'
    ensures HexChar(0x3, false) == '3'
    ensures HexChar(0x4, false) == '4'
    ensures HexChar(0x7, false) == '7'
    ensures HexChar(0x9, false) == '9'
    ensures HexChar(0xa, false) == 'a'
    ensures HexChar(0xb, false) == 'b'
    ensures HexChar(0xc, false) == 'c'
    ensures HexChar(0xe, false) == 'e'
    ensures HexChar(0xf, false) == 'f'
  {
  }

  lemma HexOfHalf()
    ensures Hex(0xe1bca74f, 8, false) == "e1bca74f"
  {
    DigitChars();
    assert Hex(0, 0, false) == "";
    hide Hex, HexChar;
    HexDigits(0xe, 1, "", 'e');
    assert "" + ['e'] == "e";
    HexDigits(0xe1, 2, "e", '1');
    assert "e" + ['1'] == "e1";
    HexDigits(0xe1b, 3, "e1", 'b');
    assert "e1" + ['b'] == "e1b";
    HexDigits(0xe1bc, 4, "e1b", 'c');
    assert "e1b" + ['c'] == "e1bc";
    HexDigits(0xe1bca, 5, "e1bc", 'a');
    assert "e1bc" + ['a'] == "e1bca";
    HexDigits(0xe1bca7, 6, "e1bca", '7');
    assert "e1bca" + ['7'] == "e1bca7";
    HexDigits(0xe1bca74, 7, "e1bca7", '4');
    assert "e1bca7" + ['4'] == "e1bca74";
    HexDigits(0xe1bca74f, 8, "e1bca74", 'f');
    assert "e1bca74" + ['f'] == "e1bca74f";
  }

  lemma HexOfHash()
    ensures Hex(0xe1bca74febbca93f, 16, false) == "e1bca74febbca93f"
  {
    DigitChars();
    HexOfHalf();
    hide Hex, HexChar;
    HexDigits(0xe1bca74fe, 9, "e1bca74f", 'e');
    assert "e1bca74f" + ['e'] == "e1bca74fe";
    HexDigits(0xe1bca74feb, 10, "e1bca74fe", 'b');
    assert "e1bca74fe" + ['b'] == "e1bca74feb";
    HexDigits(0xe1bca74febb, 11, "e1bca74feb", 'b');
    assert "e1bca74feb" + ['b'] == "e1bca74febb";
    HexDigits(0xe1bca74febbc, 12, "e1bca74febb", 'c');
    assert "e1bca74febb" + ['c'] == "e1bca74febbc";
    HexDigits(0xe1bca74febbca, 13, "e1bca74febbc", 'a');
    assert "e1bca74febbc" + ['a'] == "e1bca74febbca";
    HexDigits(0xe1bca74febbca9, 14, "e1bca74febbca", '9');
    assert "e1bca74febbca" + ['9'] == "e1bca74febbca9";
    HexDigits(0xe1bca74febbca93, 15, "e1bca74febbca9", '3');
    assert "e1bca74febbca9" + ['3'] == "e1bca74febbca93";
    HexDigits(0xe1bca74febbca93f, 16, "e1bca74febbca93", 'f');
    assert "e1bca74febbca93" + ['f'] == "e1bca74febbca93f";
  }

  /** The digest of the text `x`. */
  lemma DigestOfX()
    ensures Hex(Fnv(FNV_OFFSET, NormalForm("x")) as int, 16, false) == "e1bca74febbca93f"
  {
    HashOfX();
    HexOfHash();
    AsInt();
    hide Fnv, NormalForm, Hex;
  }

  lemma AsInt()
    ensures (0xe1bca74febbca93f as bv64) as int == 0xe1bca74febbca93f
  {
  }
}
