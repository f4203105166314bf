/** `mf_form_hash_text` of memfn/src/formhash.c: the two scanning passes and the running hash, proved against the normal
    form. A text is the characters before its terminating NUL, each one byte. */
module FormHash {
  import opened Text
  import opened FormLex
  import opened FormNames
  import opened FormNormal

  // ----- FNV-1a-64 -----

  // The start value is the source's own: it lacks the last digit of the published FNV-1a-64 offset basis.
  const FNV_OFFSET: bv64 := 1469598103934665603
  const FNV_PRIME: bv64 := 1099511628211

  function FnvStep(h: bv64, c: char): bv64 { Mix(h, CharBits(c)) }

  function CharBits(c: char): bv64 { ByteBits(c as int % 256) }

  function ByteBits(n: int): bv64
    requires 0 <= n < 256
  {
    n as bv64
  }

  function Mix(h: bv64, x: bv64): bv64 { (h ^ x) * FNV_PRIME }

  function Fnv(h: bv64, s: string): bv64
    decreases |s|
  {
    if s == "" then h else Fnv(FnvStep(h, s[0]), s[1..])
  }

  lemma {:induction false} FnvConcat(h: bv64, a: string, b: string)
    ensures Fnv(h, a + b) == Fnv(Fnv(h, a), b)
    decreases |a|
  {
    hide FnvStep;
    if a == "" {
      assert a + b == b;
    } else {
      assert (a + b)[1..] == a[1..] + b;
      FnvConcat(FnvStep(h, a[0]), a[1..], b);
    }
  }

  method FnvOver(h0: bv64, s: string) returns (h: bv64)
    ensures h == Fnv(h0, s)
  {
    hide FnvStep;
    h := h0;
    assert s[0..] == s;
    for i := 0 to |s|
      invariant Fnv(h0, s) == Fnv(h, s[i..])
    {
      assert s[i..][1..] == s[i + 1..];
      h := FnvStep(h, s[i]);
    }
  }

  // ----- runs, literals and comments -----

  method SkipBlanks(b: string, i: nat) returns (j: nat)
    requires i <= |b|
    ensures j == i + BlankRun(b[i..])
  {
    j := i;
    while j < |b| && IsBlank(b[j])
      invariant i <= j <= |b| && j - i + BlankRun(b[j..]) == BlankRun(b[i..])
    {
      assert b[j..][1..] == b[j + 1..];
      j := j + 1;
    }
  }

  method SkipWord(b: string, i: nat) returns (j: nat)
    requires i <= |b|
    ensures j == i + WordRun(b[i..])
  {
    j := i;
    while j < |b| && IdChar(b[j])
      invariant i <= j <= |b| && j - i + WordRun(b[j..]) == WordRun(b[i..])
    {
      assert b[j..][1..] == b[j + 1..];
      j := j + 1;
    }
  }

  method SkipLiteral(b: string, i: nat) returns (j: nat)
    requires i < |b| && Quote(b[i])
    ensures j == i + LitEnd(b[i..], b[i], 1)
  {
    var q := b[i];
    j := i + 1;
    while j < |b| && b[j] != q
      invariant i < j <= |b| && LitEnd(b[i..], q, j - i) == LitEnd(b[i..], q, 1)
    {
      assert b[i..][j - i] == b[j];
      j := j + if b[j] == '\\' && j + 1 < |b| then 2 else 1;
    }
    if j < |b| {
      assert b[i..][j - i] == b[j];
      j := j + 1;
    }
  }

  /** Past the first close of a block comment, or to the end. */
  method SkipBlock(b: string, i: nat) returns (j: nat)
    requires i <= |b|
    ensures i <= j <= |b| && b[j..] == AfterClose(b[i..])
  {
    j := i;
    while j + 2 <= |b| && !(b[j] == '*' && b[j + 1] == '/')
      invariant i <= j <= |b| && AfterClose(b[j..]) == AfterClose(b[i..])
    {
      assert b[j..][1..] == b[j + 1..];
      j := j + 1;
    }
    if j + 2 <= |b| {
      assert b[j..][2..] == b[j + 2..];
      j := j + 2;
    } else {
      j := |b|;
    }
  }

  method SkipLineComment(b: string, i: nat) returns (j: nat)
    requires i <= |b|
    ensures i <= j <= |b| && b[j..] == FromNewline(b[i..])
  {
    j := i;
    while j < |b| && b[j] != '\n'
      invariant i <= j <= |b| && FromNewline(b[j..]) == FromNewline(b[i..])
    {
      assert b[j..][1..] == b[j + 1..];
      j := j + 1;
    }
  }

  /** Pass 1. */
  method DropComments(text: string) returns (a: string)
    ensures a == Strip(text)
  {
    hide LitEnd, AfterClose, FromNewline, Strip, Quote;
    a := "";
    var p: nat := 0;
    assert text[0..] == text;
    while p < |text|
      invariant p <= |text| && a + Strip(text[p..]) == Strip(text)
    {
      ghost var t := text[p..];
      StripFirst(t);
      if Quote(text[p]) {
        var e := SkipLiteral(text, p);
        assert t[..e - p] == text[p..e] && t[e - p..] == text[e..];
        a, p := a + text[p..e], e;
      } else if p + 1 < |text| && text[p] == '/' && text[p + 1] == '*' {
        assert t[2..] == text[p + 2..];
        p := SkipBlock(text, p + 2);
      } else if p + 1 < |text| && text[p] == '/' && text[p + 1] == '/' {
        SlashesFirst(t);
        p := SkipLineComment(text, p);
      } else {
        assert t[1..] == text[p + 1..];
        a, p := a + [text[p]], p + 1;
      }
    }
    StripNothing(text[p..]);
  }

  lemma StripNothing(t: string)
    requires t == ""
    ensures Strip(t) == ""
  {
  }

  lemma StripFirst(t: string)
    requires t != ""
    ensures Quote(t[0]) ==> Strip(t) == t[..LitEnd(t, t[0], 1)] + Strip(t[LitEnd(t, t[0], 1)..])
    ensures OpensBlock(t) ==> Strip(t) == Strip(AfterClose(t[2..])) && !Quote(t[0])
    ensures OpensLine(t) ==> Strip(t) == Strip(FromNewline(t[2..])) && !Quote(t[0])
    ensures !Quote(t[0]) && !OpensBlock(t) && !OpensLine(t) ==> Strip(t) == [t[0]] + Strip(t[1..])
  {
    hide LitEnd, AfterClose, FromNewline;
  }

  lemma SlashesFirst(t: string)
    requires OpensLine(t)
    ensures FromNewline(t) == FromNewline(t[2..]) && |FromNewline(t)| < |t|
  {
    assert t[1..][1..] == t[2..];
  }

  // ----- names -----

  method IsKept(word: string) returns (r: bool)
    ensures r <==> Kept(word)
  {
    hide KeptList;
    var list := KeptList();
    r := false;
    for i := 0 to |list|
      invariant !r && word !in list[..i]
    {
      if list[i] == word { return true; }
      assert list[..i + 1] == list[..i] + [list[i]];
    }
    assert list[..|list|] == list;
  }

  /** The identifier that starts at offset `p`: a recorded name is only where it starts, it ends where its word ends. */
  function NameAt(a: string, p: nat): string
    requires p <= |a|
  {
    a[p..][..WordRun(a[p..])]
  }

  /** `strncmp` over `n` characters, then the check that the recorded name ends there. */
  method SameName(a: string, p: nat, i: nat, n: nat) returns (r: bool)
    requires p <= |a| && i + n <= |a| && forall k :: i <= k < i + n ==> IdChar(a[k])
    ensures r <==> NameAt(a, p) == a[i..i + n]
  {
    ghost var u, w := a[p..], a[i..i + n];
    var k := 0;
    while k < n && p + k < |a| && a[p + k] == a[i + k]
      invariant k <= n && p + k <= |a| && u[..k] == w[..k]
    {
      assert u[k] == w[k];
      assert u[..k + 1] == u[..k] + [u[k]] && w[..k + 1] == w[..k] + [w[k]];
      k := k + 1;
    }
    r := k == n && !(p + n < |a| && IdChar(a[p + n]));
    assert k < n && p + k < |a| ==> u[k] != w[k];
    assert p + n < |a| ==> u[n] == a[p + n];
    RunCompare(u, w, k);
  }

  lemma RunCompare(u: string, w: string, k: nat)
    requires k <= |u| && k <= |w| && u[..k] == w[..k] && forall j :: 0 <= j < |w| ==> IdChar(w[j])
    requires k < |w| && k < |u| ==> u[k] != w[k]
    ensures k == |w| <= |u| && !(|w| < |u| && IdChar(u[|w|])) <==> u[..WordRun(u)] == w
  {
    var m := WordRun(u);
    WordRunIs(u);
    if k == |w| {
      RunAtLeast(u, w);
    } else {
      assert k < m ==> u[..m][k] == u[k];
    }
  }

  lemma RunAtLeast(u: string, w: string)
    requires |w| <= |u| && u[..|w|] == w && forall j :: 0 <= j < |w| ==> IdChar(w[j])
    ensures WordRun(u) >= |w|
    ensures (|w| < |u| && IdChar(u[|w|])) <==> WordRun(u) > |w|
  {
    var n := |w|;
    WordRunIs(u);
    assert forall j :: 0 <= j < n ==> u[..n][j] == w[j];
  }

  /** The recorded offsets are where the table's names first appear. */
  ghost predicate Records(a: string, names: array<nat>, nn: nat, xs: seq<Item<string>>)
    reads names
  {
    && names.Length == NAMES && nn == |Table(xs)| <= NAMES
    && forall k :: 0 <= k < nn ==> names[k] <= |a| && NameAt(a, names[k]) == Table(xs)[k]
  }

  /** The number of the identifier at `i`, recorded if it is new and there is room. */
  method NumberName(a: string, i: nat, n: nat, names: array<nat>, nn: nat, ghost xs: seq<Item<string>>)
      returns (k: nat, nn': nat)
    requires i + n <= |a| && NameAt(a, i) == a[i..i + n] && forall j :: i <= j < i + n ==> IdChar(a[j])
    requires Records(a, names, nn, xs)
    modifies names
    ensures k == Find(Table(xs), a[i..i + n])
    ensures Records(a, names, nn', xs + [Name(a[i..i + n])])
  {
    hide NameAt, Table, Known;
    k := 0;
    ghost var w := a[i..i + n];
    var hit := false;
    while k < nn && !hit
      invariant Records(a, names, nn, xs)
      invariant k <= nn && (hit ==> k < nn && NameAt(a, names[k]) == w)
      invariant forall j :: 0 <= j < k ==> NameAt(a, names[j]) != w
      decreases nn - k, !hit
    {
      hit := SameName(a, names[k], i, n);
      if !hit { k := k + 1; }
    }
    nn' := nn;
    TablePush(xs, w);
    if k == nn && nn < NAMES {
      names[nn] := i;
      nn' := nn + 1;
    }
  }

  lemma TablePush(xs: seq<Item<string>>, w: string)
    ensures Table(xs + [Name(w)]) ==
            if w in Table(xs) || |Table(xs)| >= NAMES then Table(xs) else Table(xs) + [w]
  {
    assert (xs + [Name(w)])[..|xs|] == xs;
  }

  // ----- one line -----

  predicate WordEnd(s: string) { s != "" && IdChar(s[|s| - 1]) }

  lemma SqueezeGap(v: bool, r: string, rest: seq<Tok>)
    ensures Squeeze(v, [Gap(r)] + rest) ==
            if v && rest != [] && StartsWord(rest[0]) then [Keep(Gap(" "))] + Squeeze(false, rest) else Squeeze(v, rest)
  {
    hide StartsWord;
    assert ([Gap(r)] + rest)[1..] == rest;
    assert |[Gap(r)] + rest| > 1 ==> ([Gap(r)] + rest)[1] == rest[0];
  }

  /** A run of white space: one space if it separates two word characters. */
  lemma GapStep(b: string, i: nat, v: bool)
    requires i < |b| && IsBlank(b[i])
    ensures var j := i + BlankRun(b[i..]);
            && i < j <= |b| && !WordEnd(b[..j])
            && Squeeze(v, Lex(WordEnd(b[..i]), b[i..])) ==
               if v && j < |b| && IdChar(b[j]) then [Keep(Gap(" "))] + Squeeze(false, Lex(false, b[j..]))
               else Squeeze(v, Lex(false, b[j..]))
  {
    hide StartsWord, IdChar, Lex, Squeeze;
    var u, w := b[i..], WordEnd(b[..i]);
    var n := BlankRun(u);
    var j := i + n;
    BlankRunIs(u);
    assert n > 0;
    assert u[..n][n - 1] == b[j - 1] == b[..j][j - 1];
    assert u[n..] == b[j..];
    FirstStarts(false, b[j..]);
    BlankNoWord(b[j - 1]);
    LexGap(w, u);
    hide First, BlankRun, WordEnd;
    SqueezeGap(v, u[..n], Lex(false, b[j..]));
    assert j < |b| ==> b[j..][0] == b[j];
  }

  lemma LexGap(w: bool, u: string)
    requires u != "" && IsBlank(u[0])
    ensures var n := BlankRun(u); n <= |u| && Lex(w, u) == [Gap(u[..n])] + Lex(false, u[n..])
  {
    hide Lex;
    BlankRunIs(u);
    LexFirst(w, u);
  }

  lemma BlankNoWord(c: char)
    requires IsBlank(c)
    ensures !IdChar(c)
  {
  }

  lemma LexFirst(w: bool, u: string)
    requires u != ""
    ensures Lex(w, u) == [First(w, u)] + Lex(EndsWord(First(w, u)), u[|Raw(First(w, u))|..])
  {
    hide First, EndsWord;
  }

  lemma SqueezeFirst(v: bool, t: Tok, rest: seq<Tok>)
    requires !t.Gap?
    ensures Squeeze(v, [t] + rest) == [ItemOf(t)] + Squeeze(EndsWord(t), rest)
  {
    hide ItemOf, EndsWord;
    assert ([t] + rest)[1..] == rest;
  }

  /** Any other token becomes one item. */
  lemma TokenStep(b: string, i: nat, v: bool)
    requires i < |b| && !IsBlank(b[i])
    ensures var t := First(WordEnd(b[..i]), b[i..]);
            var j := i + |Raw(t)|;
            && i < j <= |b| && Raw(t) == b[i..j] && WordEnd(b[..j]) == EndsWord(t)
            && Squeeze(v, Lex(WordEnd(b[..i]), b[i..])) == [ItemOf(t)] + Squeeze(EndsWord(t), Lex(EndsWord(t), b[j..]))
  {
    hide ItemOf, First, EndsWord, Lex, Squeeze, IdChar;
    var u, w := b[i..], WordEnd(b[..i]);
    var t := First(w, u);
    var j := i + |Raw(t)|;
    assert u[j - i..] == b[j..] && u[..j - i] == b[i..j];
    assert b[..j][j - 1] == b[i..j][j - i - 1];
    TokenEnds(w, u);
    LexFirst(w, u);
    SqueezeFirst(v, t, Lex(EndsWord(t), b[j..]));
  }

  lemma TokenEnds(w: bool, u: string)
    requires u != "" && !IsBlank(u[0])
    ensures var t := First(w, u); !t.Gap? && EndsWord(t) == IdChar(Raw(t)[|Raw(t)| - 1])
  {
    WordRunIs(u);
  }

  /** Printing one more item. */
  lemma AppendItem(xs: seq<Item<string>>, li: seq<Item<string>>, x: Item<string>)
    ensures Print(Numbered(xs + (li + [x]))[|xs|..]) ==
            Print(Numbered(xs + li)[|xs|..]) + PrintOne(NumberOne(Table(xs + li), x))
  {
    hide Table, PrintOne, NumberOne;
    var all := xs + (li + [x]);
    assert all[..|all| - 1] == xs + li;
    var n := NumberOne(Table(xs + li), x);
    assert Numbered(all)[|xs|..] == Numbered(xs + li)[|xs|..] + [n];
    PrintConcat(Numbered(xs + li)[|xs|..], [n]);
    assert Print([n]) == PrintOne(n) + Print([n][1..]) == PrintOne(n);
  }

  lemma KeepItem(xs: seq<Item<string>>, t: Tok)
    ensures PrintOne(NumberOne(Table(xs), Keep(t))) == Raw(t)
    ensures Table(xs + [Keep(t)]) == Table(xs) && Table(xs + [Eol]) == Table(xs)
  {
    assert (xs + [Keep(t)])[..|xs|] == xs;
    assert (xs + [Eol])[..|xs|] == xs;
  }

  lemma NameItem(xs: seq<Item<string>>, n: string)
    ensures PrintOne(NumberOne(Table(xs), Name(n))) == "$" + Dec(Find(Table(xs), n))
  {
  }

  lemma LineGrows(line: string, more: string)
    ensures more != "" ==> WordEnd(line + more) == WordEnd(more)
    ensures more == "" ==> line + more == line
  {
  }

  lemma NumberWord(k: nat)
    ensures WordEnd("$" + Dec(k))
  {
    var d := Dec(k);
    assert IsDigit(d[|d| - 1]);
    assert ("$" + d)[|d|] == d[|d| - 1];
  }

  /** A word of the line is the same word in the text. */
  lemma WordInText(a: string, s: nat, m: nat, i: nat)
    requires s + m <= |a| && i < m && (s + m < |a| ==> !IdChar(a[s + m]))
    ensures var n := WordRun(a[s..s + m][i..]);
            i + n <= m && NameAt(a, s + i) == a[s + i..s + i + n] == a[s..s + m][i..i + n] &&
            forall j :: s + i <= j < s + i + n ==> IdChar(a[j])
  {
    var t := a[s..s + m][i..];
    var n := WordRun(t);
    WordRunIs(t);
    hide WordRun;
    var w, rest := a[s + i..s + i + n], a[s + i + n..];
    assert w == t[..n];
    CutWord(a[s + i..], t, w, rest);
    assert rest != "" && i + n < m ==> rest[0] == t[n];
    WordRunAt(w, rest);
    forall j | s + i <= j < s + i + n
      ensures IdChar(a[j])
    {
      assert a[j] == w[j - (s + i)];
    }
  }

  lemma CutWord(u: string, t: string, w: string, rest: string)
    requires |w| <= |u| && w == u[..|w|] && rest == u[|w|..] && |w| <= |t| && w == t[..|w|]
    ensures u == w + rest && forall k :: 0 <= k < |w| ==> w[k] == t[k]
  {
  }

  /** After `i` characters of line `b`: `li` and the line buffer are what they account for. */
  ghost predicate Progress(a: string, b: string, i: nat, names: array<nat>, nn: nat, xs: seq<Item<string>>,
                           li: seq<Item<string>>, line: string)
    reads names
  {
    && i <= |b| && Records(a, names, nn, xs + li)
    && li + Squeeze(WordEnd(line), Lex(WordEnd(b[..i]), b[i..])) == Squeeze(false, Lex(false, b))
    && line == Print(Numbered(xs + li)[|xs|..])
  }

  method TakeBlanks(a: string, b: string, i: nat, names: array<nat>, nn0: nat, ghost xs: seq<Item<string>>,
                    ghost li0: seq<Item<string>>, line0: string)
      returns (j: nat, nn: nat, ghost li: seq<Item<string>>, line: string)
    requires i < |b| && IsBlank(b[i]) && Progress(a, b, i, names, nn0, xs, li0, line0)
    ensures i < j <= |b| && Progress(a, b, j, names, nn, xs, li, line)
  {
    hide Squeeze, Lex, Print, Numbered, Table, BlankRun, NameAt, Records, IdChar;
    GapStep(b, i, WordEnd(line0));
    j := SkipBlanks(b, i);
    line, nn, li := line0, nn0, li0;
    if line0 != "" && j < |b| && IdChar(line0[|line0| - 1]) && IdChar(b[j]) {
      BlankNoWord(' ');
      line, nn, li := KeepOne(line0, Gap(" "), a, names, nn0, xs, li0);
      Regroup(li0, Keep(Gap(" ")), Squeeze(false, Lex(false, b[j..])));
    }
  }

  lemma Regroup(li: seq<Item<string>>, x: Item<string>, rest: seq<Item<string>>)
    ensures li + ([x] + rest) == (li + [x]) + rest
  {
  }

  /** A literal, a kept identifier or a single character. */
  method TakeKept(a: string, b: string, i: nat, t: Tok, names: array<nat>, nn0: nat, ghost xs: seq<Item<string>>,
                  ghost li0: seq<Item<string>>, line0: string)
      returns (j: nat, nn: nat, ghost li: seq<Item<string>>, line: string)
    requires i < |b| && !IsBlank(b[i]) && Progress(a, b, i, names, nn0, xs, li0, line0)
    requires t == First(WordEnd(b[..i]), b[i..]) && ItemOf(t) == Keep(t)
    ensures i < j <= |b| && Progress(a, b, j, names, nn, xs, li, line)
  {
    hide Squeeze, Lex, Print, Numbered, Table, NameAt, Records, IdChar, First, ItemOf, EndsWord;
    TokenStep(b, i, WordEnd(line0));
    j := i + |Raw(t)|;
    line, nn, li := KeepOne(line0, t, a, names, nn0, xs, li0);
    SameEnd(b, i, j);
    Regroup(li0, Keep(t), Squeeze(EndsWord(t), Lex(EndsWord(t), b[j..])));
  }

  lemma SameEnd(b: string, i: nat, j: nat)
    requires i < j <= |b|
    ensures WordEnd(b[..j]) == WordEnd(b[i..j])
  {
  }

  method TakeName(a: string, s: nat, m: nat, i: nat, names: array<nat>, nn0: nat, ghost xs: seq<Item<string>>,
                  ghost li0: seq<Item<string>>, line0: string, j: nat)
      returns (nn: nat, ghost li: seq<Item<string>>, line: string)
    requires s + m <= |a| && (s + m < |a| ==> !IdChar(a[s + m]))
    requires i < j <= m && !IsBlank(a[s..s + m][i]) && Progress(a, a[s..s + m], i, names, nn0, xs, li0, line0)
    requires First(WordEnd(a[s..s + m][..i]), a[s..s + m][i..]) == Id(a[s..s + m][i..j]) && !Kept(a[s..s + m][i..j])
    requires j - i == WordRun(a[s..s + m][i..])
    modifies names
    ensures Progress(a, a[s..s + m], j, names, nn, xs, li, line)
  {
    hide Squeeze, Lex, Print, Numbered, Table, NameAt, Records, IdChar, First, Dec, Find, WordRun, NumberOne, PrintOne;
    ghost var b := a[s..s + m];
    ghost var w := b[i..j];
    TokenStep(b, i, WordEnd(line0));
    WordInText(a, s, m, i);
    var k;
    k, nn := NumberName(a, s + i, j - i, names, nn0, xs + li0);
    NameItem(xs + li0, w);
    AppendItem(xs, li0, Name(w));
    NumberWord(k);
    LineGrows(line0, "$" + Dec(k));
    line, li := line0 + ("$" + Dec(k)), li0 + [Name(w)];
    assert xs + li == xs + li0 + [Name(w)];
    Regroup(li0, Name(w), Squeeze(true, Lex(true, b[j..])));
  }

  /** Pass 2 over one trimmed line: `xs` are the items of the text before it, `li` those of the line. */
  method NormalizeLine(a: string, s: nat, m: nat, names: array<nat>, nn0: nat, ghost xs: seq<Item<string>>)
      returns (line: string, nn: nat, ghost li: seq<Item<string>>)
    requires s + m <= |a| && (s + m < |a| ==> !IdChar(a[s + m])) && Records(a, names, nn0, xs)
    modifies names
    ensures li == Squeeze(false, Lex(false, a[s..s + m]))
    ensures line == Print(Numbered(xs + li)[|xs|..]) && Records(a, names, nn, xs + li)
  {
    hide Progress, BlankRun, WordRun, LitEnd, Kept, IdChar, Records, Squeeze, Lex, Print, Numbered, IsBlank, Quote, IdStart;
    var b := a[s..s + m];
    line, nn, li := "", nn0, [];
    var i: nat := 0;
    LineStarts(a, b, names, nn, xs);
    while i < m
      invariant i <= m && Progress(a, b, i, names, nn, xs, li, line)
    {
      if IsBlank(b[i]) {
        i, nn, li, line := TakeBlanks(a, b, i, names, nn, xs, li, line);
      } else if Quote(b[i]) {
        var j := SkipLiteral(b, i);
        assert b[i..][..j - i] == b[i..j];
        i, nn, li, line := TakeKept(a, b, i, Lit(b[i..j]), names, nn, xs, li, line);
      } else if IdStart(b[i]) && (i == 0 || !IdChar(b[i - 1])) {
        var j := SkipWord(b, i);
        WordFirst(b, i);
        var kept := IsKept(b[i..j]);
        if kept {
          i, nn, li, line := TakeKept(a, b, i, Id(b[i..j]), names, nn, xs, li, line);
        } else {
          nn, li, line := TakeName(a, s, m, i, names, nn, xs, li, line, j);
          i := j;
        }
      } else {
        i, nn, li, line := TakeKept(a, b, i, Ch(b[i]), names, nn, xs, li, line);
      }
    }
    LineEnds(a, b, names, nn, xs, li, line);
  }

  lemma WordFirst(b: string, i: nat)
    requires i < |b| && IdStart(b[i]) && !WordEnd(b[..i])
    ensures var j := i + WordRun(b[i..]); i < j <= |b| && First(WordEnd(b[..i]), b[i..]) == Id(b[i..j])
  {
    var u := b[i..];
    assert u[..WordRun(u)] == b[i..i + WordRun(u)];
  }

  lemma LineStarts(a: string, b: string, names: array<nat>, nn: nat, xs: seq<Item<string>>)
    requires Records(a, names, nn, xs)
    ensures Progress(a, b, 0, names, nn, xs, [], "")
  {
    hide Squeeze, Lex, Records, Numbered, IdChar;
    NothingPrinted(xs);
    assert xs + [] == xs && b[0..] == b;
  }

  lemma LineEnds(a: string, b: string, names: array<nat>, nn: nat, xs: seq<Item<string>>, li: seq<Item<string>>,
                 line: string)
    requires Progress(a, b, |b|, names, nn, xs, li, line)
    ensures li == Squeeze(false, Lex(false, b)) && line == Print(Numbered(xs + li)[|xs|..])
    ensures Records(a, names, nn, xs + li)
  {
    hide Squeeze, Lex, Records, Numbered, IdChar;
    NothingLeft(WordEnd(line), WordEnd(b[..|b|]));
    assert b[|b|..] == "";
  }

  lemma NothingPrinted(xs: seq<Item<string>>)
    ensures Print(Numbered(xs + [])[|xs|..]) == ""
  {
    assert xs + [] == xs;
  }

  lemma NothingLeft(v: bool, w: bool)
    ensures Squeeze(v, Lex(w, "")) == []
  {
  }

  /** A token that is kept goes to the line as it is. */
  method KeepOne(line0: string, t: Tok, a: string, names: array<nat>, nn0: nat, ghost xs: seq<Item<string>>,
                 ghost li0: seq<Item<string>>) returns (line: string, nn: nat, ghost li: seq<Item<string>>)
    requires Records(a, names, nn0, xs + li0) && line0 == Print(Numbered(xs + li0)[|xs|..]) && Raw(t) != ""
    ensures line == line0 + Raw(t) && li == li0 + [Keep(t)] && nn == nn0
    ensures line == Print(Numbered(xs + li)[|xs|..]) && Records(a, names, nn, xs + li)
    ensures WordEnd(line) == WordEnd(Raw(t))
  {
    hide Print, Numbered, Table, PrintOne, NumberOne, NameAt, IdChar;
    KeepItem(xs + li0, t);
    AppendItem(xs, li0, Keep(t));
    LineGrows(line0, Raw(t));
    line, nn, li := line0 + Raw(t), nn0, li0 + [Keep(t)];
    assert xs + li == xs + li0 + [Keep(t)];
  }

  // ----- the whole text -----

  ghost predicate FrontIs(l: string, goal: string) { TrimStart(l) == goal }

  lemma FrontStep(a: string, s: nat, e: nat, goal: string)
    requires s <= e <= |a| && FrontIs(a[s..e], goal)
    ensures s < e && Edge(a[s]) ==> FrontIs(a[s + 1..e], goal)
    ensures !(s < e && Edge(a[s])) ==> a[s..e] == goal
  {
    hide Edge;
    if s < e { assert a[s..e][1..] == a[s + 1..e]; }
  }

  method TrimFront(a: string, s0: nat, e: nat) returns (s: nat)
    requires s0 <= e <= |a|
    ensures s0 <= s <= e && a[s..e] == TrimStart(a[s0..e])
  {
    ghost var goal := TrimStart(a[s0..e]);
    s := s0;
    assert FrontIs(a[s0..e], goal);
    hide FrontIs, TrimStart, Edge;
    while s < e && Edge(a[s])
      invariant s0 <= s <= e && FrontIs(a[s..e], goal)
    {
      FrontStep(a, s, e, goal);
      s := s + 1;
    }
    FrontStep(a, s, e, goal);
  }

  method TrimBack(a: string, s: nat, n: nat) returns (m: nat)
    requires s + n <= |a|
    ensures m <= n && a[s..s + m] == TrimEnd(a[s..s + n]) && (m < n ==> Edge(a[s + m]))
  {
    hide TrimEnd, Edge;
    m := n;
    TrimEndStep(a[s..s + m]);
    while m > 0 && Edge(a[s + m - 1])
      invariant m <= n && TrimEnd(a[s..s + m]) == TrimEnd(a[s..s + n]) && (m < n ==> Edge(a[s + m]))
    {
      TrimEndStep(a[s..s + m]);
      assert a[s..s + m][..m - 1] == a[s..s + (m - 1)];
      m := m - 1;
    }
    TrimEndStep(a[s..s + m]);
  }

  lemma TrimEndStep(l: string)
    ensures TrimEnd(l) == if l != "" && Edge(l[|l| - 1]) then TrimEnd(l[..|l| - 1]) else l
  {
  }

  method TrimLine(a: string, s0: nat, e: nat) returns (s: nat, m: nat)
    requires s0 <= e <= |a|
    ensures s0 <= s && s + m <= e && a[s..s + m] == Trim(a[s0..e]) && (s + m < e ==> Edge(a[s + m]))
  {
    s := TrimFront(a, s0, e);
    m := TrimBack(a, s, e - s);
  }

  method FindNewline(a: string, s: nat) returns (e: nat)
    requires s <= |a|
    ensures s <= e <= |a| && NoNewline(a[s..e]) && (e < |a| ==> a[e] == '\n')
  {
    e := s;
    while e < |a| && a[e] != '\n'
      invariant s <= e <= |a| && NoNewline(a[s..e])
    {
      assert a[s..e + 1] == a[s..e] + [a[e]];
      e := e + 1;
    }
  }

  lemma NoWordAfter(a: string, s: nat, m: nat, e: nat)
    requires s + m <= e <= |a| && (s + m < e ==> Edge(a[s + m])) && (e < |a| ==> a[e] == '\n')
    ensures s + m < |a| ==> !IdChar(a[s + m])
  {
  }

  lemma {:induction false} NumberedPrefix(xs: seq<Item<string>>, li: seq<Item<string>>)
    ensures Numbered(xs + li) == Numbered(xs) + Numbered(xs + li)[|xs|..]
  {
    forall i | 0 <= i < |xs|
      ensures Numbered(xs + li)[i] == Numbered(xs)[i]
    {
      NumberedAt(xs + li, i);
      NumberedAt(xs, i);
      assert (xs + li)[..i] == xs[..i];
    }
  }

  /** A line that has items prints something. */
  lemma LineShows(xs: seq<Item<string>>, l: string)
    requires Trimmed(l)
    ensures var li := Squeeze(false, Lex(false, l));
            li == [] <==> Print(Numbered(xs + li)[|xs|..]) == ""
  {
    hide Numbered, Kept, Dec, IdChar;
    var ts := Lex(false, l);
    var li := Squeeze(false, ts);
    NothingPrinted(xs);
    if l != "" {
      FirstStarts(false, l);
      SqueezeFirst(false, ts[0], ts[1..]);
      assert ts == [ts[0]] + ts[1..];
      var ns := Numbered(xs + li)[|xs|..];
      NumberedAt(xs + li, |xs|);
      assert ns[0] == NumberOne(Table((xs + li)[..|xs|]), li[0]);
      assert PrintOne(ns[0]) != "";
    }
  }

  /** One more line in the running hash. */
  lemma HashLine(h: bv64, xs: seq<Item<string>>, li: seq<Item<string>>, line: string)
    requires h == Fnv(FNV_OFFSET, Print(Numbered(xs))) && line == Print(Numbered(xs + li)[|xs|..])
    ensures Fnv(Fnv(h, line), "\n") == Fnv(FNV_OFFSET, Print(Numbered(xs + li + [Eol])))
    ensures Table(xs + li + [Eol]) == Table(xs + li)
  {
    hide Fnv, Table;
    var a, b := xs + li, xs + li + [Eol];
    NumberedPrefix(xs, li);
    PrintConcat(Numbered(xs), Numbered(a)[|xs|..]);
    assert b[..|a|] == a && Numbered(b) == Numbered(a) + [Eol];
    PrintConcat(Numbered(a), [Eol]);
    PrintEol();
    FnvConcat(FNV_OFFSET, Print(Numbered(xs)), line);
    FnvConcat(FNV_OFFSET, Print(Numbered(a)), "\n");
    KeepItem(a, Gap(" "));
  }

  lemma PrintEol()
    ensures Print([Eol]) == "\n"
  {
    var end: seq<Item<nat>> := [Eol];
    assert end[1..] == [] && Print(end) == PrintOne(end[0]) + Print(end[1..]);
  }

  /** The items of a text from its first line. */
  lemma ItemsFrom(a: string, s: nat, e: nat)
    requires s <= e <= |a| && s < |a| && NoNewline(a[s..e]) && (e < |a| ==> a[e] == '\n')
    ensures ItemsOf(Lines(a[s..])) ==
            Ended(LineItems(a[s..e])) + ItemsOf(Lines(a[if e < |a| then e + 1 else e..]))
  {
    hide NoNewline, LineItems, LineEnd;
    var l, u := a[s..e], a[e..];
    assert a[s..] == l + u;
    LinesFrom(l, u);
    if e < |a| {
      assert u[1..] == a[e + 1..];
      assert Lines(a[s..])[1..] == Lines(a[e + 1..]);
    } else {
      assert Lines(a[s..])[1..] == [] == Lines(a[e..]);
    }
  }

  lemma RecordsEol(a: string, names: array<nat>, nn: nat, xs: seq<Item<string>>)
    requires Records(a, names, nn, xs)
    ensures Records(a, names, nn, xs + [Eol])
  {
    KeepItem(xs, Gap(" "));
  }

  /** What the outer loop keeps: everything before offset `s` is in the hash, as its items in order. */
  ghost predicate Hashed(a: string, s: nat, names: array<nat>, nn: nat, h: bv64, done: seq<Item<string>>)
    reads names
  {
    && s <= |a| && Records(a, names, nn, done)
    && done + ItemsOf(Lines(a[s..])) == Items(a)
    && h == Fnv(FNV_OFFSET, Print(Numbered(done)))
  }

  method OneLine(a: string, s: nat, names: array<nat>, nn0: nat, h0: bv64, ghost done0: seq<Item<string>>)
      returns (s': nat, nn: nat, h: bv64, ghost done: seq<Item<string>>)
    requires s < |a| && Hashed(a, s, names, nn0, h0, done0)
    modifies names
    ensures s < s' && Hashed(a, s', names, nn, h, done)
  {
    hide Records, Fnv, Lines, ItemsOf, LineItems, Numbered, Print, Table, NoNewline, Edge, IdChar, Trim, Items, Squeeze,
         Lex, Trimmed, Ended;
    h, done := h0, done0;
    var e := FindNewline(a, s);
    s' := if e < |a| then e + 1 else e;
    ItemsFrom(a, s, e);
    var p, m := TrimLine(a, s, e);
    NoWordAfter(a, p, m, e);
    TrimIsTrimmed(a[s..e]);
    var line;
    ghost var li;
    line, nn, li := NormalizeLine(a, p, m, names, nn0, done);
    LineShows(done, a[p..p + m]);
    LineItemsAre(a[s..e], a[p..p + m]);
    AddLine(done, li, ItemsOf(Lines(a[s'..])));
    if line != "" {
      HashLine(h, done, li, line);
      h := FnvOver(h, line);
      h := FnvOver(h, "\n");
      RecordsEol(a, names, nn, done + li);
      done := done + li + [Eol];
    }
  }

  lemma AddLine(done: seq<Item<string>>, li: seq<Item<string>>, rest: seq<Item<string>>)
    ensures li != [] ==> done + (Ended(li) + rest) == done + li + [Eol] + rest
    ensures li == [] ==> done + (Ended(li) + rest) == done + rest && done + li == done
  {
    if li != [] {
      assert done + ((li + [Eol]) + rest) == done + li + [Eol] + rest;
    }
  }

  /** The hash of a text is the FNV-1a-64 hash of its normal form, as 16 lower-case hexadecimal digits. */
  method FormHashText(text: string) returns (out: string)
    ensures out == Hex(Fnv(FNV_OFFSET, NormalForm(text)) as int, 16, false)
  {
    hide Hashed, Hex, Fnv, Print, Numbered, Items, Strip;
    var a := DropComments(text);
    var names := new nat[NAMES];
    var nn, h, s: nat := 0, FNV_OFFSET, 0;
    ghost var done: seq<Item<string>> := [];
    HashStarts(a, names);
    while s < |a|
      invariant Hashed(a, s, names, nn, h, done) && s <= |a|
      decreases |a| - s
    {
      s, nn, h, done := OneLine(a, s, names, nn, h, done);
      HashedBound(a, s, names, nn, h, done);
    }
    HashEnds(a, s, names, nn, h, done);
    out := Hex(h as int, 16, false);
  }

  lemma HashedBound(a: string, s: nat, names: array<nat>, nn: nat, h: bv64, done: seq<Item<string>>)
    requires Hashed(a, s, names, nn, h, done)
    ensures s <= |a|
  {
  }

  lemma LineItemsAre(l: string, t: string)
    requires t == Trim(l)
    ensures LineItems(l) == Squeeze(false, Lex(false, t))
  {
  }

  lemma HashStarts(a: string, names: array<nat>)
    requires names.Length == NAMES
    ensures Hashed(a, 0, names, 0, FNV_OFFSET, [])
  {
    hide Lines, ItemsOf;
    assert a[0..] == a;
  }

  lemma HashEnds(a: string, s: nat, names: array<nat>, nn: nat, h: bv64, done: seq<Item<string>>)
    requires Hashed(a, s, names, nn, h, done) && s >= |a|
    ensures h == Fnv(FNV_OFFSET, Print(Numbered(Items(a))))
  {
    hide Fnv, Print, Numbered, Items, Records;
    assert a[s..] == "";
    assert Lines("") == [];
    assert done + ItemsOf([]) == done;
  }

  // ----- the digest text -----

  /** The digest always fills its 17-byte buffer, and two digests are equal exactly when the hashes are. */
  lemma DigestExact(m: nat, n: nat)
    requires m < 0x1_0000_0000_0000_0000
    ensures |Hex(m, 16, false)| == 16
    ensures Hex(m, 16, false) == Hex(n, 16, false) <==> m == n
  {
    PowSixteen();
    hide Hex, Pow16;
    HexLength(m, 16, false, 16);
    HexRoundTrip(m, 16, false);
    HexRoundTrip(n, 16, false);
  }

  lemma PowSixteen()
    ensures Pow16(16) == 0x1_0000_0000_0000_0000
  {
    assert Pow16(2) == 0x100;
    assert Pow16(4) == 0x1_0000;
    assert Pow16(6) == 0x100_0000;
    assert Pow16(8) == 0x1_0000_0000;
    assert Pow16(10) == 0x100_0000_0000;
    assert Pow16(12) == 0x1_0000_0000_0000;
    assert Pow16(14) == 0x100_0000_0000_0000;
  }
}
