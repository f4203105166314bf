/** How the bundle reader takes a line apart (analyze/count.c): its keyword, its value, the words of a row and the numbers
    in them. */
module ReaderWords {
  import opened Bits
  import opened Text
  import opened KindBlock
  import opened Bundle
  import opened ReaderMeaning

  /** What may follow a word. */
  predicate Ends(rest: string) { rest == "" || IsBlank(rest[0]) }
  predicate EndsAtSpace(rest: string) { rest == "" || rest[0] == ' ' }

  lemma {:induction false} FirstWordIs(s: string)
    ensures var w := FirstWord(s); NoBlank(w) && Ends(s[|w|..])
    decreases s
  {
    if s != [] && !IsBlank(s[0]) {
      FirstWordIs(s[1..]);
      assert s[1..][|FirstWord(s[1..])|..] == s[|FirstWord(s)|..];
    }
  }

  lemma {:induction false} DropBlanksIs(s: string) returns (n: nat)
    ensures n <= |s| && AllBlank(s[..n]) && DropBlanks(s) == s[n..] && (n < |s| ==> !IsBlank(s[n]))
    decreases s
  {
    n := 0;
    if s != [] && IsBlank(s[0]) {
      n := DropBlanksIs(s[1..]);
      assert s[1..][n..] == s[n + 1..];
      forall i | 0 <= i < n + 1
        ensures IsBlank(s[i])
      {
        assert i > 0 ==> s[i] == s[1..][..n][i - 1];
      }
      n := n + 1;
    }
  }

  /** A line starts with a keyword when its text is the keyword, alone or before a blank. */
  lemma KwIff(l: PLine, kw: string)
    ensures KwIs(l, kw) <==> exists rest :: Ends(rest) && l.token == kw + rest
  {
    if KwIs(l, kw) {
      var rest := l.token[|kw|..];
      assert Ends(rest) && l.token == kw + rest;
    }
    if rest :| Ends(rest) && l.token == kw + rest { assert l.token[..|kw|] == kw; }
  }

  lemma {:induction false} WordLengthIs(s: string)
    ensures var n := WordLength(s); ' ' !in s[..n] && EndsAtSpace(s[n..])
    decreases s
  {
    if s != [] && s[0] != ' ' {
      WordLengthIs(s[1..]);
      var n := WordLength(s[1..]);
      assert s[..n + 1] == [s[0]] + s[1..][..n] && s[n + 1..] == s[1..][n..];
    }
  }

  /** A line is a header of a kind when it starts with the kind's name, alone or before a space, and with none of the two
      other keywords. */
  lemma HeadIff(l: PLine, k: Kind)
    ensures HeadKind(l) == Some(k) <==> !Aside(l) && exists rest :: EndsAtSpace(rest) && l.token == KindName(k) + rest
  {
    var n := WordLength(l.token);
    WordLengthIs(l.token);
    KindNamed(l.token[..n], k);
    NoSpaceInName(k);
    hide KindOf, KindName, Aside;
    if l.token[..n] == KindName(k) { assert l.token == KindName(k) + l.token[n..]; }
    if rest :| EndsAtSpace(rest) && l.token == KindName(k) + rest { WordIs(KindName(k), rest); }
  }

  lemma {:induction false} WordIs(w: string, rest: string)
    requires ' ' !in w && EndsAtSpace(rest)
    ensures WordLength(w + rest) == |w| && (w + rest)[..|w|] == w && (w + rest)[|w|..] == rest
    decreases w
  {
    if w != "" {
      WordIs(w[1..], rest);
      assert (w + rest)[1..] == w[1..] + rest;
    }
  }

  lemma KindNamed(s: string, k: Kind)
    ensures KindOf(s) == Some(k) <==> s == KindName(k)
  {
    assert |"freq"| == 4 && |"cpfreq"| == 6 && |"bigram"| == 6 && "cpfreq"[0] != "bigram"[0];
  }

  lemma NoSpaceInName(k: Kind)
    ensures ' ' !in KindName(k)
  {
  }

  predicate NoBlank(s: string) { forall i :: 0 <= i < |s| ==> !IsBlank(s[i]) }

  /** A text taken apart: its first word, the blanks after it, and the rest. */
  predicate Parts(s: string, word: string, blanks: string, value: string) {
    && s == word + blanks + value && NoBlank(word) && AllBlank(blanks)
    && Ends(blanks + value) && (value != "" ==> !IsBlank(value[0]))
  }

  /** The value of a line is what stands after its first word and the blanks behind that. */
  lemma ValueMeans(l: PLine)
    requires l.indent <= |l.raw|
    ensures exists word, blanks :: Parts(l.raw[l.indent..], word, blanks, LineValue(l))
  {
    var s := l.raw[l.indent..];
    FirstWordIs(s);
    var after := s[|FirstWord(s)|..];
    var n := DropBlanksIs(after);
    assert LineValue(l) == DropBlanks(after);
    hide FirstWord, DropBlanks, LineValue, IsBlank;
    Apart(s, FirstWord(s), after, n, LineValue(l));
  }

  lemma Apart(s: string, word: string, after: string, n: nat, value: string)
    requires word <= s && after == s[|word|..] && NoBlank(word) && Ends(after)
    requires n <= |after| && AllBlank(after[..n]) && value == after[n..] && (n < |after| ==> !IsBlank(after[n]))
    ensures exists blanks :: Parts(s, word, blanks, value)
  {
    hide IsBlank, AllBlank, NoBlank;
    var blanks := after[..n];
    assert after == blanks + value && s == word + after;
    Left(word, blanks, value);
    assert Parts(s, word, blanks, value);
  }

  /** A value opens a block scalar when it is a bar, with blanks at most behind it. */
  lemma OpensIff(l: PLine)
    ensures OpensScalar(l) <==> exists tail :: AllBlank(tail) && LineValue(l) == "|" + tail
  {
    var v := LineValue(l);
    TrimEndIs(v);
    hide LineValue;
    var t := TrimEnd(v);
    if OpensScalar(l) { assert AllBlank(v[1..]) && v == "|" + v[1..]; }
    if tail :| AllBlank(tail) && v == "|" + tail { BarTrimmed(v, tail); }
  }

  lemma {:induction false} BarTrimmed(v: string, tail: string)
    requires AllBlank(tail) && v == "|" + tail
    ensures TrimEnd(v) == "|"
    decreases |v|
  {
    if tail != "" {
      var init := tail[..|tail| - 1];
      assert v[..|v| - 1] == "|" + init && IsBlank(tail[|tail| - 1]);
      BarTrimmed("|" + init, init);
    }
  }

  // ----- the words of a row -----

  /** The words of a row are read one by one: spaces, then a word up to the next space, of which 39 bytes are kept. Spaces
      alone hold none, and after the last word asked for nothing is read. */
  lemma {:induction false} TokensMean(gap: nat, word: string, rest: string, limit: nat)
    requires word != "" && ' ' !in word && EndsAtSpace(rest) && limit > 0
    ensures Tokens(Spaces(gap) + word + rest, limit) == [Prefix(word, 39)] + Tokens(rest, limit - 1)
    ensures Tokens(Spaces(gap), limit) == [] && Tokens(rest, 0) == []
    decreases gap
  {
    if gap == 0 {
      var s := word + rest;
      assert Spaces(0) == "" && "" + word + rest == s;
      WordIs(word, rest);
      assert s[0] == word[0] != ' ';
      assert |word| > 39 ==> s[..39] == word[..39];
    } else {
      TokensMean(gap - 1, word, rest, limit);
      assert (Spaces(gap) + word + rest)[1..] == Spaces(gap - 1) + word + rest;
      assert Spaces(gap)[1..] == Spaces(gap - 1);
    }
  }

  // ----- the numbers of a row -----

  /** What may follow a number's digits. */
  predicate AfterDigits(rest: string) { rest == "" || !IsDigit(rest[0]) }

  lemma {:induction false} DigitsRead(s: string, rest: string, acc: nat)
    requires AfterDigits(rest) && forall i :: 0 <= i < |s| ==> IsDigit(s[i])
    ensures DecValue(s + rest, acc) == DecValue(s, acc)
    decreases s
  {
    if s == "" {
      assert s + rest == rest;
    } else {
      assert (s + rest)[1..] == s[1..] + rest;
      DigitsRead(s[1..], rest, acc * 10 + DigitValue(s[0]));
    }
  }

  /** A count is read up to its last digit, and no larger than 2^64 - 1; a signed number is cut to 64 bits with its sign. */
  lemma NumbersMean(n: nat, rest: string)
    requires AfterDigits(rest)
    ensures ParseCount(Dec(n) + rest) == if n < U64 then n else U64 - 1
    ensures ParseSigned(Dec(n) + rest) == if n < U63 then n else U63 - 1
    ensures ParseSigned("-" + Dec(n) + rest) == -(if n <= U63 then n as int else U63)
  {
    DigitsRead(Dec(n), rest, 0);
    DecRoundTrip(n);
    hide Dec, DecValue;
    var s := Dec(n) + rest;
    assert s[0] == Dec(n)[0] != '-';
    assert "-" + Dec(n) + rest == "-" + s && ("-" + s)[1..] == s;
  }

  predicate AfterHex(rest: string) { rest == "" || !IsHex(rest[0]) }

  lemma {:induction false} HexRead(s: string, rest: string, acc: nat)
    requires AfterHex(rest) && forall i :: 0 <= i < |s| ==> IsHex(s[i])
    ensures HexValue(s + rest, acc) == HexValue(s, acc)
    decreases s
  {
    hide HexValueOf, IsHex;
    if s == "" {
      assert s + rest == rest;
    } else {
      assert (s + rest)[1..] == s[1..] + rest;
      HexRead(s[1..], rest, acc * 16 + HexValueOf(s[0]));
    }
  }

  /** A key is read as hexadecimal digits of either case. */
  lemma HexMeans(n: nat, w: nat, upper: bool, rest: string)
    requires AfterHex(rest)
    ensures ParseHexWord(Hex(n, w, upper) + rest) == if n < U64 then n else U64 - 1
  {
    HexRead(Hex(n, w, upper), rest, 0);
    HexRoundTrip(n, w, upper);
    hide Hex, HexValue;
  }
}
