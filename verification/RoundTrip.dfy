/** Reading back what the writer printed. */
module RoundTrip {
  import opened Bits
  import opened Rows
  import opened Text
  import opened KindBlock
  import opened Bundle

  // ----- the shape of a printed line -----

  /** A value that survives the line reader: no newline, no white space at its edges. */
  predicate Clean(v: string) {
    NoNewline(v) && (v != "" ==> !IsBlank(v[0]) && !IsBlank(v[|v| - 1]) && v[|v| - 1] != '\r')
  }

  predicate Word(w: string) {
    w != "" && w[0] != '#' && w[|w| - 1] != '\r' && forall i :: 0 <= i < |w| ==> !IsBlank(w[i]) && w[i] != '\n'
  }

  lemma {:induction false} LeadPad(pad: nat, x: string)
    requires x == "" || x[0] != ' '
    ensures LeadingSpaces(Spaces(pad) + x) == pad
    decreases pad
  {
    if pad == 0 {
      assert Spaces(0) + x == x;
    } else {
      assert (Spaces(pad) + x)[1..] == Spaces(pad - 1) + x;
      LeadPad(pad - 1, x);
    }
  }

  lemma TrimSame(s: string)
    requires s == "" || !IsBlank(s[|s| - 1])
    ensures TrimEnd(s) == s && TrimEnd(s + " ") == s
  {
    assert (s + " ")[..|s|] == s;
  }

  /** An indented text whose edges are not blank, with or without one space behind it. */
  lemma LineShape(pad: nat, body: string, tail: string)
    requires body != "" && !IsBlank(body[0]) && !IsBlank(body[|body| - 1])
    requires body[|body| - 1] != '\r' && body[0] != '#'
    requires tail == "" || tail == " "
    ensures ToPLine(Spaces(pad) + (body + tail)) == PLine(pad, body, Spaces(pad) + (body + tail), Content)
  {
    hide LeadingSpaces, TrimEnd;
    var raw := Spaces(pad) + (body + tail);
    LeadPad(pad, body + tail);
    assert raw[pad..] == body + tail;
    TrimSame(body);
    assert tail == "" ==> body + tail == body;
    assert raw[|raw| - 1] == (body + tail)[|body + tail| - 1];
  }

  lemma {:induction false} FirstWordOf(w: string, rest: string)
    requires forall i :: 0 <= i < |w| ==> !IsBlank(w[i])
    requires rest == "" || IsBlank(rest[0])
    ensures FirstWord(w + rest) == w
    decreases |w|
  {
    if w == "" {
      assert w + rest == rest;
    } else {
      assert (w + rest)[1..] == w[1..] + rest;
      FirstWordOf(w[1..], rest);
    }
  }

  /** A printed keyword line is a content line that carries its keyword and its value. */
  lemma KvLine(pad: nat, kw: string, v: string)
    requires Word(kw) && Clean(v)
    ensures var l := ToPLine(Kv(pad, kw, v));
      l.cls == Content && l.indent == pad && l.token == (if v == "" then kw else kw + " " + v) &&
      LineValue(l) == v && FirstWord(l.token) == kw
  {
    var raw := Kv(pad, kw, v);
    hide ToPLine;
    if v == "" {
      LineShape(pad, kw, " ");
      assert raw == Spaces(pad) + (kw + " ");
      FirstWordOf(kw, "");
      assert kw + "" == kw;
    } else {
      LineShape(pad, kw + " " + v, "");
      assert kw + " " + v + "" == kw + " " + v;
      assert raw == Spaces(pad) + (kw + " " + v);
      FirstWordOf(kw, " " + v);
      assert kw + " " + v == kw + (" " + v);
    }
    assert raw[pad..] == kw + (" " + v);
    FirstWordOf(kw, " " + v);
    assert (kw + (" " + v))[|kw|..] == " " + v;
    DropOne(v);
  }

  lemma DropOne(v: string)
    requires v == "" || !IsBlank(v[0])
    ensures DropBlanks(" " + v) == v
  {
    assert (" " + v)[1..] == v;
  }

  // ----- any value without a newline -----

  /** What the line reader makes of it: blanks before it and a carriage return at its end are dropped. */
  function LineRead(v: string): string { DropBlanks(DropCR(v)) }

  /** The reader trims the value of a plain field, keeps the blanks after a prose one, and takes a prose value that is
      a lone `|` for the opener of a block scalar: an empty one, where nothing is indented below it. */
  function ReadField(field: string, v: string): string {
    if !IsProse(field) then TrimEnd(LineRead(v)) else if TrimEnd(LineRead(v)) == "|" then "" else LineRead(v)
  }

  lemma {:induction false} TrimKeeps(w: string, s: string) returns (t: string)
    requires w != "" && !IsBlank(w[|w| - 1])
    ensures TrimEnd(w + s) == w + t && t <= s
    decreases |s|
  {
    if s == "" {
      t := "";
      assert w + s == w && w + t == w;
    } else if IsBlank(s[|s| - 1]) {
      var n := |s| - 1;
      assert (w + s)[..|w| + n] == w + s[..n];
      t := TrimKeeps(w, s[..n]);
    } else {
      t := s;
    }
  }

  /** A printed keyword line is a content line with its keyword and what is read of its value. */
  lemma KvRead(pad: nat, kw: string, v: string)
    requires Word(kw) && NoNewline(v)
    ensures var l := ToPLine(Kv(pad, kw, v));
      l.cls == Content && l.indent == pad && FirstWord(l.token) == kw && LineValue(l) == LineRead(v)
  {
    hide LeadingSpaces, TrimEnd, FirstWord, DropBlanks;
    var x := DropCR(v);
    var s, raw := " " + x, DropCR(Kv(pad, kw, v));
    assert raw == Spaces(pad) + (kw + s) by {
      assert Kv(pad, kw, v) == Spaces(pad) + kw + (" " + v);
      assert v != "" ==> Kv(pad, kw, v)[|Kv(pad, kw, v)| - 1] == v[|v| - 1];
    }
    LeadPad(pad, kw + s);
    assert raw[pad..] == kw + s && (kw + s)[|kw|..] == s;
    var t := TrimKeeps(kw, s);
    FirstWordOf(kw, t);
    FirstWordOf(kw, s);
    DropSpace(x);
  }

  lemma DropSpace(x: string)
    ensures DropBlanks(" " + x) == DropBlanks(x)
  {
    assert (" " + x)[1..] == x;
  }

  /** A clean value is read as it is, in either kind of field. */
  lemma CleanRead(field: string, v: string)
    requires Clean(v) && v != "|"
    ensures ReadField(field, v) == v
  {
    hide NoNewline, IsProse;
    if v != "" { assert !IsBlank(v[|v| - 1]); }
  }

  /** A prose value that survives: no newline, no blank before it, no carriage return after it, and not read as `|`. */
  predicate ProseOk(v: string) {
    NoNewline(v) && (v != "" ==> !IsBlank(v[0]) && v[|v| - 1] != '\r') && TrimEnd(v) != "|"
  }

  lemma {:induction false} DropShrinks(s: string)
    ensures |DropBlanks(s)| <= |s|
    ensures DropBlanks(s) == s <==> s == "" || !IsBlank(s[0])
    ensures DropBlanks(s) != "" ==> !IsBlank(DropBlanks(s)[0])
    decreases |s|
  {
    if s != "" { DropShrinks(s[1..]); }
  }

  lemma {:induction false} TrimShrinks(s: string)
    ensures TrimEnd(s) == s <==> s == "" || !IsBlank(s[|s| - 1])
    decreases |s|
  {
  }

  /** Which values without a newline are read back as they are. */
  lemma ReadFieldIff(field: string, v: string)
    requires NoNewline(v)
    ensures ReadField(field, v) == v <==> if IsProse(field) then ProseOk(v) else Clean(v)
  {
    hide NoNewline, IsProse, DropBlanks, TrimEnd;
    DropShrinks(DropCR(v));
    TrimShrinks(LineRead(v));
    EmptyTrim();
    if v != "" && v[|v| - 1] == '\r' {
      assert |LineRead(v)| < |v|;
    } else {
      assert DropCR(v) == v;
    }
  }

  lemma EmptyTrim()
    ensures TrimEnd("") == ""
  {
  }

  // ----- parsing line by line -----

  function ParseText(lines: seq<string>, st: PState): Result<PState> { ParseLines(ToPLines(lines), st) }

  /** Nothing that a block scalar would take from the lines of a provenance. */
  ghost predicate Ends(rest: seq<string>) {
    rest == [] || (ToPLine(rest[0]).cls == Content && ToPLine(rest[0]).indent <= 12)
  }

  function Prose(l: PLine): string { if OpensScalar(l) then "" else LineValue(l) }

  /** A content line is consumed alone, unless it opens a block scalar that takes a line below it. */
  lemma ParseOne(line: string, rest: seq<string>, st: PState)
    requires ToPLine(line).cls == Content
    requires TakesProse(st, ToPLine(line)) && OpensScalar(ToPLine(line)) ==> ToPLine(line).indent >= 12 && Ends(rest)
    ensures var l := ToPLine(line);
      var r := ContentStep(st, l, if TakesProse(st, l) then Prose(l) else "");
      ParseText([line] + rest, st) == if r.Err? then r else ParseText(rest, r.value)
  {
    hide ToPLine, ContentStep, TakesProse, LineValue, OpensScalar;
    assert ([line] + rest)[1..] == rest;
    var ls := ToPLines([line] + rest);
    assert ls == [ToPLine(line)] + ToPLines(rest);
    assert ls[1..] == ToPLines(rest);
    if TakesProse(st, ls[0]) && OpensScalar(ls[0]) {
      assert rest != [] ==> ToPLines(rest)[0] == ToPLine(rest[0]);
    }
  }

  /** The state while kind `k` of `doc` is being read and holds `d`. */
  function At(doc: Doc, k: Kind, d: Data, inProv: bool): PState {
    PState(doc.(blocks := doc.blocks[k := d]), Some(k), inProv)
  }

  lemma AtData(doc: Doc, k: Kind, d: Data, inProv: bool, d': Data, inProv': bool)
    ensures CurData(At(doc, k, d, inProv)) == d
    ensures SetData(At(doc, k, d, inProv).(inProv := inProv'), d') == At(doc, k, d', inProv')
  {
    assert doc.blocks[k := d][k := d'] == doc.blocks[k := d'];
  }

  lemma HeaderLine(doc: Doc, k: Kind, rest: seq<string>, st: PState)
    requires st.doc == doc && k !in doc.blocks
    ensures ParseText([Spaces(4) + KindName(k)] + rest, st) == ParseText(rest, At(doc, k, NO_DATA, false))
  {
    hide ToPLine;
    var name := KindName(k);
    LineShape(4, name, "");
    assert name + "" == name;
    var l := ToPLine(Spaces(4) + name);
    NoSpaceWord(name);
    assert name[..|name|] == name;
    assert !KwIs(l, "include") && !KwIs(l, "description");
    ParseOne(Spaces(4) + name, rest, st);
  }

  lemma {:induction false} NoSpaceWord(w: string)
    requires forall i :: 0 <= i < |w| ==> w[i] != ' '
    ensures WordLength(w) == |w|
    decreases |w|
  {
    if w != "" { NoSpaceWord(w[1..]); }
  }

  /** A declaration the document model does not keep. */
  lemma IgnoredLine(kw: string, v: string, doc: Doc, k: Kind, d: Data, rest: seq<string>)
    requires kw in {"question", "reader", "analyzer", "serves"} && Clean(v)
    ensures ParseText([Kv(8, kw, v)] + rest, At(doc, k, d, false)) == ParseText(rest, At(doc, k, d, false))
  {
    IgnoredWord(kw);
    hide ToPLine, Kv, Clean, ContentStep, LineValue, Word, Ends, TakesProse;
    KvLine(8, kw, v);
    var l := ToPLine(Kv(8, kw, v));
    assert l.token[0] == kw[0] && l.token[1] == kw[1];
    IgnoredStep(l, doc, k, d);
    ParseOne(Kv(8, kw, v), rest, At(doc, k, d, false));
  }

  lemma IgnoredWord(kw: string)
    requires kw in {"question", "reader", "analyzer", "serves"}
    ensures Word(kw) && |kw| >= 2 && kw[0] in "qras" && kw[1] != 'o'
  {
  }

  lemma IgnoredStep(l: PLine, doc: Doc, k: Kind, d: Data)
    requires l.indent == 8 && |l.token| >= 2 && l.token[0] in "qras" && l.token[1] != 'o'
    ensures var st := At(doc, k, d, false); !TakesProse(st, l) && ContentStep(st, l, "") == Ok(st)
  {
    hide CurData, SetData;
    if |l.token| >= 9 { assert l.token[..9][0] == l.token[0]; }
    if |l.token| >= 4 { assert l.token[..4][1] == l.token[1]; }
  }

  lemma EncodingLine(v: string, doc: Doc, k: Kind, d: Data, rest: seq<string>)
    requires Clean(v) && |v| <= 7 && d.encoding == ""
    ensures ParseText([Kv(8, "encoding", v)] + rest, At(doc, k, d, false)) ==
      ParseText(rest, At(doc, k, d.(encoding := v), false))
  {
    hide ToPLine, Kv, Clean, ContentStep, LineValue;
    KvLine(8, "encoding", v);
    EncodingStep(ToPLine(Kv(8, "encoding", v)), v, doc, k, d);
    ParseOne(Kv(8, "encoding", v), rest, At(doc, k, d, false));
  }

  lemma EncodingStep(l: PLine, v: string, doc: Doc, k: Kind, d: Data)
    requires l.indent == 8 && l.token == (if v == "" then "encoding" else "encoding" + " " + v)
    requires |v| <= 7 && d.encoding == ""
    ensures var st := At(doc, k, d, false);
      !TakesProse(st, l) && ContentStep(st, l, "") == Ok(At(doc, k, d.(encoding := v), false))
  {
    AtData(doc, k, d, false, d.(encoding := v), false);
    hide CurData, SetData;
    if v == "" {
      assert !StartsWith(l.token, "encoding ") && l.token[0] != 'r' && l.token[0] != 'p';
      assert d.(encoding := v) == d;
    } else {
      assert l.token[..9] == "encoding " && l.token[9..] == v;
      assert l.token[0] != 'p';
    }
  }

  lemma ProvenanceLine(doc: Doc, k: Kind, d: Data, rest: seq<string>)
    ensures ParseText([Spaces(8) + "provenance"] + rest, At(doc, k, d, false)) == ParseText(rest, At(doc, k, d, true))
  {
    hide ToPLine;
    LineShape(8, "provenance", "");
    assert "provenance" + "" == "provenance";
    ParseOne(Spaces(8) + "provenance", rest, At(doc, k, d, false));
  }

  // ----- rows -----

  /** The keys the writer can print for a kind. */
  predicate KeyOk(k: Kind, key: nat) {
    match k case Freq => key < 256 case Bigram => key < 65536 case Cpfreq => key < 0x1_0000_0000
  }

  function Pow10(d: nat): nat { if d == 0 then 1 else 10 * Pow10(d - 1) }

  lemma {:induction false} DecLength(n: nat, d: nat)
    requires n < Pow10(d) && d >= 1
    ensures |Dec(n)| <= d
    decreases n
  {
    if n >= 10 {
      assert d >= 2;
      DecLength(n / 10, d - 1);
    }
  }

  lemma Powers()
    ensures Pow10(20) > U64 && Pow16(8) == 0x1_0000_0000
  {
    assert Pow10(5) == 100000;
    assert Pow10(10) == 10000000000;
    assert Pow10(15) == 1000000000000000;
    assert Pow16(4) == 65536;
  }

  predicate ShortWord(w: string) { 1 <= |w| <= 39 && forall i :: 0 <= i < |w| ==> w[i] != ' ' }

  lemma {:induction false} WordLengthOf(w: string, rest: string)
    requires (forall i :: 0 <= i < |w| ==> w[i] != ' ') && (rest == "" || rest[0] == ' ')
    ensures WordLength(w + rest) == |w|
    decreases |w|
  {
    if w == "" {
      assert w + rest == rest;
    } else {
      assert (w + rest)[1..] == w[1..] + rest;
      WordLengthOf(w[1..], rest);
    }
  }

  lemma TokenThen(w: string, rest: string, limit: nat)
    requires ShortWord(w) && limit >= 1 && (rest == "" || rest[0] != ' ')
    ensures Tokens(w + " " + rest, limit) == [w] + Tokens(rest, limit - 1)
  {
    var s := w + " " + rest;
    assert s == w + (" " + rest);
    WordLengthOf(w, " " + rest);
    assert s[..|w|] == w && s[|w|..] == " " + rest && (" " + rest)[1..] == rest;
  }

  lemma TokenLast(w: string, limit: nat)
    requires ShortWord(w) && limit >= 1
    ensures Tokens(w, limit) == [w]
  {
    WordLengthOf(w, "");
    assert w + "" == w && w[..|w|] == w && w[|w|..] == "";
  }

  lemma DecShort(n: u64)
    ensures ShortWord(Dec(n)) && ParseCount(Dec(n)) == n
  {
    Powers();
    DecLength(n, 20);
    DecRoundTrip(n);
  }

  lemma HexShort(n: nat, w: nat, upper: bool)
    requires n < 0x1_0000_0000 && 1 <= w <= 8
    ensures ShortWord(Hex(n, w, upper)) && |Hex(n, w, upper)| <= 8 && ParseHexWord(Hex(n, w, upper)) == n
  {
    Powers();
    HexLength(n, w, upper, 8);
    HexRoundTrip(n, w, upper);
  }

  /** The reader adds exactly the row the writer printed. */
  lemma RowRoundTrip(k: Kind, r: Row, rows: Rows)
    requires KeyOk(k, r.key)
    ensures ParseRow(k, rows, KeyText(k, r.key) + " " + Dec(r.count)) == Add(rows, r.key, r.count)
  {
    hide Hex, Dec, Tokens, ParseCount, ParseHexWord, Add, ShortWord;
    var c := Dec(r.count);
    DecShort(r.count);
    match k {
      case Freq =>
        HexShort(r.key, 2, false);
        TwoTokens(Hex(r.key, 2, false), c);
      case Bigram =>
        var a, b := Hex(r.key / 256, 2, false), Hex(r.key % 256, 2, false);
        HexShort(r.key / 256, 2, false);
        HexShort(r.key % 256, 2, false);
        ThreeTokens(a, b, c);
        assert r.key / 256 * 256 + r.key % 256 == r.key;
      case Cpfreq =>
        var w := if r.key <= 0xFFFF then 4 else if r.key <= 0xFFFFF then 5 else 6;
        var h := Hex(r.key, w, true);
        HexShort(r.key, w, true);
        PrefixedShort(h);
        TwoTokens("U+" + h, c);
        assert ("U+" + h)[2..] == h && ("U+" + h)[..2] == "U+";
    }
  }

  lemma PrefixedShort(h: string)
    requires ShortWord(h) && |h| <= 8
    ensures ShortWord("U+" + h)
  {
  }

  lemma TwoTokens(a: string, c: string)
    requires ShortWord(a) && ShortWord(c)
    ensures Tokens(a + " " + c, 4) == [a, c]
  {
    hide Tokens;
    TokenThen(a, c, 4);
    TokenLast(c, 3);
  }

  lemma ThreeTokens(a: string, b: string, c: string)
    requires ShortWord(a) && ShortWord(b) && ShortWord(c)
    ensures Tokens(a + " " + b + " " + c, 4) == [a, b, c]
  {
    hide Tokens;
    assert a + " " + b + " " + c == a + " " + (b + " " + c);
    TokenThen(a, b + " " + c, 4);
    TokenThen(b, c, 3);
    TokenLast(c, 2);
  }

  /** The rows added one after the other. */
  function AddRows(rows: Rows, list: seq<Row>): Rows
    decreases |list|
  {
    if list == [] then rows else AddRows(Add(rows, list[0].key, list[0].count), list[1..])
  }

  lemma {:induction false} AddRowsGet(rows: Rows, list: seq<Row>, m: Rows, j: nat)
    requires Lists(list, m)
    ensures Get(AddRows(rows, list), j) == Plus(Get(rows, j), Get(m, j))
    decreases |list|
  {
    hide Lists, Add;
    NoRows(list, m);
    if list == [] {
      assert Get(m, j) == 0;
    } else {
      DropFirst(list, m);
      AddRowsGet(Add(rows, list[0].key, list[0].count), list[1..], m - {list[0].key}, j);
      AddGet(rows, list[0].key, list[0].count, j);
    }
  }

  lemma DropFirst(list: seq<Row>, m: Rows)
    requires Lists(list, m) && list != []
    ensures list[0].key in m && m[list[0].key] == list[0].count
    ensures Lists(list[1..], m - {list[0].key})
  {
    assert list[0] in list;
    forall k | k in m && k != list[0].key
      ensures Row(k, m[k]) in list[1..]
    {
      assert Row(k, m[k]) in list;
    }
  }

  /** Adding a listing to nothing gives the listed rows back. */
  lemma AddListing(m: Rows)
    ensures AddRows(map[], Listing(m)) == m
  {
    hide AddRows, Listing;
    forall j: nat
      ensures Get(AddRows(map[], Listing(m)), j) == Get(m, j)
    {
      AddRowsGet(map[], Listing(m), m, j);
    }
    Extensional(AddRows(map[], Listing(m)), m);
  }

  lemma RowStep(l: PLine, body: string, doc: Doc, k: Kind, d: Data)
    requires l.indent == 8 && l.token == "row" + " " + body
    ensures var st := At(doc, k, d, false);
      !TakesProse(st, l) &&
      ContentStep(st, l, "") == Ok(At(doc, k, d.(rows := ParseRow(k, d.rows, body)), false))
  {
    AtData(doc, k, d, false, d.(rows := ParseRow(k, d.rows, body)), false);
    hide CurData, SetData, ParseRow;
    assert l.token[..4] == "row " && l.token[4..] == body;
    assert l.token[0] == 'r';
  }

  lemma RowParsed(r: Row, doc: Doc, k: Kind, d: Data, rest: seq<string>)
    requires KeyOk(k, r.key)
    ensures ParseText([RowLine(k, r)] + rest, At(doc, k, d, false)) ==
      ParseText(rest, At(doc, k, d.(rows := Add(d.rows, r.key, r.count)), false))
  {
    hide ToPLine, Kv, ContentStep, LineValue, Clean, ParseRow, Add, KeyText;
    var body := KeyText(k, r.key) + " " + Dec(r.count);
    RowClean(k, r);
    KvLine(8, "row", body);
    RowStep(ToPLine(Kv(8, "row", body)), body, doc, k, d);
    RowRoundTrip(k, r, d.rows);
    ParseOne(RowLine(k, r), rest, At(doc, k, d, false));
  }

  lemma RowClean(k: Kind, r: Row)
    ensures Clean(KeyText(k, r.key) + " " + Dec(r.count))
  {
    var t, c := KeyText(k, r.key), Dec(r.count);
    assert forall i :: 0 <= i < |t| ==> t[i] != '\n';
    assert t[0] != ' ';
    assert (t + " " + c)[|t + " " + c| - 1] == c[|c| - 1];
  }

  lemma {:induction false} RowsParsed(list: seq<Row>, doc: Doc, k: Kind, d: Data, rest: seq<string>)
    requires forall r :: r in list ==> KeyOk(k, r.key)
    ensures ParseText(RowLines(k, list) + rest, At(doc, k, d, false)) ==
      ParseText(rest, At(doc, k, d.(rows := AddRows(d.rows, list)), false))
    decreases |list|
  {
    hide ParseText, RowLine, Add, At, KeyOk;
    if list == [] {
      assert RowLines(k, list) + rest == rest;
    } else {
      assert list[0] in list;
      var tail := RowLines(k, list[1..]) + rest;
      assert RowLines(k, list) + rest == [RowLine(k, list[0])] + tail;
      RowParsed(list[0], doc, k, d, tail);
      RowsParsed(list[1..], doc, k, d.(rows := Add(d.rows, list[0].key, list[0].count)), rest);
    }
  }

  // ----- provenance -----

  function SetAll(p: Prov, fields: seq<(string, Option<string>)>): Prov
    decreases |fields|
  {
    if fields == [] then p
    else SetAll(if fields[0].1.Some? then SetField(p, fields[0].0, ReadField(fields[0].0, fields[0].1.value)) else p, fields[1..])
  }

  /** A field that is printed on one line. */
  predicate FieldOk(f: (string, Option<string>)) {
    Word(f.0) && |f.0| <= 31 && (f.1.Some? ==> NoNewline(f.1.value))
  }

  lemma FieldParsed(f: (string, Option<string>), doc: Doc, k: Kind, d: Data, rest: seq<string>)
    requires FieldOk(f) && f.1.Some? && (IsProse(f.0) ==> Ends(rest))
    ensures ParseText([Kv(12, f.0, f.1.value)] + rest, At(doc, k, d, true)) ==
      ParseText(rest, At(doc, k, d.(prov := SetField(d.prov, f.0, ReadField(f.0, f.1.value))), true))
  {
    hide ToPLine, Kv, ContentStep, LineValue, NoNewline, Word, SetField, Ends;
    var v := f.1.value;
    KvRead(12, f.0, v);
    FieldStep(ToPLine(Kv(12, f.0, v)), f.0, v, doc, k, d);
    ParseOne(Kv(12, f.0, v), rest, At(doc, k, d, true));
  }

  lemma FieldStep(l: PLine, field: string, v: string, doc: Doc, k: Kind, d: Data)
    requires l.indent == 12 && FirstWord(l.token) == field && |field| <= 31 && LineValue(l) == LineRead(v)
    ensures var st := At(doc, k, d, true);
      (TakesProse(st, l) <==> IsProse(field)) &&
      ContentStep(st, l, if TakesProse(st, l) then Prose(l) else "") ==
        Ok(At(doc, k, d.(prov := SetField(d.prov, field, ReadField(field, v))), true))
  {
    AtData(doc, k, d, true, d.(prov := SetField(d.prov, field, ReadField(field, v))), true);
    hide CurData, SetData, SetField, LineValue, TrimEnd, FirstWord, IsProse, LineRead;
  }

  /** Fields of which at most the last is prose. */
  ghost predicate ProseLast(fields: seq<(string, Option<string>)>) {
    forall i :: 0 <= i < |fields| - 1 ==> !IsProse(fields[i].0)
  }

  lemma {:induction false} FieldsParsed(fields: seq<(string, Option<string>)>, doc: Doc, k: Kind, d: Data,
                                        rest: seq<string>)
    requires (forall f :: f in fields ==> FieldOk(f)) && ProseLast(fields) && Ends(rest)
    ensures ParseText(FieldLines(fields) + rest, At(doc, k, d, true)) ==
      ParseText(rest, At(doc, k, d.(prov := SetAll(d.prov, fields)), true))
    decreases |fields|
  {
    hide ParseText, SetField, At, FieldOk, Kv, IsProse, Ends, ReadField, ProseLast, FieldLines;
    NoFieldLines(rest);
    if fields != [] {
      var f, tail := fields[0], FieldLines(fields[1..]) + rest;
      assert f in fields;
      var p := if f.1.Some? then SetField(d.prov, f.0, ReadField(f.0, f.1.value)) else d.prov;
      ProseIsLast(fields);
      FieldsFirst(fields, rest);
      FieldsParsed(fields[1..], doc, k, d.(prov := p), rest);
      if f.1.Some? { FieldParsed(f, doc, k, d, tail); }
    }
  }

  lemma NoFieldLines(rest: seq<string>)
    ensures FieldLines([]) + rest == rest
  {
  }

  lemma ProseIsLast(fields: seq<(string, Option<string>)>)
    requires ProseLast(fields) && fields != []
    ensures ProseLast(fields[1..]) && (IsProse(fields[0].0) ==> fields[1..] == [])
  {
  }

  lemma FieldsFirst(fields: seq<(string, Option<string>)>, rest: seq<string>)
    requires fields != []
    ensures var f, tail := fields[0], FieldLines(fields[1..]) + rest;
      FieldLines(fields) + rest == if f.1.Some? then [Kv(12, f.0, f.1.value)] + tail else tail
  {
    hide Kv;
  }

  predicate OptLine(v: Option<string>) { v.Some? ==> NoNewline(v.value) }

  predicate OptClean(v: Option<string>) { v.Some? ==> Clean(v.value) }

  /** A provenance that is printed one line a field. */
  predicate ProvLine(p: Prov) {
    && OptLine(p.source) && OptLine(p.retrieved) && OptLine(p.sha256) && OptLine(p.url) && OptLine(p.ref)
    && OptLine(p.license) && OptLine(p.fidelity) && OptLine(p.adaptation)
    && (p.bytes.Some? ==> -LL_MAX - 1 <= p.bytes.value <= LL_MAX)
    && p.licenseNote.None? && p.attribution.None?
  }

  /** What the writer can print and get back. */
  predicate ProvOk(p: Prov) {
    && OptClean(p.source) && OptClean(p.retrieved)
    && (p.bytes.Some? ==> -LL_MAX - 1 <= p.bytes.value <= LL_MAX)
    && OptClean(p.sha256) && (p.sha256.Some? ==> |p.sha256.value| <= 64)
    && OptClean(p.url) && OptClean(p.ref) && OptClean(p.license) && OptClean(p.fidelity)
    && (p.adaptation.Some? ==> ProseOk(p.adaptation.value))
    && p.licenseNote.None? && p.attribution.None?
  }

  lemma OkIsLine(p: Prov)
    requires ProvOk(p)
    ensures ProvLine(p)
  {
  }

  function ReadOpt(field: string, v: Option<string>): Option<string> {
    if v.Some? then Some(ReadField(field, v.value)) else None
  }

  /** What the reader makes of a printed provenance. */
  function ReadProv(p: Prov): Prov {
    Prov(Some(ReadField("source", SourceText(p))), ReadOpt("retrieved", p.retrieved), p.bytes,
         if p.sha256.Some? then Some(Prefix(ReadField("sha256", p.sha256.value), 64)) else None,
         ReadOpt("url", p.url), ReadOpt("ref", p.ref), ReadOpt("license", p.license), ReadOpt("fidelity", p.fidelity),
         ReadOpt("adaptation", p.adaptation), None, None)
  }

  /** An absent or empty source is printed as the default one. */
  function Printed(p: Prov): Prov { p.(source := Some(SourceText(p))) }

  lemma SignedRoundTrip(n: int)
    requires -LL_MAX - 1 <= n <= LL_MAX
    ensures ParseSigned(Signed(n)) == n && Clean(Signed(n))
  {
    if n < 0 {
      DecRoundTrip(-n);
      assert Signed(n)[1..] == Dec(-n);
    } else {
      DecRoundTrip(n);
      assert IsDigit(Dec(n)[0]);
    }
  }

  lemma FieldsOk(p: Prov)
    requires ProvLine(p)
    ensures (forall f :: f in Fields(p) ==> FieldOk(f)) && ProseLast(Fields(p))
  {
    FieldNames(p);
    FieldValues(p);
    hide Signed, Word, IsProse, SourceText, NoNewline;
    var fs := Fields(p);
    forall f | f in fs
      ensures FieldOk(f)
    {
      var i :| 0 <= i < 9 && fs[i] == f;
    }
  }

  lemma FieldValues(p: Prov)
    requires ProvLine(p)
    ensures forall i :: 0 <= i < 9 && Fields(p)[i].1.Some? ==> NoNewline(Fields(p)[i].1.value)
  {
    if p.bytes.Some? { SignedRoundTrip(p.bytes.value); }
    SourceLine(p);
    hide Signed, NoNewline, SourceText;
  }

  lemma SourceLine(p: Prov)
    requires ProvLine(p)
    ensures NoNewline(SourceText(p))
  {
  }

  lemma FieldNames(p: Prov)
    ensures forall i :: 0 <= i < 9 ==> Word(Fields(p)[i].0) && |Fields(p)[i].0| <= 31
    ensures forall i :: 0 <= i < 8 ==> !IsProse(Fields(p)[i].0)
  {
    hide SourceText, Signed;
    var fs := Fields(p);
    assert fs[1].0[0] == 'r' && fs[2].0[0] == 'b' && fs[3].0[0] == 's' && fs[4].0[0] == 'u';
    assert fs[6].0 == "license" && |fs[6].0| == 7;
  }

  /** Setting the printed fields one by one gives what the reader makes of the provenance. */
  lemma FieldsBack(p: Prov)
    requires ProvLine(p)
    ensures SetAll(NO_PROV, Fields(p)) == ReadProv(p)
  {
    hide SetOpt, ReadField, SourceText, Signed, ProvLine, SetAll, ReadOpt;
    var fs := Fields(p);
    var q := ReadProv(p);
    var p3 := NO_PROV.(source := q.source, retrieved := q.retrieved, bytes := p.bytes);
    var p6 := p3.(sha256 := q.sha256, url := q.url, ref := q.ref);
    FirstThree(p);
    NextThree(p, p3);
    LastThree(p, p6);
    SetThree(NO_PROV, fs, p3);
    SetThree(p3, fs[3..], p6);
    SetThree(p6, fs[6..], q);
    assert fs[9..] == [];
    SetNone(q);
  }

  lemma SetNone(q: Prov)
    ensures SetAll(q, []) == q
  {
  }

  lemma FirstThree(p: Prov)
    requires ProvLine(p)
    ensures var fs, q := Fields(p), ReadProv(p);
      SetOpt(SetOpt(SetOpt(NO_PROV, fs[0]), fs[1]), fs[2]) ==
      NO_PROV.(source := q.source, retrieved := q.retrieved, bytes := p.bytes)
  {
    FirstTwo(p);
    hide SetOpt, ReadProv, ProvLine, SourceText, Signed;
    BytesSet(p, NO_PROV.(source := ReadProv(p).source, retrieved := ReadProv(p).retrieved));
  }

  lemma FirstTwo(p: Prov)
    ensures var fs, q := Fields(p), ReadProv(p);
      SetOpt(SetOpt(NO_PROV, fs[0]), fs[1]) == NO_PROV.(source := q.source, retrieved := q.retrieved)
  {
    hide Signed, SourceText, ReadField;
  }

  lemma BytesSet(p: Prov, r: Prov)
    requires ProvLine(p) && r.bytes.None?
    ensures SetOpt(r, Fields(p)[2]) == r.(bytes := p.bytes)
  {
    ThirdField(p);
    if p.bytes.Some? {
      SignedRoundTrip(p.bytes.value);
      SignedRead(p.bytes.value);
      SetBytes(r, Signed(p.bytes.value));
    }
    hide Signed, ParseSigned, SourceText, ReadField, NoNewline, SetField, Clean, Fields;
  }

  lemma ThirdField(p: Prov)
    ensures Fields(p)[2] == ("bytes", if p.bytes.Some? then Some(Signed(p.bytes.value)) else None)
  {
    hide Signed, SourceText;
  }

  lemma SetBytes(r: Prov, v: string)
    ensures SetField(r, "bytes", v) == r.(bytes := Some(ParseSigned(v)))
  {
    hide ParseSigned;
  }

  lemma NextThree(p: Prov, r: Prov)
    requires r.sha256.None? && r.url.None? && r.ref.None?
    ensures var fs, q := Fields(p), ReadProv(p);
      SetOpt(SetOpt(SetOpt(r, fs[3]), fs[4]), fs[5]) == r.(sha256 := q.sha256, url := q.url, ref := q.ref)
  {
    hide Signed, ParseSigned, SourceText, ReadField;
  }

  lemma LastThree(p: Prov, r: Prov)
    requires r.license.None? && r.fidelity.None? && r.adaptation.None?
    ensures var fs, q := Fields(p), ReadProv(p);
      SetOpt(SetOpt(SetOpt(r, fs[6]), fs[7]), fs[8]) ==
      r.(license := q.license, fidelity := q.fidelity, adaptation := q.adaptation)
  {
    hide Signed, ParseSigned, SourceText, ReadField;
  }

  lemma SignedRead(n: int)
    ensures ReadField("bytes", Signed(n)) == Signed(n)
  {
    assert Clean(Signed(n)) && Signed(n) != "|" by { assert IsDigit(Dec(if n < 0 then -n else n)[0]); }
    hide Signed, Clean, ReadField;
    CleanRead("bytes", Signed(n));
  }

  /** A provenance printed one line a field is read back as it was, the source filled in, exactly when its plain values
      are clean, its digest is no longer than 64 characters and its adaptation survives as prose. */
  lemma ProvBackIff(p: Prov)
    requires ProvLine(p)
    ensures ReadProv(p) == Printed(p) <==> ProvOk(p)
  {
    SourceLine(p);
    SourceCleanIff(p);
    PlainFields();
    hide ReadField, Clean, NoNewline, ProseOk, IsProse, SourceText, OptLine;
    ReadFieldIff("source", SourceText(p));
    ReadOptIff("retrieved", p.retrieved);
    ReadOptIff("url", p.url);
    ReadOptIff("ref", p.ref);
    ReadOptIff("license", p.license);
    ReadOptIff("fidelity", p.fidelity);
    ReadOptIff("adaptation", p.adaptation);
    DigestIff(p.sha256);
  }

  lemma PlainFields()
    ensures !IsProse("source") && !IsProse("retrieved") && !IsProse("sha256") && !IsProse("url") && !IsProse("ref")
    ensures !IsProse("license") && !IsProse("fidelity") && IsProse("adaptation")
  {
    assert "license" != "license-note" by { assert |"license"| == 7 && |"license-note"| == 12; }
  }

  lemma SourceCleanIff(p: Prov)
    ensures Clean(SourceText(p)) <==> OptClean(p.source)
  {
  }

  lemma ReadOptIff(field: string, v: Option<string>)
    requires OptLine(v)
    ensures ReadOpt(field, v) == v <==> v.Some? ==> if IsProse(field) then ProseOk(v.value) else Clean(v.value)
  {
    hide ReadField, IsProse, ProseOk, Clean, NoNewline;
    if v.Some? { ReadFieldIff(field, v.value); }
  }

  lemma DigestIff(v: Option<string>)
    requires OptLine(v)
    ensures (if v.Some? then Some(Prefix(ReadField("sha256", v.value), 64)) else None) == v <==>
            v.Some? ==> Clean(v.value) && |v.value| <= 64
  {
    PlainFields();
    if v.Some? {
      ReadFieldIff("sha256", v.value);
      ReadShrinks("sha256", v.value);
    }
    hide ReadField, IsProse, Clean, NoNewline;
  }

  lemma ReadShrinks(field: string, v: string)
    ensures |ReadField(field, v)| <= |v|
  {
    hide IsProse, DropBlanks;
    DropShrinks(DropCR(v));
  }

  function SetOpt(p: Prov, f: (string, Option<string>)): Prov {
    if f.1.Some? then SetField(p, f.0, ReadField(f.0, f.1.value)) else p
  }

  lemma SetThree(p: Prov, fs: seq<(string, Option<string>)>, q: Prov)
    requires |fs| >= 3 && SetOpt(SetOpt(SetOpt(p, fs[0]), fs[1]), fs[2]) == q
    ensures SetAll(p, fs) == SetAll(q, fs[3..])
  {
    hide SetField, ReadField;
    assert fs[1..][1..] == fs[2..] && fs[2..][1..] == fs[3..];
    assert SetAll(p, fs) == SetAll(SetOpt(p, fs[0]), fs[1..]);
    assert SetAll(SetOpt(p, fs[0]), fs[1..]) == SetAll(SetOpt(SetOpt(p, fs[0]), fs[1]), fs[2..]);
  }

  // ----- whole blocks and bundles -----

  ghost predicate DataOk(k: Kind, d: Data) { DataLine(k, d) && ProvOk(d.prov) }

  /** A kind block that is printed one line an entry. */
  ghost predicate DataLine(k: Kind, d: Data) {
    (forall key :: key in d.rows ==> KeyOk(k, key)) && Clean(d.encoding) && |d.encoding| <= 7 && ProvLine(d.prov)
  }

  /** A kind block with what the writer prints: the source line is never absent. */
  function Back(d: Data): Data { d.(prov := Printed(d.prov)) }

  /** A kind block as the reader holds it. */
  function ReadData(d: Data): Data { d.(prov := ReadProv(d.prov)) }

  predicate CsvOk(csv: string) { csv != "" && Clean(csv) }

  lemma DeclarationsClean(k: Kind, encoding: string, hasCpfreq: bool, csv: string)
    requires CsvOk(csv)
    ensures var (when, via) := DeriveServes(k, encoding, hasCpfreq);
      Clean(Question(k)) && Clean(Query(k) + READER_NOTE) &&
      Clean("pcrec-analyze 0.1 --scan " + csv) && Clean(Query(k) + " when " + when + " via " + via)
  {
    var (when, via) := DeriveServes(k, encoding, hasCpfreq);
    hide Clean, DeriveServes, Unit, Query, CsvOk;
    UnitClean(k);
    Joined("How often does each ", Unit(k), " occur in this exemplar?");
    QueryClean(k);
    Joined(Query(k), "", READER_NOTE);
    assert Query(k) + "" + READER_NOTE == Query(k) + READER_NOTE;
    CsvEdges(csv);
    Joined("pcrec-analyze 0.1 --scan ", "", csv);
    assert "pcrec-analyze 0.1 --scan " + "" + csv == "pcrec-analyze 0.1 --scan " + csv;
    ServesClean(k, encoding, hasCpfreq);
    Joined(Query(k), " when " + when + " via ", via);
    assert Query(k) + (" when " + when + " via ") + via == Query(k) + " when " + when + " via " + via;
  }

  /** A text that starts and ends with visible characters. */
  lemma Joined(a: string, mid: string, b: string)
    requires a != "" && b != "" && NoNewline(a) && NoNewline(mid) && NoNewline(b)
    requires !IsBlank(a[0]) && !IsBlank(b[|b| - 1]) && b[|b| - 1] != '\r'
    ensures Clean(a + mid + b)
  {
  }

  lemma UnitClean(k: Kind)
    ensures NoNewline(Unit(k))
  {
  }

  lemma QueryClean(k: Kind)
    ensures Query(k) != "" && NoNewline(Query(k)) && !IsBlank(Query(k)[0])
  {
  }

  lemma CsvEdges(csv: string)
    requires CsvOk(csv)
    ensures csv != "" && NoNewline(csv) && !IsBlank(csv[|csv| - 1]) && csv[|csv| - 1] != '\r'
  {
  }

  lemma ServesClean(k: Kind, encoding: string, hasCpfreq: bool)
    ensures var (when, via) := DeriveServes(k, encoding, hasCpfreq);
      NoNewline(" when " + when + " via ") && via != "" && NoNewline(via) &&
      !IsBlank(via[|via| - 1]) && via[|via| - 1] != '\r'
  {
    var (when, via) := DeriveServes(k, encoding, hasCpfreq);
    assert NoNewline(when) && NoNewline(via);
  }

  lemma HeadParsed(k: Kind, encoding: string, hasCpfreq: bool, csv: string, doc: Doc, st: PState, rest: seq<string>)
    requires st.doc == doc && k !in doc.blocks && CsvOk(csv) && Clean(encoding) && |encoding| <= 7
    ensures ParseText(HeadLines(k, encoding, hasCpfreq, csv) + rest, st) ==
      ParseText(rest, At(doc, k, NO_DATA.(encoding := encoding), false))
  {
    DeclarationsClean(k, encoding, hasCpfreq, csv);
    hide ParseText, Kv, Clean, At, DeriveServes, Question, Query, KindName;
    var ls := HeadLines(k, encoding, hasCpfreq, csv);
    var (when, via) := DeriveServes(k, encoding, hasCpfreq);
    var reader, analyzer := Query(k) + READER_NOTE, "pcrec-analyze 0.1 --scan " + csv;
    var tail := [ls[4], ls[5]] + rest;
    SixLines(ls, rest);
    HeaderLine(doc, k, [ls[1]] + ([ls[2]] + ([ls[3]] + tail)), st);
    IgnoredLine("question", Question(k), doc, k, NO_DATA, [ls[2]] + ([ls[3]] + tail));
    IgnoredLine("reader", reader, doc, k, NO_DATA, [ls[3]] + tail);
    IgnoredLine("analyzer", analyzer, doc, k, NO_DATA, tail);
    EncodingServes(encoding, Query(k) + " when " + when + " via " + via, doc, k, rest);
  }

  lemma SixLines(ls: seq<string>, rest: seq<string>)
    requires |ls| == 6
    ensures ls + rest == [ls[0]] + ([ls[1]] + ([ls[2]] + ([ls[3]] + ([ls[4], ls[5]] + rest))))
  {
  }

  lemma EncodingServes(encoding: string, serves: string, doc: Doc, k: Kind, rest: seq<string>)
    requires Clean(encoding) && |encoding| <= 7 && Clean(serves)
    ensures ParseText([Kv(8, "encoding", encoding), Kv(8, "serves", serves)] + rest, At(doc, k, NO_DATA, false)) ==
      ParseText(rest, At(doc, k, NO_DATA.(encoding := encoding), false))
  {
    hide ParseText, Kv, Clean, At;
    var a, b := Kv(8, "encoding", encoding), Kv(8, "serves", serves);
    assert [a, b] + rest == [a] + ([b] + rest);
    EncodingLine(encoding, doc, k, NO_DATA, [b] + rest);
    IgnoredLine("serves", serves, doc, k, NO_DATA.(encoding := encoding), rest);
  }

  lemma BlockParsed(k: Kind, d: Data, hasCpfreq: bool, csv: string, doc: Doc, st: PState, rest: seq<string>)
    requires st.doc == doc && k !in doc.blocks && CsvOk(csv) && DataLine(k, d) && Ends(rest)
    ensures ParseText(BlockLines(k, d, hasCpfreq, csv) + rest, st) == ParseText(rest, At(doc, k, ReadData(d), true))
  {
    hide ParseText, HeadLines, RowLines, FieldLines, Fields, At, KeyOk, AddRows, ReadProv, ProvLine, Clean, Ends;
    var head, rows, prov := HeadLines(k, d.encoding, hasCpfreq, csv), RowLines(k, Listing(d.rows)), ProvLines(d.prov);
    var fields := FieldLines(Fields(d.prov));
    var d1 := NO_DATA.(encoding := d.encoding);
    assert BlockLines(k, d, hasCpfreq, csv) + rest == head + (rows + (prov + rest));
    HeadParsed(k, d.encoding, hasCpfreq, csv, doc, st, rows + (prov + rest));
    ListingKeys(d.rows);
    RowsParsed(Listing(d.rows), doc, k, d1, prov + rest);
    AddListing(d.rows);
    assert prov + rest == [Spaces(8) + "provenance"] + (fields + rest);
    ProvenanceLine(doc, k, d1.(rows := d.rows), fields + rest);
    FieldsOk(d.prov);
    FieldsParsed(Fields(d.prov), doc, k, d1.(rows := d.rows), rest);
    FieldsBack(d.prov);
  }

  lemma ListingKeys(m: Rows)
    ensures forall r :: r in Listing(m) ==> r.key in m
  {
    hide Listing;
  }

  ghost predicate DocOk(doc: Doc) {
    doc.name != "" && Clean(doc.name) && forall k :: k in doc.blocks ==> DataOk(k, doc.blocks[k])
  }

  /** A bundle that is printed one line an entry. */
  ghost predicate DocLine(doc: Doc) {
    doc.name != "" && Clean(doc.name) && forall k :: k in doc.blocks ==> DataLine(k, doc.blocks[k])
  }

  function BackAll(doc: Doc): Doc { doc.(blocks := map k | k in doc.blocks :: Back(doc.blocks[k])) }

  function ReadAll(doc: Doc): Doc { doc.(blocks := map k | k in doc.blocks :: ReadData(doc.blocks[k])) }

  lemma {:induction false} CsvClean(present: set<Kind>, kinds: seq<Kind>)
    ensures Clean(ScanCsv(present, kinds))
    ensures (exists k :: k in kinds && k in present) ==> ScanCsv(present, kinds) != ""
    decreases |kinds|
  {
    if kinds != [] {
      CsvClean(present, kinds[1..]);
      NameClean(kinds[0], ScanCsv(present, kinds[1..]));
    }
  }

  lemma NameClean(k: Kind, rest: string)
    requires Clean(rest)
    ensures Clean(KindName(k)) && (rest != "" ==> Clean(KindName(k) + "," + rest))
  {
    var s := KindName(k) + "," + rest;
    if rest != "" { assert s[|s| - 1] == rest[|rest| - 1]; }
  }

  ghost function Kept(doc: Doc, kinds: seq<Kind>): map<Kind, Data> {
    map k | k in doc.blocks && k in kinds :: ReadData(doc.blocks[k])
  }

  lemma {:induction false} BlocksParsed(doc: Doc, kinds: seq<Kind>, st: PState)
    requires forall k :: k in doc.blocks ==> DataLine(k, doc.blocks[k])
    requires forall k :: k in kinds ==> k !in st.doc.blocks
    requires forall i, j :: 0 <= i < j < |kinds| ==> kinds[i] != kinds[j]
    ensures var r := ParseText(BlocksLines(doc, kinds), st);
      r.Ok? && r.value.doc == st.doc.(blocks := st.doc.blocks + Kept(doc, kinds))
    decreases |kinds|
  {
    hide ParseText, BlockLines, ReadData, DataLine, CsvOk, ScanCsv, Kept, CANONICAL;
    if kinds == [] {
      NoText(st);
      KeptNone(doc, st.doc.blocks);
    } else {
      var k, rest := kinds[0], BlocksLines(doc, kinds[1..]);
      if k in doc.blocks {
        var csv := ScanCsv(doc.blocks.Keys, CANONICAL);
        CsvPresent(doc.blocks.Keys, k);
        BlocksEnd(doc, kinds[1..]);
        BlockParsed(k, doc.blocks[k], Cpfreq in doc.blocks, csv, st.doc, st, rest);
        var st' := At(st.doc, k, ReadData(doc.blocks[k]), true);
        BlocksParsed(doc, kinds[1..], st');
        KeptStep(doc, kinds, st.doc.blocks);
      } else {
        assert [] + rest == rest;
        BlocksParsed(doc, kinds[1..], st);
        KeptStep(doc, kinds, st.doc.blocks);
      }
    }
  }

  /** A block's lines are followed by a kind header or nothing. */
  lemma {:induction false} BlocksEnd(doc: Doc, kinds: seq<Kind>)
    ensures Ends(BlocksLines(doc, kinds))
    decreases |kinds|
  {
    hide ScanCsv, CANONICAL, RowLines, ProvLines, ToPLine;
    if kinds != [] {
      BlocksEnd(doc, kinds[1..]);
      var k, rest := kinds[0], BlocksLines(doc, kinds[1..]);
      if k in doc.blocks {
        HeaderEnds(k);
        assert BlocksLines(doc, kinds)[0] == Spaces(4) + KindName(k);
      } else {
        assert [] + rest == rest;
      }
    }
  }

  lemma HeaderEnds(k: Kind)
    ensures ToPLine(Spaces(4) + KindName(k)).cls == Content && ToPLine(Spaces(4) + KindName(k)).indent == 4
  {
    hide ToPLine;
    LineShape(4, KindName(k), "");
    assert KindName(k) + "" == KindName(k);
  }

  lemma KeptNone(doc: Doc, blocks: map<Kind, Data>)
    ensures blocks + Kept(doc, []) == blocks
  {
  }

  lemma KeptStep(doc: Doc, kinds: seq<Kind>, blocks: map<Kind, Data>)
    requires kinds != [] && kinds[0] !in kinds[1..]
    ensures if kinds[0] in doc.blocks
      then blocks[kinds[0] := ReadData(doc.blocks[kinds[0]])] + Kept(doc, kinds[1..]) == blocks + Kept(doc, kinds)
      else Kept(doc, kinds[1..]) == Kept(doc, kinds)
  {
    hide ReadData;
    assert forall k :: k in kinds <==> k == kinds[0] || k in kinds[1..];
  }

  lemma NoText(st: PState)
    ensures ParseText([], st) == Ok(st)
  {
  }

  lemma CsvPresent(present: set<Kind>, k: Kind)
    requires k in present
    ensures CsvOk(ScanCsv(present, CANONICAL))
  {
    hide ScanCsv, Clean;
    CsvClean(present, CANONICAL);
    assert CANONICAL[0] == Freq && CANONICAL[1] == Cpfreq && CANONICAL[2] == Bigram;
    assert k in CANONICAL;
  }

  // ----- no printed line holds a newline -----

  lemma KvNoNewline(pad: nat, kw: string, v: string)
    requires NoNewline(kw) && NoNewline(v)
    ensures NoNewline(Kv(pad, kw, v))
  {
  }

  ghost predicate AllLines(lines: seq<string>) { forall i :: 0 <= i < |lines| ==> NoNewline(lines[i]) }

  lemma HeadNoNewline(k: Kind, encoding: string, hasCpfreq: bool, csv: string)
    requires CsvOk(csv) && Clean(encoding)
    ensures AllLines(HeadLines(k, encoding, hasCpfreq, csv))
  {
    DeclarationsClean(k, encoding, hasCpfreq, csv);
    var (when, via) := DeriveServes(k, encoding, hasCpfreq);
    KindNoNewline(k);
    Keywords();
    hide Kv, Question, Query, KindName, DeriveServes, NoNewline, Clean, Spaces;
    var ls := HeadLines(k, encoding, hasCpfreq, csv);
    CleanKv("question", Question(k));
    CleanKv("reader", Query(k) + READER_NOTE);
    CleanKv("analyzer", "pcrec-analyze 0.1 --scan " + csv);
    CleanKv("encoding", encoding);
    CleanKv("serves", Query(k) + " when " + when + " via " + via);
    SixNoNewline(ls);
  }

  lemma CleanKv(kw: string, v: string)
    requires NoNewline(kw) && Clean(v)
    ensures NoNewline(Kv(8, kw, v))
  {
    CleanLine(v);
    hide NoNewline;
    KvNoNewline(8, kw, v);
  }

  lemma SixNoNewline(ls: seq<string>)
    requires |ls| == 6 && NoNewline(ls[0]) && NoNewline(ls[1]) && NoNewline(ls[2])
    requires NoNewline(ls[3]) && NoNewline(ls[4]) && NoNewline(ls[5])
    ensures AllLines(ls)
  {
    hide NoNewline;
  }

  lemma CleanLine(v: string)
    requires Clean(v)
    ensures NoNewline(v)
  {
  }

  lemma Keywords()
    ensures NoNewline("question") && NoNewline("reader") && NoNewline("analyzer") && NoNewline("encoding")
    ensures NoNewline("serves")
  {
  }

  lemma KindNoNewline(k: Kind)
    ensures NoNewline(Spaces(4) + KindName(k))
  {
  }

  lemma {:induction false} RowsNoNewline(k: Kind, list: seq<Row>)
    ensures AllLines(RowLines(k, list))
    decreases |list|
  {
    if list != [] {
      RowsNoNewline(k, list[1..]);
      RowClean(k, list[0]);
      hide KeyText, Kv;
      KvNoNewline(8, "row", KeyText(k, list[0].key) + " " + Dec(list[0].count));
    }
  }

  lemma {:induction false} FieldsNoNewline(fields: seq<(string, Option<string>)>)
    requires forall f :: f in fields ==> FieldOk(f)
    ensures AllLines(FieldLines(fields))
    decreases |fields|
  {
    if fields != [] {
      assert FieldOk(fields[0]);
      FieldsNoNewline(fields[1..]);
      if fields[0].1.Some? { KvNoNewline(12, fields[0].0, fields[0].1.value); }
    }
  }

  lemma BlockNoNewline(k: Kind, d: Data, hasCpfreq: bool, csv: string)
    requires CsvOk(csv) && DataLine(k, d)
    ensures AllLines(BlockLines(k, d, hasCpfreq, csv))
  {
    HeadNoNewline(k, d.encoding, hasCpfreq, csv);
    hide HeadLines, RowLines, FieldLines, Fields, KeyOk, ProvLine, NoNewline, FieldOk, AllLines;
    RowsNoNewline(k, Listing(d.rows));
    FieldsOk(d.prov);
    FieldsNoNewline(Fields(d.prov));
    ProvenanceNoNewline();
    var head, rows, fields := HeadLines(k, d.encoding, hasCpfreq, csv), RowLines(k, Listing(d.rows)),
                              FieldLines(Fields(d.prov));
    LinesJoin(head, rows);
    LinesJoin([Spaces(8) + "provenance"], fields);
    LinesJoin(head + rows, ProvLines(d.prov));
  }

  lemma LinesJoin(a: seq<string>, b: seq<string>)
    requires AllLines(a) && AllLines(b)
    ensures AllLines(a + b)
  {
  }

  lemma ProvenanceNoNewline()
    ensures AllLines([Spaces(8) + "provenance"])
  {
  }

  lemma {:induction false} BlocksNoNewline(doc: Doc, kinds: seq<Kind>)
    requires forall k :: k in doc.blocks ==> DataLine(k, doc.blocks[k])
    ensures AllLines(BlocksLines(doc, kinds))
    decreases |kinds|
  {
    hide BlockLines, DataLine, CsvOk, ScanCsv, NoNewline;
    if kinds != [] {
      BlocksNoNewline(doc, kinds[1..]);
      if kinds[0] in doc.blocks {
        CsvPresent(doc.blocks.Keys, kinds[0]);
        BlockNoNewline(kinds[0], doc.blocks[kinds[0]], Cpfreq in doc.blocks, ScanCsv(doc.blocks.Keys, CANONICAL));
      }
    }
  }

  lemma NameLine(name: string)
    requires name != "" && Clean(name)
    ensures NoNewline("analysis " + name)
    ensures ToPLine("analysis " + name) == PLine(0, "analysis " + name, "analysis " + name, Content)
    ensures ("analysis " + name)[..9] == "analysis " && ("analysis " + name)[9..] == name && LeadingSpaces(name) == 0
  {
    var t := "analysis " + name;
    assert t[|t| - 1] == name[|name| - 1];
    LineShape(0, t, "");
    assert Spaces(0) + (t + "") == t && t + "" == t;
  }

  /** Parsing a rendered bundle gives its name, its present kinds, their rows, their encoding class and what is read
      of their provenance. */
  lemma ParseRead(doc: Doc)
    requires DocLine(doc)
    ensures Parse(Render(doc)) == Ok(ReadAll(doc))
  {
    hide ToPLine, BlocksLines, DataLine, Clean, ReadData, Kept, NoNewline, ParseLines;
    var first, rest := "analysis " + doc.name, BlocksLines(doc, CANONICAL);
    NameLine(doc.name);
    BlocksNoNewline(doc, CANONICAL);
    LinesUnlines(RenderLines(doc));
    var lines := ToPLines(RenderLines(doc));
    assert RenderLines(doc)[1..] == rest;
    assert lines == [ToPLine(first)] + ToPLines(rest);
    assert LeadingSkip(lines) == 0;
    assert lines[1..] == ToPLines(rest);
    var st := PState(Doc(doc.name, map[]), None, false);
    assert CANONICAL[0] == Freq && CANONICAL[1] == Cpfreq && CANONICAL[2] == Bigram;
    BlocksParsed(doc, CANONICAL, st);
    KeptAll(doc);
    assert doc.name[0..] == doc.name;
  }

  lemma KeptAll(doc: Doc)
    ensures map[] + Kept(doc, CANONICAL) == ReadAll(doc).blocks
  {
    hide ReadData;
    forall k: Kind
      ensures k in CANONICAL
    {
      assert CANONICAL[match k case Freq => 0 case Cpfreq => 1 case Bigram => 2] == k;
    }
  }

  /** Parsing a rendered bundle gives the bundle back, the source lines filled in, if and only if every provenance value
      is one the format carries. */
  lemma ParseRenderIff(doc: Doc)
    requires DocLine(doc)
    ensures Parse(Render(doc)) == Ok(BackAll(doc)) <==> DocOk(doc)
  {
    hide Render, Parse, ProvLine, ProvOk, ReadProv, Printed, Clean, KeyOk;
    ParseRead(doc);
    forall k | k in doc.blocks
      ensures ReadData(doc.blocks[k]) == Back(doc.blocks[k]) <==> DataOk(k, doc.blocks[k])
    {
      assert DataLine(k, doc.blocks[k]);
      ProvBackIff(doc.blocks[k].prov);
    }
    if ReadAll(doc) == BackAll(doc) {
      forall k | k in doc.blocks
        ensures ReadData(doc.blocks[k]) == Back(doc.blocks[k])
      {
        assert ReadAll(doc).blocks[k] == BackAll(doc).blocks[k];
      }
    }
  }

  /** Parsing a rendered bundle gives the bundle back: its name, its present kinds, their rows, their encoding
      class and their provenance, the source line filled in. */
  lemma ParseRender(doc: Doc)
    requires DocOk(doc)
    ensures Parse(Render(doc)) == Ok(BackAll(doc))
  {
    hide Render, Parse, DataLine, ProvOk;
    ParseRenderIff(doc);
  }
}
