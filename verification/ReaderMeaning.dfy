/** What the bundle reader makes of any text (analyze/count.c), told line by line: which lines count, when the text is
    refused, and what each kind then holds. */
module ReaderMeaning {
  import opened Bits
  import opened Rows
  import opened Text
  import opened KindBlock
  import opened Bundle

  // ----- where a line stands; `live` holds the content lines outside block scalars -----

  ghost predicate At(lines: seq<PLine>, live: set<nat>, i: nat, indent: nat) {
    i in live && i < |lines| && lines[i].indent == indent
  }

  predicate Aside(l: PLine) { KwIs(l, "include") || KwIs(l, "description") }

  function HeadKind(l: PLine): Option<Kind> { if Aside(l) then None else KindOf(l.token[..WordLength(l.token)]) }

  /** A header line of the kind. */
  ghost predicate Heads(lines: seq<PLine>, live: set<nat>, i: nat, k: Kind) {
    At(lines, live, i, 4) && HeadKind(lines[i]) == Some(k)
  }

  ghost predicate None4(lines: seq<PLine>, live: set<nat>, j: nat, i: nat) {
    forall m: nat :: j < m < i ==> !At(lines, live, m, 4)
  }

  /** The last line at indent 4 above line `i` is a header of the kind. */
  ghost predicate Under(lines: seq<PLine>, live: set<nat>, i: nat, k: Kind) {
    exists j: nat :: j < i && Heads(lines, live, j, k) && None4(lines, live, j, i)
  }

  ghost predicate ProvLine(lines: seq<PLine>, live: set<nat>, i: nat) {
    At(lines, live, i, 8) && lines[i].token == "provenance"
  }

  ghost predicate None4Or8(lines: seq<PLine>, live: set<nat>, j: nat, i: nat) {
    forall m: nat :: j < m < i ==> !At(lines, live, m, 4) && !At(lines, live, m, 8)
  }

  /** The last line at indent 4 or 8 above line `i` says `provenance`. */
  ghost predicate InProv(lines: seq<PLine>, live: set<nat>, i: nat) {
    exists j: nat :: j < i && ProvLine(lines, live, j) && None4Or8(lines, live, j, i)
  }

  /** A line at this indent in a block of the kind. */
  ghost predicate BlockLine(lines: seq<PLine>, live: set<nat>, i: nat, k: Kind, indent: nat) {
    At(lines, live, i, indent) && Under(lines, live, i, k)
  }

  ghost predicate FieldLine(lines: seq<PLine>, live: set<nat>, i: nat, k: Kind) {
    BlockLine(lines, live, i, k, 12) && InProv(lines, live, i)
  }

  function FieldName(l: PLine): string { Prefix(FirstWord(l.token), 31) }

  /** The fields whose value is prose. */
  predicate KeepsText(field: string) { field == "license-note" || field == "adaptation" || field == "attribution" }

  lemma ProseFields(field: string)
    ensures IsProse(field) <==> KeepsText(field)
  {
  }

  // ----- which lines count -----

  /** A line whose value may be a block scalar, and is one. */
  ghost predicate Opens(lines: seq<PLine>, live: set<nat>, i: nat) {
    i < |lines| && OpensScalar(lines[i]) && (Describes(lines, live, i) || exists k :: ProseLine(lines, live, i, k))
  }

  ghost predicate Describes(lines: seq<PLine>, live: set<nat>, i: nat) {
    At(lines, live, i, 4) && !KwIs(lines[i], "include") && KwIs(lines[i], "description")
  }

  ghost predicate ProseLine(lines: seq<PLine>, live: set<nat>, i: nat, k: Kind) {
    FieldLine(lines, live, i, k) && KeepsText(FieldName(lines[i]))
  }

  predicate Deeper(l: PLine, opener: nat) { l.cls == White || (l.cls == Content && l.indent > opener) }

  predicate AllDeeper(lines: seq<PLine>, j: nat, i: nat) {
    j < i < |lines| && forall m :: j < m <= i ==> Deeper(lines[m], lines[j].indent)
  }

  /** Line `i` belongs to the block scalar of a line above. */
  ghost predicate Inside(lines: seq<PLine>, live: set<nat>, i: nat) {
    exists j: nat :: j < i && Opens(lines, live, j) && AllDeeper(lines, j, i)
  }

  /** The content lines outside block scalars. */
  ghost predicate LiveSet(lines: seq<PLine>, live: set<nat>) {
    forall i: nat :: i in live <==> i < |lines| && lines[i].cls == Content && !Inside(lines, live, i)
  }

  /** There is one such set: a line's place depends on the lines above it only. */
  ghost function LiveLines(lines: seq<PLine>, n: nat): (live: set<nat>)
    requires n <= |lines|
    ensures forall i :: i in live ==> i < n
  {
    if n == 0 then {}
    else
      var live := LiveLines(lines, n - 1);
      if lines[n - 1].cls == Content && !Inside(lines, live, n - 1) then live + {n - 1} else live
  }

  ghost predicate Same(live: set<nat>, live': set<nat>, n: nat) { forall i: nat :: i < n ==> (i in live <==> i in live') }

  lemma AtSame(lines: seq<PLine>, live: set<nat>, live': set<nat>, n: nat)
    requires Same(live, live', n)
    ensures forall i: nat, indent :: i < n ==> At(lines, live, i, indent) == At(lines, live', i, indent)
  {
  }

  lemma UnderSame(lines: seq<PLine>, live: set<nat>, live': set<nat>, i: nat, k: Kind)
    requires Same(live, live', i)
    ensures Under(lines, live, i, k) ==> Under(lines, live', i, k)
  {
    AtSame(lines, live, live', i);
    hide At, HeadKind;
    if j: nat :| j < i && Heads(lines, live, j, k) && None4(lines, live, j, i) {
      assert Heads(lines, live', j, k) && None4(lines, live', j, i);
    }
  }

  lemma InProvSame(lines: seq<PLine>, live: set<nat>, live': set<nat>, i: nat)
    requires Same(live, live', i)
    ensures InProv(lines, live, i) ==> InProv(lines, live', i)
  {
    AtSame(lines, live, live', i);
    hide At;
    if j: nat :| j < i && ProvLine(lines, live, j) && None4Or8(lines, live, j, i) {
      assert ProvLine(lines, live', j) && None4Or8(lines, live', j, i);
    }
  }

  lemma OpensSame(lines: seq<PLine>, live: set<nat>, live': set<nat>, i: nat)
    requires Same(live, live', i + 1)
    ensures Opens(lines, live, i) ==> Opens(lines, live', i)
  {
    AtSame(lines, live, live', i + 1);
    InProvSame(lines, live, live', i);
    forall k
      ensures Under(lines, live, i, k) ==> Under(lines, live', i, k)
    {
      UnderSame(lines, live, live', i, k);
    }
    hide At, Under, InProv, FieldName, OpensScalar, KwIs;
    if k :| ProseLine(lines, live, i, k) { assert ProseLine(lines, live', i, k); }
  }

  lemma InsideSame(lines: seq<PLine>, live: set<nat>, live': set<nat>, i: nat)
    requires Same(live, live', i)
    ensures Inside(lines, live, i) <==> Inside(lines, live', i)
  {
    hide Opens, AllDeeper;
    if j: nat :| j < i && Opens(lines, live, j) && AllDeeper(lines, j, i) { OpensSame(lines, live, live', j); }
    if j: nat :| j < i && Opens(lines, live', j) && AllDeeper(lines, j, i) { OpensSame(lines, live', live, j); }
  }

  lemma {:induction false} LinesSame(lines: seq<PLine>, m: nat, n: nat)
    requires m <= n <= |lines|
    ensures Same(LiveLines(lines, m), LiveLines(lines, n), m)
    decreases n - m
  {
    if m < n { LinesSame(lines, m, n - 1); }
  }

  /** The set of live lines satisfies its description, and nothing else does. */
  lemma LiveIs(lines: seq<PLine>)
    ensures LiveSet(lines, LiveLines(lines, |lines|))
  {
    hide Inside;
    var live := LiveLines(lines, |lines|);
    forall i: nat
      ensures i in live <==> i < |lines| && lines[i].cls == Content && !Inside(lines, live, i)
    {
      if i < |lines| {
        LinesSame(lines, i, |lines|);
        LinesSame(lines, i + 1, |lines|);
        InsideSame(lines, LiveLines(lines, i), live, i);
        assert i in live <==> i in LiveLines(lines, i + 1);
      }
    }
  }

  lemma {:induction false} LiveUnique(lines: seq<PLine>, live: set<nat>, n: nat)
    requires LiveSet(lines, live) && n <= |lines|
    ensures Same(live, LiveLines(lines, n), n)
    decreases n
  {
    hide Inside;
    if n > 0 {
      LiveUnique(lines, live, n - 1);
      InsideSame(lines, live, LiveLines(lines, n - 1), n - 1);
    }
  }

  // ----- what a text says -----

  ghost predicate HasHead(lines: seq<PLine>, live: set<nat>, n: nat, k: Kind) {
    exists i: nat :: i < n && Heads(lines, live, i, k)
  }

  /** The key and the count of a row. */
  function RowAsked(k: Kind, words: seq<string>): (nat, u64)
    requires |words| >= 2
  {
    (match k
     case Freq => ParseHexWord(words[0]) % 256
     case Bigram => ParseHexWord(words[0]) % 256 * 256 + ParseHexWord(words[1]) % 256
     case Cpfreq => ParseHexWord(if StartsWith(words[0], "U+") then words[0][2..] else words[0]) % 0x1_0000_0000,
     ParseCount(words[|words| - 1]))
  }

  /** The count that a row adds to a key. */
  function CountFor(k: Kind, rest: string, key: nat): u64 {
    var words := Tokens(rest, 4);
    if |words| >= 2 && RowAsked(k, words).0 == key then RowAsked(k, words).1 else 0
  }

  ghost predicate RowAt(lines: seq<PLine>, live: set<nat>, i: nat, k: Kind) {
    BlockLine(lines, live, i, k, 8) && StartsWith(lines[i].token, "row ")
  }

  /** What the rows of a kind add up to for a key. */
  ghost function RowSum(lines: seq<PLine>, live: set<nat>, n: nat, k: Kind, key: nat): nat {
    if n == 0 then 0
    else
      RowSum(lines, live, n - 1, k, key) +
      if RowAt(lines, live, n - 1, k) then CountFor(k, lines[n - 1].token[4..], key) else 0
  }

  ghost predicate EncodingAt(lines: seq<PLine>, live: set<nat>, i: nat, k: Kind) {
    BlockLine(lines, live, i, k, 8) && StartsWith(lines[i].token, "encoding ")
  }

  /** The encoding that the last such line of the kind states. */
  ghost function EncodingSaid(lines: seq<PLine>, live: set<nat>, n: nat, k: Kind): string {
    if n == 0 then ""
    else if EncodingAt(lines, live, n - 1, k) then Prefix(lines[n - 1].token[9..], 7)
    else EncodingSaid(lines, live, n - 1, k)
  }

  /** The value of a field line: a prose value may be a block scalar, and keeps its trailing blanks. */
  function FieldValue(lines: seq<PLine>, i: nat): string
    requires i < |lines|
  {
    if KeepsText(FieldName(lines[i])) then ProseValue(lines[i..]).0 else TrimEnd(LineValue(lines[i]))
  }

  ghost predicate SaysField(lines: seq<PLine>, live: set<nat>, i: nat, k: Kind, field: string) {
    FieldLine(lines, live, i, k) && FieldName(lines[i]) == field
  }

  /** The value that the last line of the field states in the kind's provenance. */
  ghost function Said(lines: seq<PLine>, live: set<nat>, n: nat, k: Kind, field: string): Option<string> {
    if n == 0 then None
    else if SaysField(lines, live, n - 1, k, field) then Some(FieldValue(lines, n - 1))
    else Said(lines, live, n - 1, k, field)
  }

  function SignedOf(s: Option<string>): Option<int> { if s.Some? then Some(ParseSigned(s.value)) else None }
  function ShortOf(s: Option<string>): Option<string> { if s.Some? then Some(Prefix(s.value, 64)) else None }

  ghost predicate ProvOf(p: Prov, said: string -> Option<string>) {
    && p.source == said("source") && p.retrieved == said("retrieved") && p.bytes == SignedOf(said("bytes"))
    && p.sha256 == ShortOf(said("sha256")) && p.url == said("url") && p.ref == said("ref")
    && p.license == said("license") && p.fidelity == said("fidelity") && p.adaptation == said("adaptation")
    && p.licenseNote == said("license-note") && p.attribution == said("attribution")
  }

  ghost function SaidAll(lines: seq<PLine>, live: set<nat>, n: nat, k: Kind): string -> Option<string> {
    field => Said(lines, live, n, k, field)
  }

  ghost predicate RowsSaid(rows: Rows, lines: seq<PLine>, live: set<nat>, n: nat, k: Kind) {
    forall key: nat :: Get(rows, key) == Wrap(RowSum(lines, live, n, k, key))
  }

  ghost predicate DataSaid(d: Data, lines: seq<PLine>, live: set<nat>, n: nat, k: Kind) {
    && RowsSaid(d.rows, lines, live, n, k)
    && d.encoding == EncodingSaid(lines, live, n, k)
    && ProvOf(d.prov, SaidAll(lines, live, n, k))
  }

  /** A bundle holds the kinds that the lines have a header of, and of each what its lines say. */
  ghost predicate BlocksSaid(blocks: map<Kind, Data>, lines: seq<PLine>, live: set<nat>, n: nat) {
    && (forall k :: k in blocks <==> HasHead(lines, live, n, k))
    && forall k :: k in blocks ==> DataSaid(blocks[k], lines, live, n, k)
  }

  // ----- when a text is refused -----

  ghost predicate UnderAny(lines: seq<PLine>, live: set<nat>, i: nat) { exists k :: Under(lines, live, i, k) }

  /** Why line `i` is refused, if it is. */
  ghost function LineFault(lines: seq<PLine>, live: set<nat>, i: nat): Option<string>
    requires i < |lines|
  {
    var l := lines[i];
    if i !in live then None
    else if l.indent == 4 then if Aside(l) || HeadKind(l).Some? then None else Some("unknown kind")
    else if l.indent < 8 || !UnderAny(lines, live, i) then Some("expected a kind header at indent 4")
    else if l.indent > 12 then Some("unexpected indent") else None
  }

  ghost predicate NoFault(lines: seq<PLine>, live: set<nat>, from: nat, to: nat) {
    forall i: nat :: from <= i < to && i < |lines| ==> LineFault(lines, live, i).None?
  }

  // ----- one line more -----

  lemma UnderMore(lines: seq<PLine>, live: set<nat>, i: nat, k: Kind)
    ensures Under(lines, live, i + 1, k) <==> if At(lines, live, i, 4) then Heads(lines, live, i, k) else Under(lines, live, i, k)
  {
    hide At, HeadKind;
    if j: nat :| j < i + 1 && Heads(lines, live, j, k) && None4(lines, live, j, i + 1) {
      if j < i { assert None4(lines, live, j, i) && !At(lines, live, i, 4); }
    }
    if Heads(lines, live, i, k) { assert None4(lines, live, i, i + 1); }
    if j: nat :| j < i && Heads(lines, live, j, k) && None4(lines, live, j, i) && !At(lines, live, i, 4) {
      assert None4(lines, live, j, i + 1);
    }
  }

  lemma InProvMore(lines: seq<PLine>, live: set<nat>, i: nat)
    ensures InProv(lines, live, i + 1) <==>
      if At(lines, live, i, 4) || At(lines, live, i, 8) then ProvLine(lines, live, i) else InProv(lines, live, i)
  {
    hide At;
    if j: nat :| j < i + 1 && ProvLine(lines, live, j) && None4Or8(lines, live, j, i + 1) {
      if j < i { assert None4Or8(lines, live, j, i) && !At(lines, live, i, 4) && !At(lines, live, i, 8); }
    }
    if ProvLine(lines, live, i) { assert None4Or8(lines, live, i, i + 1); }
    if j: nat :| j < i && ProvLine(lines, live, j) && None4Or8(lines, live, j, i) && !At(lines, live, i, 4) && !At(lines, live, i, 8) {
      assert None4Or8(lines, live, j, i + 1);
    }
  }

  lemma HasHeadMore(lines: seq<PLine>, live: set<nat>, i: nat, k: Kind)
    ensures HasHead(lines, live, i + 1, k) <==> HasHead(lines, live, i, k) || Heads(lines, live, i, k)
  {
    hide Heads;
    if j: nat :| j < i + 1 && Heads(lines, live, j, k) { assert j == i || HasHead(lines, live, i, k); }
  }

  lemma UnderOne(lines: seq<PLine>, live: set<nat>, i: nat, k: Kind, k': Kind)
    requires Under(lines, live, i, k) && Under(lines, live, i, k')
    ensures k == k'
  {
    hide At, HeadKind;
    var j: nat :| j < i && Heads(lines, live, j, k) && None4(lines, live, j, i);
    var j': nat :| j' < i && Heads(lines, live, j', k') && None4(lines, live, j', i);
    assert j == j' by { assert At(lines, live, j, 4) && At(lines, live, j', 4); }
  }

  lemma NotUnder(lines: seq<PLine>, live: set<nat>, i: nat, k: Kind)
    requires !HasHead(lines, live, i, k)
    ensures !Under(lines, live, i, k)
  {
    hide Heads;
  }

  // ----- what one line adds to what is said -----

  lemma SaidOther(d: Data, lines: seq<PLine>, live: set<nat>, i: nat, k: Kind)
    requires DataSaid(d, lines, live, i, k) && !RowAt(lines, live, i, k) && !EncodingAt(lines, live, i, k)
    requires !FieldLine(lines, live, i, k)
    ensures DataSaid(d, lines, live, i + 1, k)
  {
    RowsQuiet(d.rows, lines, live, i, k);
    EncodingQuiet(lines, live, i, k);
    ProvQuiet(d.prov, lines, live, i, k);
    hide *;
    assert DataSaid(d, lines, live, i + 1, k);
  }

  lemma RowsQuiet(rows: Rows, lines: seq<PLine>, live: set<nat>, i: nat, k: Kind)
    requires RowsSaid(rows, lines, live, i, k) && !RowAt(lines, live, i, k)
    ensures RowsSaid(rows, lines, live, i + 1, k)
  {
    hide RowAt, Get, Wrap;
  }

  lemma EncodingQuiet(lines: seq<PLine>, live: set<nat>, i: nat, k: Kind)
    requires !EncodingAt(lines, live, i, k)
    ensures EncodingSaid(lines, live, i + 1, k) == EncodingSaid(lines, live, i, k)
  {
    hide EncodingAt;
  }

  lemma ProvQuiet(p: Prov, lines: seq<PLine>, live: set<nat>, i: nat, k: Kind)
    requires ProvOf(p, SaidAll(lines, live, i, k)) && !FieldLine(lines, live, i, k)
    ensures ProvOf(p, SaidAll(lines, live, i + 1, k))
  {
    hide FieldLine, ProvOf;
    var was, now := SaidAll(lines, live, i, k), SaidAll(lines, live, i + 1, k);
    assert forall f :: was(f) == now(f);
    ProvAlike(p, was, now);
  }

  lemma ProvAlike(p: Prov, was: string -> Option<string>, now: string -> Option<string>)
    requires ProvOf(p, was) && forall f :: was(f) == now(f)
    ensures ProvOf(p, now)
  {
  }

  lemma ParsedRow(k: Kind, rows: Rows, rest: string, key: nat)
    ensures Get(ParseRow(k, rows, rest), key) == Plus(Get(rows, key), CountFor(k, rest, key))
  {
    var words := Tokens(rest, 4);
    ParsedAs(k, rows, rest);
    hide Tokens, ParseRow, RowAsked, Get, Add;
    if |words| >= 2 { AddGet(rows, RowAsked(k, words).0, RowAsked(k, words).1, key); }
  }

  lemma ParsedAs(k: Kind, rows: Rows, rest: string)
    ensures var words := Tokens(rest, 4);
      ParseRow(k, rows, rest) == if |words| < 2 then rows else Add(rows, RowAsked(k, words).0, RowAsked(k, words).1)
  {
    hide Tokens, ParseHexWord, ParseCount, Add;
  }

  lemma RowsMore(rows: Rows, lines: seq<PLine>, live: set<nat>, i: nat, k: Kind)
    requires RowsSaid(rows, lines, live, i, k) && RowAt(lines, live, i, k)
    ensures RowsSaid(ParseRow(k, rows, lines[i].token[4..]), lines, live, i + 1, k)
  {
    var rest := lines[i].token[4..];
    hide Get, Wrap, ParseRow, CountFor, RowAt;
    forall key: nat
      ensures Get(ParseRow(k, rows, rest), key) == Wrap(RowSum(lines, live, i + 1, k, key))
    {
      ParsedRow(k, rows, rest, key);
      PlusWraps(RowSum(lines, live, i, k, key), CountFor(k, rest, key));
    }
  }

  /** A field line sets what its name says, and nothing else. */
  lemma FieldMore(p: Prov, lines: seq<PLine>, live: set<nat>, i: nat, k: Kind)
    requires ProvOf(p, SaidAll(lines, live, i, k)) && FieldLine(lines, live, i, k)
    ensures ProvOf(SetField(p, FieldName(lines[i]), FieldValue(lines, i)), SaidAll(lines, live, i + 1, k))
  {
    var name, v := FieldName(lines[i]), FieldValue(lines, i);
    hide FieldLine, ProvOf, FieldName, FieldValue, SetField;
    var was, now := SaidAll(lines, live, i, k), SaidAll(lines, live, i + 1, k);
    assert forall f :: now(f) == if f == name then Some(v) else was(f);
    SetOne(p, was, now, name, v);
  }

  lemma SetOne(p: Prov, was: string -> Option<string>, now: string -> Option<string>, name: string, v: string)
    requires ProvOf(p, was) && forall f :: now(f) == if f == name then Some(v) else was(f)
    ensures ProvOf(SetField(p, name, v), now)
  {
    SetFirst(p, name, v);
    SetMiddle(p, name, v);
    SetLast(p, name, v);
    hide ParseSigned, Prefix, SetField;
  }

  lemma SetFirst(p: Prov, name: string, v: string)
    ensures var q := SetField(p, name, v);
      && q.source == (if name == "source" then Some(v) else p.source)
      && q.retrieved == (if name == "retrieved" then Some(v) else p.retrieved)
      && q.bytes == (if name == "bytes" then Some(ParseSigned(v)) else p.bytes)
      && q.sha256 == (if name == "sha256" then Some(Prefix(v, 64)) else p.sha256)
  {
    hide ParseSigned, Prefix;
  }

  lemma SetMiddle(p: Prov, name: string, v: string)
    ensures var q := SetField(p, name, v);
      && q.url == (if name == "url" then Some(v) else p.url)
      && q.ref == (if name == "ref" then Some(v) else p.ref)
      && q.license == (if name == "license" then Some(v) else p.license)
      && q.fidelity == (if name == "fidelity" then Some(v) else p.fidelity)
  {
    hide ParseSigned, Prefix;
  }

  lemma SetLast(p: Prov, name: string, v: string)
    ensures var q := SetField(p, name, v);
      && q.adaptation == (if name == "adaptation" then Some(v) else p.adaptation)
      && q.licenseNote == (if name == "license-note" then Some(v) else p.licenseNote)
      && q.attribution == (if name == "attribution" then Some(v) else p.attribution)
  {
    hide ParseSigned, Prefix;
  }

  // ----- the reader's state before a line -----

  ghost predicate Stands(lines: seq<PLine>, live: set<nat>, i: nat, st: PState) {
    && (forall k :: st.cur == Some(k) <==> Under(lines, live, i, k))
    && (st.cur.Some? ==> (st.inProv <==> InProv(lines, live, i)))
    && BlocksSaid(st.doc.blocks, lines, live, i)
  }

  /** A line that does not count changes nothing. */
  lemma Quiet(lines: seq<PLine>, live: set<nat>, i: nat, st: PState)
    requires Stands(lines, live, i, st) && i !in live
    ensures Stands(lines, live, i + 1, st)
  {
    assert !At(lines, live, i, 4) && !At(lines, live, i, 8) && !At(lines, live, i, 12);
    hide At, DataSaid;
    InProvMore(lines, live, i);
    forall k
      ensures Under(lines, live, i + 1, k) == Under(lines, live, i, k)
      ensures HasHead(lines, live, i + 1, k) == HasHead(lines, live, i, k)
      ensures k in st.doc.blocks ==> DataSaid(st.doc.blocks[k], lines, live, i + 1, k)
    {
      UnderMore(lines, live, i, k);
      HasHeadMore(lines, live, i, k);
      if k in st.doc.blocks { SaidOther(st.doc.blocks[k], lines, live, i, k); }
    }
    hide Under, HasHead, InProv;
  }

  lemma HeaderIs(st: PState, l: PLine)
    ensures var r := HeaderStep(st, l);
      if Aside(l) then r == Ok(st.(cur := None))
      else
        var h := HeadKind(l);
        if h.None? then r == Err("unknown kind")
        else r == Ok(PState(st.doc.(blocks := Opened(st.doc.blocks, h.value)), h, false))
  {
    hide KwIs, KindOf, WordLength;
  }

  /** The blocks with one of the kind. */
  function Opened(blocks: map<Kind, Data>, k: Kind): map<Kind, Data> { blocks[k := if k in blocks then blocks[k] else NO_DATA] }

  /** A line at indent 4. */
  lemma HeaderLine(lines: seq<PLine>, live: set<nat>, i: nat, st: PState)
    requires Stands(lines, live, i, st) && At(lines, live, i, 4)
    ensures var r := HeaderStep(st, lines[i]);
      && LineFault(lines, live, i) == (if r.Ok? then None else Some(r.message))
      && (r.Ok? ==> Stands(lines, live, i + 1, r.value) && r.value.doc.name == st.doc.name)
  {
    var l := lines[i];
    HeaderIs(st, l);
    hide HeaderStep, Aside;
    var r, h := HeaderStep(st, l), HeadKind(l);
    if r.Ok? {
      AfterHeader(lines, live, i, st.doc.blocks, h, r.value.doc.blocks);
      InProvMore(lines, live, i);
      hide BlocksSaid, Opened, InProv, HeadKind;
      forall k
        ensures Under(lines, live, i + 1, k) == (h == Some(k))
      {
        UnderMore(lines, live, i, k);
      }
    }
  }

  lemma HeaderOnly(lines: seq<PLine>, live: set<nat>, i: nat)
    requires At(lines, live, i, 4)
    ensures forall k :: !RowAt(lines, live, i, k) && !EncodingAt(lines, live, i, k) && !FieldLine(lines, live, i, k)
  {
    hide Under, InProv;
  }

  lemma AfterHeader(lines: seq<PLine>, live: set<nat>, i: nat, blocks: map<Kind, Data>, h: Option<Kind>,
                    blocks': map<Kind, Data>)
    requires BlocksSaid(blocks, lines, live, i) && At(lines, live, i, 4)
    requires forall k :: Heads(lines, live, i, k) <==> h == Some(k)
    requires blocks' == match h case None => blocks case Some(k) => Opened(blocks, k)
    ensures BlocksSaid(blocks', lines, live, i + 1)
  {
    hide At, DataSaid, HeadKind, HasHead, Heads;
    forall k
      ensures HasHead(lines, live, i + 1, k) == (HasHead(lines, live, i, k) || h == Some(k))
      ensures DataSaid(if k in blocks then blocks[k] else NO_DATA, lines, live, i + 1, k)
    {
      HasHeadMore(lines, live, i, k);
      KindAfter(lines, live, i, blocks, k);
    }
  }

  lemma KindAfter(lines: seq<PLine>, live: set<nat>, i: nat, blocks: map<Kind, Data>, k: Kind)
    requires BlocksSaid(blocks, lines, live, i) && At(lines, live, i, 4)
    ensures DataSaid(if k in blocks then blocks[k] else NO_DATA, lines, live, i + 1, k)
  {
    HeaderOnly(lines, live, i);
    hide DataSaid, HasHead, RowAt, EncodingAt, FieldLine;
    if k !in blocks { Untold(lines, live, i, k); }
    SaidOther(if k in blocks then blocks[k] else NO_DATA, lines, live, i, k);
  }

  lemma NothingSaid(lines: seq<PLine>, live: set<nat>, k: Kind)
    ensures DataSaid(NO_DATA, lines, live, 0, k)
  {
  }

  /** Nothing is said of a kind before its first header. */
  lemma {:induction false} Untold(lines: seq<PLine>, live: set<nat>, n: nat, k: Kind)
    requires !HasHead(lines, live, n, k)
    ensures DataSaid(NO_DATA, lines, live, n, k)
    decreases n
  {
    if n == 0 {
      NothingSaid(lines, live, k);
    } else {
      HasHeadMore(lines, live, n - 1, k);
      hide Under, HasHead, At, DataSaid;
      NotUnder(lines, live, n - 1, k);
      Untold(lines, live, n - 1, k);
      SaidOther(NO_DATA, lines, live, n - 1, k);
    }
  }

  /** The data of the kind being read, after one of its lines. */
  function NewData(d: Data, k: Kind, l: PLine, inProv: bool, v: string): Data {
    if l.indent == 8 && StartsWith(l.token, "encoding ") then d.(encoding := Prefix(l.token[9..], 7))
    else if l.indent == 8 && StartsWith(l.token, "row ") then d.(rows := ParseRow(k, d.rows, l.token[4..]))
    else if l.indent == 12 && inProv then d.(prov := SetField(d.prov, FieldName(l), v)) else d
  }

  lemma FirstLetters(s: string)
    ensures s == "provenance" ==> !StartsWith(s, "encoding ") && !StartsWith(s, "row ")
    ensures StartsWith(s, "encoding ") ==> !StartsWith(s, "row ")
  {
    if StartsWith(s, "encoding ") { assert s[0] == "encoding "[0]; }
    if StartsWith(s, "row ") { assert s[0] == "row "[0]; }
  }

  lemma BlockStepIs(st: PState, l: PLine, prose: string)
    requires InBlock(st, l) && st.cur.value in st.doc.blocks
    ensures var r := DataStep(st, l, prose);
      if l.indent > 12 then r == Err("unexpected indent")
      else
        var k, v := st.cur.value, if IsProse(FieldName(l)) then prose else TrimEnd(LineValue(l));
        r == Ok(PState(st.doc.(blocks := st.doc.blocks[k := NewData(st.doc.blocks[k], k, l, st.inProv, v)]), st.cur,
                       if l.indent == 8 then l.token == "provenance" else st.inProv))
  {
    FirstLetters(l.token);
    hide ParseRow, SetField, StartsWith, TrimEnd, LineValue, Prefix, IsProse;
    var k := st.cur.value;
    assert st.doc.blocks[k := st.doc.blocks[k]] == st.doc.blocks;
  }

  /** A line of the kind adds to the kind's data what it says. */
  lemma DataMore(d: Data, lines: seq<PLine>, live: set<nat>, i: nat, k: Kind)
    requires DataSaid(d, lines, live, i, k) && i in live && i < |lines| && Under(lines, live, i, k)
    ensures DataSaid(NewData(d, k, lines[i], InProv(lines, live, i), FieldValue(lines, i)), lines, live, i + 1, k)
  {
    var l := lines[i];
    FirstLetters(l.token);
    if RowAt(lines, live, i, k) {
      RowsMore(d.rows, lines, live, i, k);
      EncodingQuiet(lines, live, i, k);
      ProvQuiet(d.prov, lines, live, i, k);
    } else if EncodingAt(lines, live, i, k) {
      RowsQuiet(d.rows, lines, live, i, k);
      ProvQuiet(d.prov, lines, live, i, k);
    } else if FieldLine(lines, live, i, k) {
      RowsQuiet(d.rows, lines, live, i, k);
      EncodingQuiet(lines, live, i, k);
      FieldMore(d.prov, lines, live, i, k);
    } else {
      SaidOther(d, lines, live, i, k);
    }
    hide RowsSaid, Said, ProvOf, SaidAll, ParseRow, SetField, StartsWith, FieldValue, FieldName, Under, InProv, EncodingSaid;
    hide Prefix;
  }

  /** A line that belongs to the block of the kind being read. */
  lemma InnerLine(lines: seq<PLine>, live: set<nat>, i: nat, st: PState, prose: string)
    requires Stands(lines, live, i, st) && i in live && i < |lines| && InBlock(st, lines[i])
    requires TakesProse(st, lines[i]) ==> prose == ProseValue(lines[i..]).0
    ensures var r := DataStep(st, lines[i], prose);
      && LineFault(lines, live, i) == (if r.Ok? then None else Some(r.message))
      && (r.Ok? ==> Stands(lines, live, i + 1, r.value) && r.value.doc.name == st.doc.name)
  {
    var l, k := lines[i], st.cur.value;
    assert Under(lines, live, i, k) && UnderAny(lines, live, i);
    InnerKnown(lines, live, i, st, k);
    BlockStepIs(st, l, prose);
    ProseFields(FieldName(l));
    hide DataStep, BlocksSaid, NewData, IsProse, KeepsText;
    if l.indent <= 12 {
      var d, v := st.doc.blocks[k], if IsProse(FieldName(l)) then prose else TrimEnd(LineValue(l));
      SameNew(d, k, l, st.inProv, v, FieldValue(lines, i), TakesProse(st, l));
      DataMore(d, lines, live, i, k);
      hide *;
      assert st.inProv == InProv(lines, live, i);
      InnerBlocks(lines, live, i, st.doc.blocks, k, NewData(d, k, l, st.inProv, v));
      InnerStands(lines, live, i, st, DataStep(st, l, prose).value);
    }
  }

  lemma InnerKnown(lines: seq<PLine>, live: set<nat>, i: nat, st: PState, k: Kind)
    requires Stands(lines, live, i, st) && Under(lines, live, i, k)
    ensures k in st.doc.blocks && DataSaid(st.doc.blocks[k], lines, live, i, k)
  {
    hide DataSaid;
    if !HasHead(lines, live, i, k) { NotUnder(lines, live, i, k); }
    hide Under, HasHead;
  }

  lemma InnerBlocks(lines: seq<PLine>, live: set<nat>, i: nat, blocks: map<Kind, Data>, k: Kind, d: Data)
    requires BlocksSaid(blocks, lines, live, i) && Under(lines, live, i, k) && k in blocks
    requires !At(lines, live, i, 4) && DataSaid(d, lines, live, i + 1, k)
    ensures BlocksSaid(blocks[k := d], lines, live, i + 1)
  {
    hide At, DataSaid, HasHead;
    forall k'
      ensures HasHead(lines, live, i + 1, k') == HasHead(lines, live, i, k')
      ensures k' in blocks && k' != k ==> DataSaid(blocks[k'], lines, live, i + 1, k')
    {
      HasHeadMore(lines, live, i, k');
      if k' in blocks && k' != k {
        OtherKind(lines, live, i, k, k');
        SaidOther(blocks[k'], lines, live, i, k');
      }
    }
    hide Under, Heads;
  }

  lemma InnerStands(lines: seq<PLine>, live: set<nat>, i: nat, st: PState, st': PState)
    requires Stands(lines, live, i, st) && st.cur.Some? && i in live && i < |lines| && lines[i].indent >= 8
    requires st'.cur == st.cur && st'.inProv == (if lines[i].indent == 8 then lines[i].token == "provenance" else st.inProv)
    requires BlocksSaid(st'.doc.blocks, lines, live, i + 1)
    ensures Stands(lines, live, i + 1, st')
  {
    InProvMore(lines, live, i);
    hide BlocksSaid, InProv;
    forall k
      ensures Under(lines, live, i + 1, k) == Under(lines, live, i, k)
    {
      UnderMore(lines, live, i, k);
    }
    hide Under;
  }

  /** The value matters on field lines only. */
  lemma SameNew(d: Data, k: Kind, l: PLine, inProv: bool, v: string, w: string, prose: bool)
    requires l.indent == 12 && inProv ==> v == w
    ensures NewData(d, k, l, inProv, v) == NewData(d, k, l, inProv, w)
  {
  }

  lemma OtherKind(lines: seq<PLine>, live: set<nat>, i: nat, k: Kind, k': Kind)
    requires Under(lines, live, i, k) && k != k'
    ensures !RowAt(lines, live, i, k') && !EncodingAt(lines, live, i, k') && !FieldLine(lines, live, i, k')
  {
    if Under(lines, live, i, k') { UnderOne(lines, live, i, k, k'); }
  }

  /** Any line that counts. */
  lemma LiveStep(lines: seq<PLine>, live: set<nat>, i: nat, st: PState, prose: string)
    requires Stands(lines, live, i, st) && i in live && i < |lines|
    requires TakesProse(st, lines[i]) ==> prose == ProseValue(lines[i..]).0
    ensures var r := ContentStep(st, lines[i], prose);
      && LineFault(lines, live, i) == (if r.Ok? then None else Some(r.message))
      && (r.Ok? ==> Stands(lines, live, i + 1, r.value) && r.value.doc.name == st.doc.name)
  {
    var l := lines[i];
    if InBlock(st, l) {
      InnerLine(lines, live, i, st, prose);
    } else if l.indent == 4 {
      HeaderLine(lines, live, i, st);
    } else {
      assert UnderAny(lines, live, i) ==> st.cur.Some?;
    }
    hide Stands, DataStep, HeaderStep, Under;
  }

  // ----- the whole text -----

  lemma {:induction false} ScalarTaken(lines: seq<PLine>, i: nat, opener: nat)
    requires i <= |lines|
    ensures var n := ScalarLength(lines[i..], opener);
      && (forall m :: i <= m < i + n ==> Deeper(lines[m], opener))
      && (i + n < |lines| ==> !Deeper(lines[i + n], opener))
    decreases |lines| - i
  {
    if i < |lines| {
      assert lines[i..][1..] == lines[i + 1..];
      ScalarTaken(lines, i + 1, opener);
    }
  }

  /** Below an opener, the lines of its scalar do not count, and the line after them does again. */
  lemma ScalarLines(lines: seq<PLine>, live: set<nat>, i: nat)
    requires LiveSet(lines, live) && Opens(lines, live, i)
    ensures var n := ProseValue(lines[i..]).1;
      && i + n < |lines| && (forall m: nat :: i < m <= i + n ==> m !in live)
      && (i + n + 1 < |lines| ==> !Inside(lines, live, i + n + 1))
  {
    var opener, n := lines[i].indent, ScalarLength(lines[i + 1..], lines[i].indent);
    assert lines[i..][1..] == lines[i + 1..];
    assert lines[i] == lines[i..][0];
    ScalarTaken(lines, i + 1, opener);
    OpensLive(lines, live, i);
    hide Opens, Deeper, ScalarLength, OpensScalar, LineValue, JoinDedented;
    forall m: nat | i < m <= i + n
      ensures m !in live
    {
      assert AllDeeper(lines, i, m) && Inside(lines, live, m);
    }
    var z := i + n + 1;
    assert z < |lines| ==> !AllDeeper(lines, i, z);
    hide AllDeeper;
    if z < |lines| {
      forall j: nat | j < z
        ensures !Opens(lines, live, j) || !AllDeeper(lines, j, z)
      {
        if j < i { Longer(lines, j, i, z); } else if j > i { NotOpens(lines, live, j); }
      }
    }
  }

  lemma Longer(lines: seq<PLine>, j: nat, i: nat, z: nat)
    requires j < i <= z
    ensures !AllDeeper(lines, j, i) && z < |lines| ==> !AllDeeper(lines, j, z)
  {
  }

  lemma NotOpens(lines: seq<PLine>, live: set<nat>, i: nat)
    requires i !in live
    ensures !Opens(lines, live, i)
  {
    hide Under, InProv;
  }

  lemma OpensLive(lines: seq<PLine>, live: set<nat>, i: nat)
    requires Opens(lines, live, i)
    ensures i in live && i < |lines|
  {
    hide Under, InProv;
  }

  lemma NextOutside(lines: seq<PLine>, live: set<nat>, i: nat)
    requires i < |lines| && !Inside(lines, live, i) && !Opens(lines, live, i)
    ensures i + 1 < |lines| ==> !Inside(lines, live, i + 1)
  {
    hide Opens, AllDeeper;
    if i + 1 < |lines| {
      forall j: nat | j < i + 1
        ensures !Opens(lines, live, j) || !AllDeeper(lines, j, i + 1)
      {
        if j < i { Longer(lines, j, i, i + 1); }
      }
    }
  }

  lemma OpensIff(lines: seq<PLine>, live: set<nat>, i: nat, st: PState)
    requires Stands(lines, live, i, st) && i in live && i < |lines|
    ensures Opens(lines, live, i) <==> TakesProse(st, lines[i]) && OpensScalar(lines[i])
  {
    ProseFields(FieldName(lines[i]));
    hide BlocksSaid, Under, InProv, OpensScalar, IsProse, KeepsText, KwIs;
    if TakesProse(st, lines[i]) && InBlock(st, lines[i]) {
      assert ProseLine(lines, live, i, st.cur.value);
    }
  }

  lemma {:induction false} QuietLines(lines: seq<PLine>, live: set<nat>, i: nat, n: nat, st: PState)
    requires Stands(lines, live, i, st) && forall m: nat :: i <= m < i + n ==> m !in live
    ensures Stands(lines, live, i + n, st)
    decreases n
  {
    hide Stands;
    if n > 0 {
      Quiet(lines, live, i, st);
      QuietLines(lines, live, i + 1, n - 1, st);
    }
  }

  /** What reading the lines from number `i` on gives. */
  ghost predicate ReadFrom(lines: seq<PLine>, live: set<nat>, i: nat, name: string, r: Result<PState>) {
    if r.Ok? then NoFault(lines, live, i, |lines|) && r.value.doc.name == name && BlocksSaid(r.value.doc.blocks, lines, live, |lines|)
    else FirstFault(lines, live, i, r.message)
  }

  /** The message is that of the first line that is refused. */
  ghost predicate FirstFault(lines: seq<PLine>, live: set<nat>, i: nat, message: string) {
    exists j: nat :: i <= j < |lines| && NoFault(lines, live, i, j) && LineFault(lines, live, j) == Some(message)
  }

  lemma ReadOn(lines: seq<PLine>, live: set<nat>, i: nat, z: nat, name: string, r: Result<PState>)
    requires i <= z <= |lines| && NoFault(lines, live, i, z) && ReadFrom(lines, live, z, name, r)
    ensures ReadFrom(lines, live, i, name, r)
  {
    hide LineFault, BlocksSaid;
    if r.Err? {
      var j: nat :| z <= j < |lines| && NoFault(lines, live, z, j) && LineFault(lines, live, j) == Some(r.message);
      assert NoFault(lines, live, i, j);
    }
  }

  lemma QuietFault(lines: seq<PLine>, live: set<nat>, i: nat, z: nat)
    requires forall m: nat :: i <= m < z ==> m !in live
    ensures NoFault(lines, live, i, z)
  {
    hide Aside, HeadKind, UnderAny;
  }

  lemma {:induction false} ReadLines(lines: seq<PLine>, live: set<nat>, i: nat, st: PState)
    requires LiveSet(lines, live) && i <= |lines| && Stands(lines, live, i, st)
    requires i < |lines| ==> !Inside(lines, live, i)
    ensures ReadFrom(lines, live, i, st.doc.name, ParseLines(lines[i..], st))
    decreases |lines| - i
  {
    hide Inside, ProseValue, ContentStep, TakesProse, Opens, OpensScalar, BlocksSaid, LineFault;
    if i == |lines| {
      assert lines[i..] == [];
      assert NoFault(lines, live, i, i);
    } else {
      var rest := lines[i..];
      assert rest[0] == lines[i];
      var name, r := st.doc.name, ParseLines(rest, st);
      if lines[i].cls != Content {
        assert rest[1..] == lines[i + 1..];
        if Opens(lines, live, i) { OpensLive(lines, live, i); }
        NextOutside(lines, live, i);
        Quiet(lines, live, i, st);
        QuietFault(lines, live, i, i + 1);
        ReadLines(lines, live, i + 1, st);
        ReadOn(lines, live, i, i + 1, name, r);
      } else {
        var (prose, more) := if TakesProse(st, lines[i]) then ProseValue(rest) else ("", 0);
        LiveStep(lines, live, i, st, prose);
        var c := ContentStep(st, lines[i], prose);
        if c.Err? {
          assert NoFault(lines, live, i, i);
        } else {
          OpensIff(lines, live, i, st);
          AfterProse(lines, live, i, more);
          var z := i + more + 1;
          assert rest[1 + more..] == lines[z..];
          QuietLines(lines, live, i + 1, more, c.value);
          ReadLines(lines, live, z, c.value);
          QuietFault(lines, live, i + 1, z);
          ReadOn(lines, live, i + 1, z, name, r);
          ReadOn(lines, live, i, i + 1, name, r);
        }
      }
    }
  }

  lemma AfterProse(lines: seq<PLine>, live: set<nat>, i: nat, more: nat)
    requires LiveSet(lines, live) && i in live && i < |lines|
    requires more == 0 || more == ProseValue(lines[i..]).1
    requires Opens(lines, live, i) ==> more == ProseValue(lines[i..]).1
    requires !Opens(lines, live, i) && more > 0 ==> !OpensScalar(lines[i])
    ensures i + more < |lines| && (forall m: nat :: i < m <= i + more ==> m !in live)
    ensures i + more + 1 < |lines| ==> !Inside(lines, live, i + more + 1)
  {
    if Opens(lines, live, i) {
      ScalarLines(lines, live, i);
    } else {
      assert !Inside(lines, live, i);
      NextOutside(lines, live, i);
      assert lines[i..][0] == lines[i];
    }
  }

  ghost predicate Starts(lines: seq<PLine>, h: nat) {
    h < |lines| && lines[h].cls == Content && (forall j :: 0 <= j < h ==> lines[j].cls != Content)
  }

  predicate Names(l: PLine) { StartsWith(l.token, "analysis ") }

  /** The name is what follows the keyword and the spaces after it. */
  ghost predicate NameAfter(token: string, n: nat, name: string) {
    token == "analysis " + Spaces(n) + name && (name != "" ==> name[0] != ' ')
  }

  /** What reading a text gives whose first content line is line `h`: that line names the bundle, and the lines below it
      say what is in it. */
  ghost predicate HeadSaid(r: Result<Doc>, lines: seq<PLine>, h: nat)
    requires h < |lines|
  {
    if !Names(lines[h]) then r == Err("expected 'analysis NAME' header")
    else
      var body := lines[h + 1..];
      BodySaid(r, lines[h].token, body, LiveLines(body, |body|))
  }

  ghost predicate BodySaid(r: Result<Doc>, token: string, body: seq<PLine>, live: set<nat>) {
    && LiveSet(body, live)
    && if r.Ok? then
         && NoFault(body, live, 0, |body|)
         && (exists n :: NameAfter(token, n, r.value.name))
         && BlocksSaid(r.value.blocks, body, live, |body|)
       else FirstFault(body, live, 0, r.message)
  }

  ghost predicate TextSaid(r: Result<Doc>, lines: seq<PLine>) {
    && (forall h: nat :: Starts(lines, h) ==> HeadSaid(r, lines, h))
    && ((forall h: nat :: !Starts(lines, h)) ==> r == Err("empty bundle"))
  }

  lemma {:induction false} SkipIs(lines: seq<PLine>)
    ensures forall j :: 0 <= j < LeadingSkip(lines) ==> lines[j].cls != Content
    decreases |lines|
  {
    if lines != [] { SkipIs(lines[1..]); }
  }

  lemma {:induction false} DropSpaces(s: string)
    ensures var n := LeadingSpaces(s); s == Spaces(n) + s[n..] && (s[n..] != "" ==> s[n] != ' ')
    decreases s
  {
    if s != [] && s[0] == ' ' {
      DropSpaces(s[1..]);
      var n := LeadingSpaces(s[1..]);
      assert s[1..][n..] == s[n + 1..];
      assert Spaces(n + 1) == " " + Spaces(n);
      assert s == [s[0]] + s[1..];
    }
  }

  lemma NameIs(token: string)
    requires StartsWith(token, "analysis ")
    ensures var rest := token[9..]; NameAfter(token, LeadingSpaces(rest), rest[LeadingSpaces(rest)..])
  {
    var rest := token[9..];
    DropSpaces(rest);
    var n := LeadingSpaces(rest);
    assert token == "analysis " + rest;
    assert "analysis " + (Spaces(n) + rest[n..]) == "analysis " + Spaces(n) + rest[n..];
  }

  /** What the reader makes of every text: which are refused and why, and what is read from the others. */
  lemma ParseMeans(text: string)
    ensures TextSaid(Parse(text), ToPLines(Lines(text)))
  {
    hide ToPLines, Lines;
    var lines := ToPLines(Lines(text));
    var h := LeadingSkip(lines);
    SkipIs(lines);
    hide LeadingSkip;
    if h < |lines| {
      assert Starts(lines, h);
      forall g: nat | Starts(lines, g)
        ensures g == h
      {
      }
      HeadMeans(text, lines, h);
    }
    hide HeadSaid, Parse;
  }

  lemma HeadMeans(text: string, lines: seq<PLine>, h: nat)
    requires lines == ToPLines(Lines(text)) && h == LeadingSkip(lines) < |lines|
    ensures HeadSaid(Parse(text), lines, h)
  {
    hide ToPLines, Lines, LeadingSkip, ParseLines, BodySaid, LiveLines;
    if Names(lines[h]) {
      var token, body := lines[h].token, lines[h + 1..];
      var rest := token[9..];
      BodyMeans(body, token);
    }
  }

  lemma BodyMeans(body: seq<PLine>, token: string)
    requires StartsWith(token, "analysis ")
    ensures var rest := token[9..];
      var r := ParseLines(body, PState(Doc(rest[LeadingSpaces(rest)..], map[]), None, false));
      BodySaid(if r.Err? then Err(r.message) else Ok(r.value.doc), token, body, LiveLines(body, |body|))
  {
    var rest := token[9..];
    var live, name := LiveLines(body, |body|), rest[LeadingSpaces(rest)..];
    NameIs(token);
    LiveIs(body);
    StandsFirst(body, live, name);
    assert body[0..] == body;
    NoneInside(body, live);
    ReadLines(body, live, 0, PState(Doc(name, map[]), None, false));
    hide ParseLines, LiveSet, BlocksSaid, NameAfter, NoFault, LeadingSpaces, LiveLines, FirstFault;
  }

  lemma NoneInside(lines: seq<PLine>, live: set<nat>)
    ensures !Inside(lines, live, 0)
  {
  }

  lemma StandsFirst(lines: seq<PLine>, live: set<nat>, name: string)
    ensures Stands(lines, live, 0, PState(Doc(name, map[]), None, false))
  {
  }

  // ----- one line -----

  predicate AllBlank(s: string) { forall i :: 0 <= i < |s| ==> IsBlank(s[i]) }

  /** What a line is: its text without one carriage return at its end, its indent, what stands after it without the blanks
      at the end, and its class. */
  ghost predicate LineIs(l: PLine, line: string) {
    && (if line != "" && line[|line| - 1] == '\r' then line == l.raw + "\r" else line == l.raw)
    && (l.cls == Blank <==> l.raw == "")
    && (l.cls == Comment <==> l.raw != "" && l.raw[0] == '#')
    && (l.cls == White <==> l.raw != "" && AllBlank(l.raw))
    && (l.cls == Content ==>
          && (exists tail :: AllBlank(tail) && l.raw == Spaces(l.indent) + l.token + tail)
          && l.token != "" && l.token[0] != ' ' && !IsBlank(l.token[|l.token| - 1]))
  }

  lemma {:induction false} TrimEndIs(s: string)
    ensures var t := TrimEnd(s); AllBlank(s[|t|..]) && (t != "" ==> !IsBlank(t[|t| - 1])) && (t == "" <==> AllBlank(s))
    decreases |s|
  {
    if s != [] && IsBlank(s[|s| - 1]) {
      var init := s[..|s| - 1];
      TrimEndIs(init);
      var t := TrimEnd(init);
      forall i | |t| <= i < |s|
        ensures IsBlank(s[i])
      {
        assert i < |s| - 1 ==> s[i] == init[|t|..][i - |t|];
      }
      assert AllBlank(s) ==> AllBlank(init);
    }
  }

  /** A text after its leading spaces, without the blanks at its end. */
  lemma BodyIs(raw: string)
    ensures var p := LeadingSpaces(raw);
      var t := TrimEnd(raw[p..]);
      && (t == "" <==> AllBlank(raw))
      && (t != "" ==> t[0] != ' ' && !IsBlank(t[|t| - 1]))
      && exists tail :: AllBlank(tail) && raw == Spaces(p) + t + tail
  {
    var p := LeadingSpaces(raw);
    DropSpaces(raw);
    TrimEndIs(raw[p..]);
    BlankBody(raw, p, raw[p..]);
    hide LeadingSpaces, TrimEnd, AllBlank, IsBlank;
    Tail(raw, p, raw[p..], TrimEnd(raw[p..]));
  }

  lemma Tail(raw: string, p: nat, body: string, t: string)
    requires raw == Spaces(p) + body && t <= body && AllBlank(body[|t|..])
    ensures exists tail :: AllBlank(tail) && raw == Spaces(p) + t + tail
  {
    hide AllBlank;
    var tail := body[|t|..];
    assert body == t + tail;
    Left(Spaces(p), t, tail);
  }

  lemma Left(a: string, b: string, c: string)
    ensures a + (b + c) == a + b + c
  {
  }

  lemma BlankBody(raw: string, p: nat, body: string)
    requires raw == Spaces(p) + body
    ensures AllBlank(raw) <==> AllBlank(body)
  {
    assert forall i :: 0 <= i < |body| ==> body[i] == raw[p + i];
    assert forall i :: 0 <= i < p ==> raw[i] == ' ';
  }

  lemma LineMeans(line: string)
    ensures LineIs(ToPLine(line), line)
  {
    BodyIs(DropCR(line));
    hide LeadingSpaces, TrimEnd, AllBlank;
    var raw, l := DropCR(line), ToPLine(line);
    if raw != "" && AllBlank(raw) { FirstBlank(raw); }
  }

  lemma FirstBlank(s: string)
    requires s != "" && AllBlank(s)
    ensures IsBlank(s[0])
  {
  }

  // ----- prose values -----

  /** How many blanks a text starts with. */
  predicate BlankStart(s: string, d: nat) { d <= |s| && AllBlank(s[..d]) && (d < |s| ==> !IsBlank(s[d])) }

  /** The lines without their first `d` bytes. */
  function Dedented(lines: seq<PLine>, d: nat): (r: seq<string>)
    ensures |r| == |lines|
  {
    seq(|lines|, m requires 0 <= m < |lines| => if |lines[m].raw| < d then "" else lines[m].raw[d..])
  }

  lemma {:induction false} JoinIs(lines: seq<PLine>, d: nat)
    requires lines != []
    ensures JoinDedented(lines, d) + "\n" == Unlines(Dedented(lines, d))
    decreases |lines|
  {
    var all := Dedented(lines, d);
    assert all[1..] == Dedented(lines[1..], d);
    if |lines| > 1 {
      JoinIs(lines[1..], d);
      var text, rest := all[0], JoinDedented(lines[1..], d);
      assert text + "\n" + rest + "\n" == text + "\n" + (rest + "\n");
    } else {
      assert all[1..] == [];
    }
  }

  lemma {:induction false} BlanksCounted(s: string)
    ensures LeadingBlanks(s) <= |s| && BlankStart(s, LeadingBlanks(s))
    decreases s
  {
    if s != [] && IsBlank(s[0]) {
      BlanksCounted(s[1..]);
      var d := LeadingBlanks(s[1..]);
      forall i | 0 <= i < d + 1
        ensures IsBlank(s[i])
      {
        assert i > 0 ==> s[i] == s[1..][..d][i - 1];
      }
    }
  }

  /** The lines without the blanks that the first of them starts with, with a newline between each and the next. */
  ghost predicate ScalarIs(taken: seq<PLine>, v: string)
    requires taken != []
  {
    exists d :: BlankStart(taken[0].raw, d) && v + "\n" == Unlines(Dedented(taken, d))
  }

  /** A prose value: what its line says, or the lines below it as far as they are deeper, without the blanks that the first
      of them starts with. */
  ghost predicate ProseIs(lines: seq<PLine>, v: string, n: nat)
    requires lines != []
  {
    if !OpensScalar(lines[0]) then n == 0 && v == LineValue(lines[0])
    else
      && n < |lines| && (forall m :: 1 <= m <= n ==> Deeper(lines[m], lines[0].indent))
      && (n + 1 < |lines| ==> !Deeper(lines[n + 1], lines[0].indent))
      && if n == 0 then v == ""
         else ScalarIs(lines[1..n + 1], v)
  }

  lemma ProseMeans(lines: seq<PLine>)
    requires lines != []
    ensures ProseIs(lines, ProseValue(lines).0, ProseValue(lines).1)
  {
    var n := ScalarLength(lines[1..], lines[0].indent);
    ScalarTaken(lines, 1, lines[0].indent);
    ScalarFrom(lines, n);
    hide ScalarLength, OpensScalar, LineValue, Deeper, JoinDedented, LeadingBlanks, ScalarIs;
  }

  lemma ScalarFrom(lines: seq<PLine>, n: nat)
    requires n < |lines|
    ensures n > 0 ==> ScalarIs(lines[1..n + 1], JoinDedented(lines[1..n + 1], LeadingBlanks(lines[1].raw)))
  {
    if n > 0 {
      ScalarText(lines[1..n + 1]);
      assert lines[1..n + 1][0] == lines[1];
    }
    hide JoinDedented, LeadingBlanks, ScalarIs;
  }

  lemma ScalarText(taken: seq<PLine>)
    requires taken != []
    ensures ScalarIs(taken, JoinDedented(taken, LeadingBlanks(taken[0].raw)))
  {
    var d := LeadingBlanks(taken[0].raw);
    BlanksCounted(taken[0].raw);
    JoinIs(taken, d);
    hide JoinDedented, LeadingBlanks, BlankStart, Dedented, Unlines;
  }
}
