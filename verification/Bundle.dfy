/** The bundle text: what the writer prints and what the reader makes of a text (analyze/count.c). */
module Bundle {
  import opened Bits
  import opened Rows
  import opened Text
  import opened KindBlock

  datatype Prov = Prov(
    source: Option<string>, retrieved: Option<string>, bytes: Option<int>, sha256: Option<string>,
    url: Option<string>, ref: Option<string>, license: Option<string>, fidelity: Option<string>,
    adaptation: Option<string>, licenseNote: Option<string>, attribution: Option<string>)

  const NO_PROV := Prov(None, None, None, None, None, None, None, None, None, None, None)

  /** One kind's rows, encoding class and provenance. */
  datatype Data = Data(rows: Rows, encoding: string, prov: Prov)

  const NO_DATA := Data(map[], "", NO_PROV)

  /** A bundle holds the kinds that are present in it. */
  datatype Doc = Doc(name: string, blocks: map<Kind, Data>)

  const CANONICAL := [Freq, Cpfreq, Bigram]

  function KindName(k: Kind): string {
    match k case Freq => "freq" case Cpfreq => "cpfreq" case Bigram => "bigram"
  }

  // ----- the writer -----

  /** The `when` list and the `via` derivation of a `serves` line. */
  function DeriveServes(k: Kind, encoding: string, hasCpfreq: bool): (string, string) {
    var au := encoding == "ascii" || encoding == "utf8";
    match k
    case Bigram => (if au then "byte,utf8" else "byte", "markov1")
    case Freq => (if !hasCpfreq && au then "byte,utf8" else "byte", "unigram")
    case Cpfreq => ("utf8", "encode-utf8")
  }

  function Question(k: Kind): string {
    "How often does each " + Unit(k) + " occur in this exemplar?"
  }

  function Unit(k: Kind): string {
    match k case Freq => "byte" case Cpfreq => "Unicode code point" case Bigram => "adjacent byte pair"
  }

  function Query(k: Kind): string { if k == Bigram then "run-rarity" else "byte-rate" }

  /** byte_key, pair_key and cp_key. */
  function KeyText(k: Kind, key: nat): string {
    match k
    case Freq => Hex(key % 256, 2, false)
    case Bigram => Hex(key / 256 % 256, 2, false) + " " + Hex(key % 256, 2, false)
    case Cpfreq => "U+" + Hex(key, if key <= 0xFFFF then 4 else if key <= 0xFFFFF then 5 else 6, true)
  }

  /** `%*s%s %s`: a keyword line. */
  function Kv(pad: nat, kw: string, v: string): string { Spaces(pad) + kw + " " + v }

  function RowLine(k: Kind, r: Row): string { Kv(8, "row", KeyText(k, r.key) + " " + Dec(r.count)) }

  function RowLines(k: Kind, rows: seq<Row>): (lines: seq<string>)
    ensures |lines| == |rows|
  {
    if rows == [] then [] else [RowLine(k, rows[0])] + RowLines(k, rows[1..])
  }

  /** `%lld`. */
  function Signed(n: int): string { if n < 0 then "-" + Dec(-n) else Dec(n) }

  function SourceText(p: Prov): string {
    if p.source.Some? && p.source.value != "" then p.source.value else "exemplar"
  }

  /** The section sign is two bytes in the source's encoding. */
  const READER_NOTE: string := " (docs/spec/findings.md " + ['\U{C2}', '\U{A7}'] + "4)"

  function HeadLines(k: Kind, encoding: string, hasCpfreq: bool, csv: string): seq<string> {
    var (when, via) := DeriveServes(k, encoding, hasCpfreq);
    [Spaces(4) + KindName(k),
     Kv(8, "question", Question(k)),
     Kv(8, "reader", Query(k) + READER_NOTE),
     Kv(8, "analyzer", "pcrec-analyze 0.1 --scan " + csv),
     Kv(8, "encoding", encoding),
     Kv(8, "serves", Query(k) + " when " + when + " via " + via)]
  }

  /** The provenance fields in the order they are printed. */
  function Fields(p: Prov): seq<(string, Option<string>)> {
    [("source", Some(SourceText(p))), ("retrieved", p.retrieved),
     ("bytes", if p.bytes.Some? then Some(Signed(p.bytes.value)) else None), ("sha256", p.sha256), ("url", p.url),
     ("ref", p.ref), ("license", p.license), ("fidelity", p.fidelity), ("adaptation", p.adaptation)]
  }

  function FieldLines(fields: seq<(string, Option<string>)>): seq<string> {
    if fields == [] then []
    else (if fields[0].1.Some? then [Kv(12, fields[0].0, fields[0].1.value)] else []) + FieldLines(fields[1..])
  }

  function ProvLines(p: Prov): seq<string> { [Spaces(8) + "provenance"] + FieldLines(Fields(p)) }

  ghost function BlockLines(k: Kind, d: Data, hasCpfreq: bool, csv: string): seq<string> {
    HeadLines(k, d.encoding, hasCpfreq, csv) + RowLines(k, Listing(d.rows)) + ProvLines(d.prov)
  }

  /** The present kinds' names in canonical order. */
  function ScanCsv(present: set<Kind>, kinds: seq<Kind>): string {
    if kinds == [] then ""
    else
      var rest := ScanCsv(present, kinds[1..]);
      if kinds[0] !in present then rest
      else if rest == "" then KindName(kinds[0]) else KindName(kinds[0]) + "," + rest
  }

  ghost function BlocksLines(doc: Doc, kinds: seq<Kind>): seq<string> {
    if kinds == [] then []
    else (if kinds[0] in doc.blocks
          then BlockLines(kinds[0], doc.blocks[kinds[0]], Cpfreq in doc.blocks, ScanCsv(doc.blocks.Keys, CANONICAL))
          else []) + BlocksLines(doc, kinds[1..])
  }

  ghost function RenderLines(doc: Doc): seq<string> {
    ["analysis " + doc.name] + BlocksLines(doc, CANONICAL)
  }

  ghost function Render(doc: Doc): string { Unlines(RenderLines(doc)) }

  // ----- the reader: line classes -----

  datatype Class = Blank | Comment | White | Content
  datatype PLine = PLine(indent: nat, token: string, raw: string, cls: Class)

  function LeadingSpaces(s: string): (n: nat)
    ensures n <= |s|
  {
    if s != [] && s[0] == ' ' then 1 + LeadingSpaces(s[1..]) else 0
  }

  /** Without trailing spaces and tabs. */
  function TrimEnd(s: string): (t: string)
    ensures t <= s
  {
    if s != [] && IsBlank(s[|s| - 1]) then TrimEnd(s[..|s| - 1]) else s
  }

  function DropCR(s: string): string {
    if s != [] && s[|s| - 1] == '\r' then s[..|s| - 1] else s
  }

  function ToPLine(line: string): PLine {
    var raw := DropCR(line);
    var p := LeadingSpaces(raw);
    var body := TrimEnd(raw[p..]);
    var cls := if raw == "" then Blank else if raw[0] == '#' then Comment else if body == "" then White else Content;
    PLine(p, if cls == Content then body else "", raw, cls)
  }

  function ToPLines(lines: seq<string>): (r: seq<PLine>)
    ensures |r| == |lines|
  {
    if lines == [] then [] else [ToPLine(lines[0])] + ToPLines(lines[1..])
  }

  /** The bytes before the first space or tab, and what follows the spaces and tabs after them. */
  function FirstWord(s: string): (w: string)
    ensures w <= s
  {
    if s == [] || IsBlank(s[0]) then [] else [s[0]] + FirstWord(s[1..])
  }

  function DropBlanks(s: string): string {
    if s != [] && IsBlank(s[0]) then DropBlanks(s[1..]) else s
  }

  function LineValue(l: PLine): string {
    if l.indent > |l.raw| then ""
    else var s := l.raw[l.indent..]; DropBlanks(s[|FirstWord(s)|..])
  }

  predicate KwIs(l: PLine, kw: string) {
    StartsWith(l.token, kw) && (|l.token| == |kw| || IsBlank(l.token[|kw|]))
  }

  // ----- the reader: block scalars -----

  /** How many of the lines belong to the block scalar below an opener of this indent. */
  function ScalarLength(lines: seq<PLine>, opener: nat): (n: nat)
    ensures n <= |lines|
  {
    if lines == [] || lines[0].cls in {Blank, Comment} || (lines[0].cls == Content && lines[0].indent <= opener) then 0
    else 1 + ScalarLength(lines[1..], opener)
  }

  function LeadingBlanks(s: string): nat {
    if s != [] && IsBlank(s[0]) then 1 + LeadingBlanks(s[1..]) else 0
  }

  /** The lines without their common indent, joined by newlines. */
  function JoinDedented(lines: seq<PLine>, dedent: nat): string {
    if lines == [] then ""
    else
      var raw := lines[0].raw;
      var text := raw[if |raw| < dedent then |raw| else dedent..];
      if |lines| == 1 then text else text + "\n" + JoinDedented(lines[1..], dedent)
  }

  predicate OpensScalar(l: PLine) { TrimEnd(LineValue(l)) == "|" }

  /** A prose value that opens on `lines[0]`, and how many further lines it takes. */
  function ProseValue(lines: seq<PLine>): (r: (string, nat))
    requires lines != []
    ensures r.1 < |lines|
  {
    var v := LineValue(lines[0]);
    if !OpensScalar(lines[0]) then (v, 0)
    else
      var n := ScalarLength(lines[1..], lines[0].indent);
      (if n == 0 then "" else JoinDedented(lines[1..n + 1], LeadingBlanks(lines[1].raw)), n)
  }

  // ----- the reader: rows -----

  /** The words of a row, split at spaces, the first four only, each cut to 39 bytes. */
  function Tokens(s: string, limit: nat): (r: seq<string>)
    ensures |r| <= limit
    decreases |s|, limit
  {
    if s == [] || limit == 0 then []
    else if s[0] == ' ' then Tokens(s[1..], limit)
    else
      var n := WordLength(s);
      [s[..if n < 39 then n else 39]] + Tokens(s[n..], limit - 1)
  }

  function WordLength(s: string): (n: nat)
    ensures n <= |s| && (s != [] && s[0] != ' ' ==> n >= 1)
  {
    if s == [] || s[0] == ' ' then 0 else 1 + WordLength(s[1..])
  }

  /** `strtoull` over digits: it saturates. */
  function ParseCount(s: string): u64 {
    var v := DecValue(s, 0);
    if v < U64 then v else U64 - 1
  }

  function ParseHexWord(s: string): u64 {
    var v := HexValue(s, 0);
    if v < U64 then v else U64 - 1
  }

  function ParseRow(k: Kind, rows: Rows, rest: string): Rows {
    var toks := Tokens(rest, 4);
    if |toks| < 2 then rows
    else
      var count := ParseCount(toks[|toks| - 1]);
      match k
      case Freq => Add(rows, ParseHexWord(toks[0]) % 256, count)
      case Bigram => Add(rows, ParseHexWord(toks[0]) % 256 * 256 + ParseHexWord(toks[1]) % 256, count)
      case Cpfreq =>
        var key := if StartsWith(toks[0], "U+") then toks[0][2..] else toks[0];
        Add(rows, ParseHexWord(key) % 0x1_0000_0000, count)
  }

  // ----- the reader: provenance -----

  const LL_MAX := 0x7FFF_FFFF_FFFF_FFFF

  /** `strtoll` over an optional minus sign and digits: it saturates. */
  function ParseSigned(s: string): int {
    if s != [] && s[0] == '-' then
      var v: int := DecValue(s[1..], 0);
      if v > LL_MAX + 1 then -LL_MAX - 1 else -v
    else
      var v := DecValue(s, 0);
      if v > LL_MAX then LL_MAX else v
  }

  function Prefix(s: string, n: nat): string { if |s| <= n then s else s[..n] }

  predicate IsProse(field: string) { field in {"license-note", "adaptation", "attribution"} }

  function SetField(p: Prov, field: string, v: string): Prov {
    if field == "source" then p.(source := Some(v))
    else if field == "retrieved" then p.(retrieved := Some(v))
    else if field == "bytes" then p.(bytes := Some(ParseSigned(v)))
    else if field == "sha256" then p.(sha256 := Some(Prefix(v, 64)))
    else if field == "url" then p.(url := Some(v))
    else if field == "ref" then p.(ref := Some(v))
    else if field == "license" then p.(license := Some(v))
    else if field == "fidelity" then p.(fidelity := Some(v))
    else if field == "adaptation" then p.(adaptation := Some(v))
    else if field == "license-note" then p.(licenseNote := Some(v))
    else if field == "attribution" then p.(attribution := Some(v))
    else p
  }

  // ----- the reader: the whole text -----

  /** `cur` is the kind block being read, `inProv` whether its provenance lines are. */
  datatype PState = PState(doc: Doc, cur: Option<Kind>, inProv: bool)

  function KindOf(s: string): Option<Kind> {
    if s == "freq" then Some(Freq) else if s == "cpfreq" then Some(Cpfreq)
    else if s == "bigram" then Some(Bigram) else None
  }

  function CurData(st: PState): Data
    requires st.cur.Some?
  {
    if st.cur.value in st.doc.blocks then st.doc.blocks[st.cur.value] else NO_DATA
  }

  function SetData(st: PState, d: Data): PState
    requires st.cur.Some?
  {
    st.(doc := st.doc.(blocks := st.doc.blocks[st.cur.value := d]))
  }

  /** A content line at indent 4: a bundle line or a kind header. */
  function HeaderStep(st: PState, l: PLine): Result<PState> {
    if KwIs(l, "include") || KwIs(l, "description") then Ok(st.(cur := None))
    else
      var k := KindOf(l.token[..WordLength(l.token)]);
      if k.None? then Err("unknown kind")
      else var st' := PState(st.doc, k, false); Ok(SetData(st', CurData(st')))
  }

  /** A content line of the kind block, indented by 8 or more; `prose` is its value where it is a prose field. */
  function DataStep(st: PState, l: PLine, prose: string): Result<PState>
    requires st.cur.Some?
  {
    var d := CurData(st);
    if l.indent == 8 then
      var st' := st.(inProv := l.token == "provenance");
      if l.token == "provenance" then Ok(st')
      else if StartsWith(l.token, "encoding ") then Ok(SetData(st', d.(encoding := Prefix(l.token[9..], 7))))
      else if StartsWith(l.token, "row ") then Ok(SetData(st', d.(rows := ParseRow(st.cur.value, d.rows, l.token[4..]))))
      else Ok(st')
    else if l.indent == 12 && st.inProv then
      var field := Prefix(FirstWord(l.token), 31);
      var v := if IsProse(field) then prose else TrimEnd(LineValue(l));
      Ok(SetData(st, d.(prov := SetField(d.prov, field, v))))
    else if l.indent > 12 then Err("unexpected indent")
    else Ok(st)
  }

  predicate InBlock(st: PState, l: PLine) { st.cur.Some? && l.indent >= 8 }

  /** Whether the line's value may run on over the lines below it. */
  predicate TakesProse(st: PState, l: PLine) {
    if InBlock(st, l) then l.indent == 12 && st.inProv && IsProse(Prefix(FirstWord(l.token), 31))
    else l.indent == 4 && !KwIs(l, "include") && KwIs(l, "description")
  }

  function ContentStep(st: PState, l: PLine, prose: string): Result<PState> {
    if InBlock(st, l) then DataStep(st, l, prose)
    else if l.indent != 4 then Err("expected a kind header at indent 4")
    else HeaderStep(st, l)
  }

  function ParseLines(lines: seq<PLine>, st: PState): Result<PState>
    decreases |lines|
  {
    if lines == [] then Ok(st)
    else if lines[0].cls != Content then ParseLines(lines[1..], st)
    else
      var (prose, more) := if TakesProse(st, lines[0]) then ProseValue(lines) else ("", 0);
      var r := ContentStep(st, lines[0], prose);
      if r.Err? then r else ParseLines(lines[1 + more..], r.value)
  }

  function LeadingSkip(lines: seq<PLine>): (n: nat)
    ensures n <= |lines| && (n < |lines| ==> lines[n].cls == Content)
  {
    if lines == [] || lines[0].cls == Content then 0 else 1 + LeadingSkip(lines[1..])
  }

  function Parse(text: string): Result<Doc> {
    var lines := ToPLines(Lines(text));
    var i := LeadingSkip(lines);
    if i == |lines| then Err("empty bundle")
    else if !StartsWith(lines[i].token, "analysis ") then Err("expected 'analysis NAME' header")
    else
      var rest := lines[i].token[9..];
      var name := rest[LeadingSpaces(rest)..];
      var r := ParseLines(lines[i + 1..], PState(Doc(name, map[]), None, false));
      if r.Err? then Err(r.message) else Ok(r.value.doc)
  }
}
