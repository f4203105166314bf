/** The analyzer's commands (analyze/main.c): scan a window, merge parts, check a recount. */
module Analyze {
  import opened Bits
  import opened Rows
  import opened Text
  import opened KindBlock
  import opened Bundle
  import opened RoundTrip
  import opened Shards
  import opened Utf8
  import opened Decoder
  import Sha256
  import Sha256Functions

  datatype Args = Args(
    name: string, source: Option<string>, retrieved: Option<string>, url: Option<string>, ref: Option<string>,
    license: Option<string>, fidelity: Option<string>, adaptation: Option<string>)

  /** The whole file, or shard `k` of `n`. */
  datatype Shard = Whole | Part(k: nat, n: nat)

  predicate ShardOk(size: nat, sh: Shard) { sh.Part? ==> 1 <= sh.k <= sh.n && NoWrap(size, sh.n) }

  // ----- the three windows of a scan -----

  function FreqWindow(data: seq<byte>, sh: Shard): seq<byte>
    requires ShardOk(|data|, sh)
  {
    if sh.Whole? then data
    else
      CutsRise(|data|, sh.k - 1, sh.n);
      data[Cut(|data|, sh.k - 1, sh.n)..Cut(|data|, sh.k, sh.n)]
  }

  function PairWindow(data: seq<byte>, sh: Shard): seq<byte>
    requires ShardOk(|data|, sh)
  {
    if sh.Whole? then data
    else
      BigramWindow(data, sh.k, sh.n);
      var (s, e) := BigramRange(|data|, sh.k, sh.n);
      data[s..e]
  }

  function CpWindow(data: seq<byte>, sh: Shard): seq<byte>
    requires ShardOk(|data|, sh)
  {
    if sh.Whole? then data else CpfreqWindow(data, sh.k, sh.n)
  }

  /** The keys one kind counts. */
  function KeysOf(k: Kind, data: seq<byte>, sh: Shard): seq<nat>
    requires ShardOk(|data|, sh)
  {
    match k
    case Freq => FreqWindow(data, sh)
    case Bigram => PairKeys(PairWindow(data, sh))
    case Cpfreq => Decode(CpWindow(data, sh)).scalars
  }

  // ----- scan -----

  function ScanProv(args: Args, data: seq<byte>, sh: Shard): Prov
    requires ShardOk(|data|, sh)
  {
    Prov(if args.source.Some? then args.source else Some("exemplar"), args.retrieved,
         Some(|FreqWindow(data, sh)|), if sh.Whole? then Some(Sha256.HexDigest(data)) else None,
         args.url, args.ref, args.license, args.fidelity, args.adaptation, None, None)
  }

  function ScanData(args: Args, k: Kind, data: seq<byte>, sh: Shard): Data
    requires ShardOk(|data|, sh)
  {
    Data(Tally(KeysOf(k, data, sh)), Classify(CpWindow(data, sh)), ScanProv(args, data, sh))
  }

  /** The bundle of one scan; counting code points refuses a window that does not decode. */
  function Scan(args: Args, kinds: set<Kind>, data: seq<byte>, sh: Shard): Result<Doc>
    requires ShardOk(|data|, sh)
  {
    if Cpfreq in kinds && !Valid(CpWindow(data, sh)) then Err("--scan cpfreq requires valid UTF-8 input")
    else Ok(Doc(args.name, map k | k in kinds :: ScanData(args, k, data, sh)))
  }

  // ----- merge -----

  /** The seven provenance fields on which parts must agree. */
  function Agreed(p: Prov): (r: seq<Option<string>>)
    ensures |r| == 7
  {
    [p.source, p.retrieved, p.url, p.ref, p.license, p.fidelity, p.adaptation]
  }

  /** What has been gathered for one kind. */
  datatype Acc = Acc(have: bool, rows: Rows, encoding: string, fields: seq<Option<string>>, conflict: seq<bool>,
                     bytesSum: int, anyBytes: bool)

  const NO_FIELDS: seq<Option<string>> := [None, None, None, None, None, None, None]
  const NO_CONFLICT := [false, false, false, false, false, false, false]
  const NO_ACC := Acc(false, map[], "", NO_FIELDS, NO_CONFLICT, 0, false)

  function FirstValue(f: Option<string>, v: Option<string>): Option<string> { if f.Some? then f else v }
  predicate Disagrees(f: Option<string>, v: Option<string>) { f.Some? && v.Some? && f != v }

  predicate AccOk(a: Acc) { |a.fields| == 7 && |a.conflict| == 7 }

  function AccStep(a: Acc, d: Data): (r: Acc)
    requires AccOk(a)
    ensures AccOk(r)
  {
    var vals := Agreed(d.prov);
    Acc(true, Merge(a.rows, d.rows), Combine(a.encoding, d.encoding),
        seq(7, i requires 0 <= i < 7 => FirstValue(a.fields[i], vals[i])),
        seq(7, i requires 0 <= i < 7 => a.conflict[i] || Disagrees(a.fields[i], vals[i])),
        a.bytesSum + (if d.prov.bytes.Some? then d.prov.bytes.value else 0), a.anyBytes || d.prov.bytes.Some?)
  }

  function AccAll(k: Kind, parts: seq<Doc>): (r: Acc)
    ensures AccOk(r)
  {
    if parts == [] then NO_ACC
    else
      var last, a := parts[|parts| - 1], AccAll(k, parts[..|parts| - 1]);
      if k in last.blocks then AccStep(a, last.blocks[k]) else a
  }

  function KindBytes(a: Acc): int { if a.anyBytes then a.bytesSum else 0 }

  function MergedData(a: Acc, bytes: Option<int>, sha: Option<string>): Data
    requires AccOk(a)
  {
    var f := a.fields;
    var own := if KindBytes(a) != 0 then Some(KindBytes(a)) else None;
    Data(a.rows, Prefix(a.encoding, 7),
         Prov(f[0], f[1], if bytes.Some? then bytes else own,
              if sha.Some? then Some(Prefix(sha.value, 64)) else None,
              f[2], f[3], f[4], f[5], f[6], None, None))
  }

  /** The largest byte total of any kind, never below 0. */
  function BytesTotal(parts: seq<Doc>, kinds: seq<Kind>): int {
    if kinds == [] then 0
    else
      var rest, mine := BytesTotal(parts, kinds[1..]), KindBytes(AccAll(kinds[0], parts));
      if mine > rest then mine else rest
  }

  function MergeDocs(name: string, parts: seq<Doc>, bytes: Option<int>, sha: Option<string>): Result<Doc> {
    if parts == [] then Err("--merge needs at least one PART.rxt")
    else if exists k :: k in CANONICAL && true in AccAll(k, parts).conflict then Err("parts disagree on provenance")
    else
      var total := BytesTotal(parts, CANONICAL);
      if bytes.Some? && total != 0 && total != bytes.value then Err("shard byte total != --bytes")
      else Ok(Doc(name, map k | k in CANONICAL && AccAll(k, parts).have :: MergedData(AccAll(k, parts), bytes, sha)))
  }

  function ParseAll(texts: seq<string>): Result<seq<Doc>> {
    if texts == [] then Ok([])
    else
      var init, last := ParseAll(texts[..|texts| - 1]), Parse(texts[|texts| - 1]);
      if init.Err? then init else if last.Err? then Err(last.message) else Ok(init.value + [last.value])
  }

  /** The whole command on the parts' texts. */
  ghost function MergeTexts(name: string, texts: seq<string>, bytes: Option<int>, sha: Option<string>): Result<string> {
    var parts := ParseAll(texts);
    if parts.Err? then Err(parts.message)
    else
      var doc := MergeDocs(name, parts.value, bytes, sha);
      if doc.Err? then Err(doc.message) else Ok(Render(doc.value))
  }

  // ----- check -----

  /** Failed comparisons for one kind against a recount of `data`. */
  function KindMismatches(k: Kind, d: Data, data: seq<byte>): nat {
    (if k == Cpfreq && !Valid(data) then 1 else if Tally(KeysOf(k, data, Whole)) == d.rows then 0 else 1) +
    (if d.prov.bytes.Some? && d.prov.bytes.value != |data| then 1 else 0) +
    (if d.prov.sha256.Some? && d.prov.sha256.value != Sha256.HexDigest(data) then 1 else 0)
  }

  function Mismatches(doc: Doc, kinds: seq<Kind>, data: seq<byte>): nat {
    if kinds == [] then 0
    else (if kinds[0] in doc.blocks then KindMismatches(kinds[0], doc.blocks[kinds[0]], data) else 0) +
         Mismatches(doc, kinds[1..], data)
  }

  /** The number of failed comparisons, or the reader's error. */
  function Check(text: string, data: seq<byte>): Result<nat> {
    var doc := Parse(text);
    if doc.Err? then Err(doc.message) else Ok(Mismatches(doc.value, CANONICAL, data))
  }

  // ----- what a scan prints can be read back -----

  /** Command-line texts the bundle format can carry. */
  predicate ArgsOk(args: Args) {
    && args.name != "" && Clean(args.name) && OptClean(args.source) && OptClean(args.retrieved) && OptClean(args.url)
    && OptClean(args.ref) && OptClean(args.license) && OptClean(args.fidelity)
    && (args.adaptation.Some? ==> ProseOk(args.adaptation.value))
  }

  lemma {:induction false} TallyKeys(keys: seq<nat>, k: nat)
    requires k in Tally(keys)
    ensures k in keys
    decreases |keys|
  {
    var n := |keys| - 1;
    if keys != [] && k != keys[n] {
      hide Plus, Set;
      AddGet(Tally(keys[..n]), keys[n], 1, k);
      assert Get(Tally(keys), k) == Get(Tally(keys[..n]), k);
      TallyKeys(keys[..n], k);
    }
  }

  lemma KeysInRange(k: Kind, data: seq<byte>, sh: Shard)
    requires ShardOk(|data|, sh)
    ensures forall key :: key in KeysOf(k, data, sh) ==> KeyOk(k, key)
  {
    hide Decode, FreqWindow, PairWindow, CpWindow, NoWrap;
    match k {
      case Freq =>
      case Bigram =>
        var s := PairWindow(data, sh);
        forall key | key in PairKeys(s)
          ensures key < 65536
        {
          var i :| 0 <= i < |PairKeys(s)| && PairKeys(s)[i] == key;
          PairBound(s[i], s[i + 1]);
        }
      case Cpfreq =>
    }
  }

  lemma PairBound(a: byte, b: byte)
    ensures PairKey(a, b) < 65536
  {
  }

  lemma DigestClean(data: seq<byte>)
    ensures Clean(Sha256.HexDigest(data)) && |Sha256.HexDigest(data)| == 64
  {
    hide Sha256.Digest;
    HexWordsVisible(Sha256.Digest(data));
  }

  lemma {:induction false} HexWordsVisible(h: seq<Sha256Functions.word>)
    ensures forall i :: 0 <= i < |Sha256.HexWords(h)| ==> '0' <= Sha256.HexWords(h)[i] <= 'f'
    decreases |h|
  {
    if h != [] {
      HexWordsVisible(h[..|h| - 1]);
      HexWordVisible(h[|h| - 1]);
    }
  }

  lemma HexWordVisible(x: Sha256Functions.word)
    ensures forall i :: 0 <= i < 8 ==> '0' <= Sha256.HexWord(x)[i] <= 'f'
  {
    HexDigitVisible(x >> 28);
    HexDigitVisible(x >> 24);
    HexDigitVisible(x >> 20);
    HexDigitVisible(x >> 16);
    HexDigitVisible(x >> 12);
    HexDigitVisible(x >> 8);
    HexDigitVisible(x >> 4);
    HexDigitVisible(x);
    hide Sha256.HexDigit;
  }

  lemma HexDigitVisible(x: Sha256Functions.word)
    ensures '0' <= Sha256.HexDigit(x) <= 'f'
  {
  }

  lemma ClassClean(s: seq<byte>)
    ensures Clean(Classify(s)) && |Classify(s)| <= 7
  {
    hide Valid, HighByte;
  }

  lemma ScanDataOk(args: Args, k: Kind, data: seq<byte>, sh: Shard)
    requires ShardOk(|data|, sh) && ArgsOk(args) && |data| <= LL_MAX
    ensures DataOk(k, ScanData(args, k, data, sh))
  {
    KeysInRange(k, data, sh);
    ClassClean(CpWindow(data, sh));
    ScanProvOk(args, data, sh);
    OkIsLine(ScanProv(args, data, sh));
    hide Clean, ProvOk, ProvLine, ScanProv, KeyOk, Tally, KeysOf, Classify, CpWindow, FreqWindow, NoWrap;
    forall key | key in ScanData(args, k, data, sh).rows
      ensures KeyOk(k, key)
    {
      TallyKeys(KeysOf(k, data, sh), key);
    }
  }

  lemma ScanProvOk(args: Args, data: seq<byte>, sh: Shard)
    requires ShardOk(|data|, sh) && ArgsOk(args) && |data| <= LL_MAX
    ensures ProvOk(ScanProv(args, data, sh))
  {
    WindowBound(data, sh);
    DigestClean(data);
    ExemplarClean();
    hide Clean, Sha256.HexDigest, FreqWindow, NoWrap;
  }

  lemma ExemplarClean()
    ensures Clean("exemplar")
  {
  }

  lemma WindowBound(data: seq<byte>, sh: Shard)
    requires ShardOk(|data|, sh)
    ensures |FreqWindow(data, sh)| <= |data|
  {
    hide Cut, NoWrap;
    if sh.Part? { CutsRise(|data|, sh.k - 1, sh.n); }
  }

  lemma ScanDocOk(args: Args, kinds: set<Kind>, data: seq<byte>, sh: Shard)
    requires ShardOk(|data|, sh) && ArgsOk(args) && |data| <= LL_MAX && Scan(args, kinds, data, sh).Ok?
    ensures DocOk(Scan(args, kinds, data, sh).value)
  {
    hide ScanData, DataOk, Valid, CpWindow, Clean, NoWrap;
    forall k | k in kinds
      ensures DataOk(k, ScanData(args, k, data, sh))
    {
      ScanDataOk(args, k, data, sh);
    }
  }

  /** The bundle of a fresh unsharded scan passes the recount check on the same bytes. */
  lemma FreshScanPasses(args: Args, kinds: set<Kind>, data: seq<byte>)
    requires ArgsOk(args) && |data| <= LL_MAX && Scan(args, kinds, data, Whole).Ok?
    ensures Check(Render(Scan(args, kinds, data, Whole).value), data) == Ok(0)
  {
    hide ArgsOk, Render, Parse, DocOk, ScanData, Valid;
    var doc := Scan(args, kinds, data, Whole).value;
    ScanDocOk(args, kinds, data, Whole);
    ParseRender(doc);
    forall k | k in kinds
      ensures KindMismatches(k, BackAll(doc).blocks[k], data) == 0
    {
      NoMismatch(args, k, kinds, data);
    }
    NoneMismatch(BackAll(doc), CANONICAL, data);
  }

  lemma NoMismatch(args: Args, k: Kind, kinds: set<Kind>, data: seq<byte>)
    requires Cpfreq in kinds ==> Valid(data)
    requires k in kinds
    ensures KindMismatches(k, Back(ScanData(args, k, data, Whole)), data) == 0
  {
    hide Tally, KeysOf, Sha256.HexDigest, Valid, Classify;
  }

  lemma {:induction false} NoneMismatch(doc: Doc, kinds: seq<Kind>, data: seq<byte>)
    requires forall k :: k in doc.blocks ==> KindMismatches(k, doc.blocks[k], data) == 0
    ensures Mismatches(doc, kinds, data) == 0
    decreases |kinds|
  {
    hide KindMismatches;
    if kinds != [] { NoneMismatch(doc, kinds[1..], data); }
  }
}
