/** The counting, listing, printing and reading loops of the analyzer's commands. */
module Commands {
  import opened Bits
  import opened Rows
  import opened Text
  import opened KindBlock
  import opened CpTable
  import opened Bundle
  import opened Shards
  import opened Utf8
  import opened Decoder
  import opened Analyze
  import opened Meaning
  import Sha256

  // ----- counting -----

  method CountFreq(b: Block, data: seq<byte>, lo: nat, hi: nat)
    requires b.Valid() && b.kind == Freq && lo <= hi <= |data|
    modifies b.freq
    ensures b.Valid() && b.Rows() == Merge(old(b.Rows()), Tally(data[lo..hi]))
  {
    hide Merge, Tally, Add, CellRows, Table.Valid;
    ghost var before := b.Rows();
    TallyNone(before);
    assert data[lo..lo] == [];
    for i := lo to hi
      invariant b.Valid() && b.Rows() == Merge(before, Tally(data[lo..i]))
    {
      assert data[lo..i + 1] == data[lo..i] + [data[i]];
      TallySnoc(before, data[lo..i], data[i]);
      b.AddFreq(data[i], 1);
    }
  }

  method CountPairs(b: Block, data: seq<byte>, lo: nat, hi: nat)
    requires b.Valid() && b.kind == Bigram && lo <= hi <= |data|
    modifies b`bigram, b.bigram
    ensures b.Valid() && b.Rows() == Merge(old(b.Rows()), Tally(PairKeys(data[lo..hi])))
  {
    hide Merge, Tally, Add, CellRows, Table.Valid, PairKeys;
    ghost var before := b.Rows();
    TallyNone(before);
    var i := lo;
    NoPairs(data, lo, hi);
    while i + 1 < hi
      invariant lo <= i && (hi > lo ==> i < hi) && b.Valid() && fresh(b.Repr() - old(b.Repr()))
      invariant i == lo || i < hi
      invariant b.Rows() == Merge(before, Tally(PairKeys(data[lo..if i < hi then i + 1 else hi])))
    {
      PairStep(data, lo, i);
      TallySnoc(before, PairKeys(data[lo..i + 1]), PairKey(data[i], data[i + 1]));
      b.AddBigram(data[i], data[i + 1], 1);
      i := i + 1;
    }
  }

  lemma NoPairs(data: seq<byte>, lo: nat, hi: nat)
    requires lo <= hi <= |data|
    ensures PairKeys(data[lo..if lo < hi then lo + 1 else hi]) == []
  {
  }

  lemma PairStep(data: seq<byte>, lo: nat, i: nat)
    requires lo <= i && i + 1 < |data|
    ensures PairKeys(data[lo..i + 2]) == PairKeys(data[lo..i + 1]) + [PairKey(data[i], data[i + 1])]
  {
  }

  /** The byte ranges of a shard's three windows. */
  function Ranges(data: seq<byte>, sh: Shard): (r: seq<(nat, nat)>)
    requires ShardOk(|data|, sh)
    ensures |r| == 3 && forall i :: 0 <= i < 3 ==> r[i].0 <= r[i].1 <= |data|
  {
    if sh.Whole? then [(0, |data|), (0, |data|), (0, |data|)]
    else
      CutsRise(|data|, sh.k - 1, sh.n);
      BigramWindow(data, sh.k, sh.n);
      var (s, e) := BigramRange(|data|, sh.k, sh.n);
      [(Cut(|data|, sh.k - 1, sh.n), Cut(|data|, sh.k, sh.n)), (s, e), CpfreqRange(data, sh.k, sh.n)]
  }

  lemma RangesAreWindows(data: seq<byte>, sh: Shard)
    requires ShardOk(|data|, sh)
    ensures var r := Ranges(data, sh);
      FreqWindow(data, sh) == data[r[0].0..r[0].1] && PairWindow(data, sh) == data[r[1].0..r[1].1] &&
      CpWindow(data, sh) == data[r[2].0..r[2].1]
  {
    hide Cut, NoWrap, BigramRange, CpfreqRange;
    assert data[0..|data|] == data;
    if sh.Part? {
      CutsRise(|data|, sh.k - 1, sh.n);
      BigramWindow(data, sh.k, sh.n);
    }
  }

  /** Counts one kind over its window; `ok` is false where the code-point window does not decode. */
  method CountKind(k: Kind, data: seq<byte>, sh: Shard) returns (b: Block, ok: bool)
    requires ShardOk(|data|, sh)
    ensures fresh(b) && b.Valid() && b.kind == k
    ensures ok <==> k != Cpfreq || Utf8.Valid(CpWindow(data, sh))
    ensures ok ==> b.Rows() == Tally(KeysOf(k, data, sh))
  {
    hide Merge, Tally, Table.Valid, Decode, Utf8Octets, PairKeys, CellRows, Denoted, FreqWindow, PairWindow, CpWindow;
    b := new Block(k);
    RangesAreWindows(data, sh);
    var r := Ranges(data, sh);
    ok := true;
    match k {
      case Freq =>
        CountFreq(b, data, r[0].0, r[0].1);
        MergeFresh(FreqWindow(data, sh));
      case Bigram =>
        CountPairs(b, data, r[1].0, r[1].1);
        MergeFresh(PairKeys(PairWindow(data, sh)));
      case Cpfreq =>
        ValidIffGrammar(CpWindow(data, sh));
        var bad: nat;
        ok, bad := DecodeStrict(data[r[2].0..r[2].1], b.cp);
        MergeFresh(Decode(CpWindow(data, sh)).scalars);
    }
  }

  lemma MergeFresh(keys: seq<nat>)
    ensures Merge(map[], Tally(keys)) == Tally(keys)
  {
    hide Tally, Get, Plus, Merge;
    forall k: nat
      ensures Get(Merge(map[], Tally(keys)), k) == Get(Tally(keys), k)
    {
      MergeGet(map[], Tally(keys), k);
      EmptyGet(k);
      PlusNothing(Get(Tally(keys), k));
    }
    Extensional(Merge(map[], Tally(keys)), Tally(keys));
  }

  lemma PlusNothing(x: u64)
    ensures Plus(0, x) == x
  {
  }

  // ----- listing and printing -----

  lemma CellNext(cells: seq<u64>, i: nat)
    requires i < |cells|
    ensures var before, after := CellRows(cells[..i]), CellRows(cells[..i + 1]);
      if cells[i] == 0 then after == before
      else i in after && after[i] == cells[i] && (forall k :: k in after ==> k <= i) && after - {i} == before
  {
    if cells[i] == 0 {
      assert CellRows(cells[..i + 1]) == CellRows(cells[..i]);
    } else {
      assert CellRows(cells[..i + 1]) - {i} == CellRows(cells[..i]);
    }
  }

  /** The non-zero cells in ascending order. */
  method ListCells(a: array<u64>) returns (rows: seq<Row>)
    ensures rows == Listing(CellRows(a[..]))
  {
    hide CellRows, Lists, Ascending, Listing;
    rows := [];
    NoListing();
    NoCells([]);
    assert a[..0] == [];
    for i := 0 to a.Length
      invariant Lists(rows, CellRows(a[..i])) && Ascending(rows)
    {
      CellNext(a[..], i);
      assert a[..][..i] == a[..i] && a[..][..i + 1] == a[..i + 1];
      if a[i] != 0 {
        AddTop(rows, CellRows(a[..i + 1]), i);
        rows := rows + [Row(i, a[i])];
      }
    }
    assert a[..a.Length] == a[..];
    AscendingSame(rows, Listing(CellRows(a[..])), CellRows(a[..]));
  }

  method ListRows(b: Block) returns (rows: seq<Row>)
    requires b.Valid()
    ensures rows == Listing(b.Rows())
  {
    hide CellRows, Listing, Lists, Denoted, Table.Valid;
    match b.kind {
      case Freq => rows := ListCells(b.freq);
      case Bigram =>
        if b.bigram != null {
          rows := ListCells(b.bigram);
        } else {
          NoCells(PairCells(null));
          rows := [];
          NothingListed();
        }
      case Cpfreq => rows := b.cp.Sorted();
    }
  }

  lemma NothingListed()
    ensures Listing(map[]) == []
  {
  }

  /** Prints one kind's block, its rows in the order given. */
  method RenderKindBlock(k: Kind, rows: seq<Row>, encoding: string, prov: Prov, hasCpfreq: bool, csv: string)
    returns (lines: seq<string>)
    ensures lines == HeadLines(k, encoding, hasCpfreq, csv) + RowLines(k, rows) + ProvLines(prov)
  {
    hide HeadLines, ProvLines, RowLine;
    lines := HeadLines(k, encoding, hasCpfreq, csv);
    ghost var head := lines;
    for i := 0 to |rows|
      invariant lines == head + RowLines(k, rows[..i])
    {
      RowLinesSnoc(k, rows[..i], rows[i]);
      assert rows[..i + 1] == rows[..i] + [rows[i]];
      lines := lines + [RowLine(k, rows[i])];
    }
    assert rows[..|rows|] == rows;
    lines := lines + ProvLines(prov);
  }

  lemma {:induction false} RowLinesSnoc(k: Kind, rows: seq<Row>, r: Row)
    ensures RowLines(k, rows + [r]) == RowLines(k, rows) + [RowLine(k, r)]
    decreases |rows|
  {
    hide RowLine;
    if rows == [] {
      assert RowLines(k, [r]) == [RowLine(k, r)] + RowLines(k, []);
    } else {
      assert (rows + [r])[1..] == rows[1..] + [r];
      RowLinesSnoc(k, rows[1..], r);
    }
  }

  /** Counts and prints one requested kind. */
  method ScanKind(args: Args, k: Kind, data: seq<byte>, sh: Shard, encoding: string, prov: Prov, hasCpfreq: bool,
                  csv: string) returns (lines: seq<string>, ok: bool)
    requires ShardOk(|data|, sh)
    requires encoding == Classify(CpWindow(data, sh)) && prov == ScanProv(args, data, sh)
    ensures ok <==> k != Cpfreq || Utf8.Valid(CpWindow(data, sh))
    ensures ok ==> lines == BlockLines(k, ScanData(args, k, data, sh), hasCpfreq, csv)
  {
    hide Classify, Listing, KeysOf, Tally, HeadLines, ProvLines, RowLines, CpWindow, ScanProv, Decode, Table.Valid;
    var b;
    b, ok := CountKind(k, data, sh);
    var rows := ListRows(b);
    lines := RenderKindBlock(k, rows, encoding, prov, hasCpfreq, csv);
  }

  /** The provenance every requested kind gets; only an unsharded scan is hashed. */
  method MakeProv(args: Args, data: seq<byte>, sh: Shard) returns (prov: Prov)
    requires ShardOk(|data|, sh) && |data| < U64
    ensures prov == ScanProv(args, data, sh)
  {
    hide FreqWindow, NoWrap, Ranges, Sha256.HexDigest;
    RangesAreWindows(data, sh);
    var w := Ranges(data, sh);
    var hex := "";
    if sh.Whole? { hex := Sha256.Sha256Hex(data); }
    var source := if args.source.Some? then args.source else Some("exemplar");
    prov := Prov(source, args.retrieved, Some(w[0].1 - w[0].0), if sh.Whole? then Some(hex) else None,
                 args.url, args.ref, args.license, args.fidelity, args.adaptation, None, None);
  }

  /** Counts and prints the requested kinds in canonical order. */
  method ScanKinds(args: Args, kinds: set<Kind>, data: seq<byte>, sh: Shard, encoding: string, prov: Prov,
                   ghost doc: Doc) returns (lines: seq<string>, ok: bool)
    requires ShardOk(|data|, sh)
    requires encoding == Classify(CpWindow(data, sh)) && prov == ScanProv(args, data, sh)
    requires doc.blocks == map k | k in kinds :: ScanData(args, k, data, sh)
    ensures ok <==> !(Cpfreq in kinds && !Utf8.Valid(CpWindow(data, sh)))
    ensures ok ==> lines == BlocksLines(doc, CANONICAL)
  {
    hide Classify, ScanCsv, BlockLines, ScanData, CpWindow, NoWrap, Utf8.Valid, ScanProv;
    var order, csv := CANONICAL, ScanCsv(kinds, CANONICAL);
    assert doc.blocks.Keys == kinds;
    lines := [];
    for i := 0 to 3
      invariant lines == BlocksLines(doc, order[..i])
      invariant i > 1 && Cpfreq in kinds ==> Utf8.Valid(CpWindow(data, sh))
    {
      var k := order[i];
      BlocksSnoc(doc, order[..i], k);
      assert order[..i + 1] == order[..i] + [k];
      if k in kinds {
        var block;
        block, ok := ScanKind(args, k, data, sh, encoding, prov, Cpfreq in kinds, csv);
        if !ok { return; }
        lines := lines + block;
      }
    }
    assert order[..3] == order;
    ok := true;
  }

  /** The scan command: counts every requested kind and prints the bundle. */
  method CmdScan(args: Args, kinds: set<Kind>, data: seq<byte>, sh: Shard) returns (r: Result<seq<string>>)
    requires ShardOk(|data|, sh) && |data| < U64
    ensures var doc := Scan(args, kinds, data, sh);
      if doc.Err? then r.Err? else r == Ok(RenderLines(doc.value))
    ensures r.Ok? <==> (Cpfreq in kinds ==> Utf8Octets(CpWindow(data, sh)))
    ensures r.Ok? ==> exists doc :: r.value == RenderLines(doc) && ScanOf(doc, args, kinds, data, sh)
  {
    ScanMeans(args, kinds, data, sh);
    hide Utf8Octets, ScanOf;
    hide Classify, ScanData, CpWindow, NoWrap, Ranges, Utf8.Valid, ScanProv, BlocksLines;
    RangesAreWindows(data, sh);
    var w := Ranges(data, sh)[2];
    var encoding := ClassifyEncoding(data[w.0..w.1]);
    var prov := MakeProv(args, data, sh);
    ghost var doc := Doc(args.name, map k | k in kinds :: ScanData(args, k, data, sh));
    var blocks, ok := ScanKinds(args, kinds, data, sh, encoding, prov, doc);
    if !ok { return Err("--scan cpfreq requires valid UTF-8 input"); }
    return Ok(["analysis " + args.name] + blocks);
  }

  lemma {:induction false} BlocksSnoc(doc: Doc, kinds: seq<Kind>, k: Kind)
    ensures BlocksLines(doc, kinds + [k]) == BlocksLines(doc, kinds) +
      if k in doc.blocks
      then BlockLines(k, doc.blocks[k], Cpfreq in doc.blocks, ScanCsv(doc.blocks.Keys, CANONICAL)) else []
    decreases |kinds|
  {
    hide BlockLines, ScanCsv;
    if kinds == [] {
      assert [k][1..] == [];
      assert BlocksLines(doc, []) == [];
    } else {
      assert (kinds + [k])[1..] == kinds[1..] + [k];
      BlocksSnoc(doc, kinds[1..], k);
    }
  }

  // ----- merge -----

  /** The merge command's accumulation: part after part, kind after kind. */
  method Accumulate(parts: seq<Doc>) returns (acc: map<Kind, Acc>)
    ensures forall k: Kind :: k in acc && acc[k] == AccAll(k, parts)
  {
    hide AccStep, AccAll, CANONICAL;
    acc := map[Freq := NO_ACC, Cpfreq := NO_ACC, Bigram := NO_ACC];
    assert parts[..0] == [];
    NothingGathered(acc);
    for pi := 0 to |parts|
      invariant forall k: Kind :: k in acc && acc[k] == AccAll(k, parts[..pi])
    {
      var part := parts[pi];
      var kinds := CANONICAL;
      for i := 0 to |kinds|
        invariant forall k: Kind ::
          k in acc && acc[k] == AccAll(k, if k in kinds[..i] then parts[..pi + 1] else parts[..pi])
      {
        var k := kinds[i];
        OneMore(k, parts, pi);
        EachOnce(i);
        if k in part.blocks { acc := acc[k := AccStep(acc[k], part.blocks[k])]; }
      }
      EveryKind();
    }
    assert parts[..|parts|] == parts;
  }

  lemma NothingGathered(acc: map<Kind, Acc>)
    requires acc == map[Freq := NO_ACC, Cpfreq := NO_ACC, Bigram := NO_ACC]
    ensures forall k: Kind :: k in acc && acc[k] == AccAll(k, [])
  {
    forall k: Kind
      ensures k in acc && acc[k] == AccAll(k, [])
    {
      match k { case Freq => case Cpfreq => case Bigram => }
    }
  }

  lemma OneMore(k: Kind, parts: seq<Doc>, pi: nat)
    requires pi < |parts|
    ensures AccAll(k, parts[..pi + 1]) ==
      if k in parts[pi].blocks then AccStep(AccAll(k, parts[..pi]), parts[pi].blocks[k]) else AccAll(k, parts[..pi])
  {
    hide AccStep;
    assert parts[..pi + 1][..pi] == parts[..pi];
  }

  lemma EachOnce(i: nat)
    requires i < |CANONICAL|
    ensures CANONICAL[i] !in CANONICAL[..i] && CANONICAL[..i + 1] == CANONICAL[..i] + [CANONICAL[i]]
  {
  }

  lemma EveryKind()
    ensures forall k: Kind :: k in CANONICAL[..|CANONICAL|]
  {
    forall k: Kind
      ensures k in CANONICAL[..|CANONICAL|]
    {
      assert CANONICAL[..|CANONICAL|][match k case Freq => 0 case Cpfreq => 1 case Bigram => 2] == k;
    }
  }
}
