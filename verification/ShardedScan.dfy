/** Scanning a file in `n` shards and merging the parts' texts, against scanning it whole. */
module ShardedScan {
  import opened Bits
  import opened Rows
  import opened Text
  import opened KindBlock
  import opened Bundle
  import opened RoundTrip
  import opened Shards
  import opened Utf8
  import opened Decoder
  import opened Analyze
  import Sha256

  /** The keys each shard counts. */
  ghost function ShardKeys(k: Kind, data: seq<byte>, n: nat): (r: seq<seq<nat>>)
    requires n >= 1 && NoWrap(|data|, n)
    ensures |r| == n && forall j :: 0 <= j < n ==> r[j] == KeysOf(k, data, Part(j + 1, n))
  {
    seq(n, j requires 0 <= j < n => KeysOf(k, data, Part(j + 1, n)))
  }

  lemma FreqKeysTile(data: seq<byte>, n: nat)
    requires n >= 1 && NoWrap(|data|, n)
    ensures Flatten(ShardKeys(Freq, data, n)) == KeysOf(Freq, data, Whole)
  {
    hide Cut, NoWrap;
    var cuts := Cuts(|data|, n);
    CutsRising(|data|, n);
    forall j | 0 <= j < n
      ensures ShardKeys(Freq, data, n)[j] == data[cuts[j]..cuts[j + 1]]
    {
      assert ShardKeys(Freq, data, n)[j] == KeysOf(Freq, data, Part(j + 1, n));
    }
    FlattenPieces<nat>(ShardKeys(Freq, data, n), data, cuts);
    assert data[0..|data|] == data;
  }

  ghost function PairCuts(size: nat, n: nat): (r: seq<nat>)
    requires n >= 1
    ensures |r| == n + 1 && forall j :: 0 <= j <= n ==> r[j] == PairCut(size, j, n)
  {
    seq(n + 1, j requires 0 <= j <= n => PairCut(size, j, n))
  }

  lemma PairKeysTile(data: seq<byte>, n: nat)
    requires n >= 1 && NoWrap(|data|, n)
    ensures Flatten(ShardKeys(Bigram, data, n)) == KeysOf(Bigram, data, Whole)
  {
    hide Cut, NoWrap, BigramRange, PairKeys, KeysOf, Flatten, PairCut;
    var keys, cuts, pairs := ShardKeys(Bigram, data, n), PairCuts(|data|, n), PairKeys(data);
    CutEnds(|data|, n);
    PairCutsRise(|data|, n);
    forall j | 0 <= j < n
      ensures keys[j] == pairs[cuts[j]..cuts[j + 1]]
    {
      PairShardKeys(data, j + 1, n);
    }
    PairEnds(data, n);
    FlattenPieces(keys, pairs, cuts);
    assert pairs[0..|pairs|] == pairs;
    WholePairs(data);
  }

  lemma PairShardKeys(data: seq<byte>, k: nat, n: nat)
    requires 1 <= k <= n && NoWrap(|data|, n)
    ensures var a, b := PairCut(|data|, k - 1, n), PairCut(|data|, k, n);
      a <= b <= |PairKeys(data)| && KeysOf(Bigram, data, Part(k, n)) == PairKeys(data)[a..b]
  {
    hide Cut, NoWrap, BigramRange, PairKeys, PairCut;
    BigramWindow(data, k, n);
  }

  lemma PairEnds(data: seq<byte>, n: nat)
    requires n >= 1 && NoWrap(|data|, n)
    ensures PairCut(|data|, 0, n) == 0 && PairCut(|data|, n, n) == |PairKeys(data)|
  {
    hide Cut, NoWrap;
    CutEnds(|data|, n);
  }

  lemma WholePairs(data: seq<byte>)
    ensures KeysOf(Bigram, data, Whole) == PairKeys(data)
  {
    hide PairKeys;
  }

  lemma PairCutsRise(size: nat, n: nat)
    requires n >= 1 && NoWrap(size, n)
    ensures Rising(PairCuts(size, n), if size == 0 then 0 else size - 1)
  {
    hide Cut, NoWrap;
    CutEnds(size, n);
    forall i, j | 0 <= i <= j < n + 1
      ensures PairCuts(size, n)[i] <= PairCuts(size, n)[j]
    {
      CutsOrdered(size, n, i, j);
    }
  }

  lemma CpKeysTile(data: seq<byte>, n: nat)
    requires n >= 1 && NoWrap(|data|, n) && NoneStranded(data, n) && Valid(data)
    ensures Flatten(ShardKeys(Cpfreq, data, n)) == KeysOf(Cpfreq, data, Whole)
  {
    hide Decode, Cut, NoWrap, Stranded, CpfreqWindow;
    ValidLead(data);
    CpfreqTilesIff(data, n);
    forall j | 0 <= j < n
      ensures ShardKeys(Cpfreq, data, n)[j] == ScalarKeys(Windows(data, n))[j]
    {
      assert ShardKeys(Cpfreq, data, n)[j] == KeysOf(Cpfreq, data, Part(j + 1, n));
      assert Windows(data, n)[j] == CpfreqWindow(data, j + 1, n);
    }
    assert ShardKeys(Cpfreq, data, n) == ScalarKeys(Windows(data, n));
  }

  lemma ValidLead(data: seq<byte>)
    requires Valid(data)
    ensures Lead(data, 0) == 0 && data[Lead(data, 0)..] == data
  {
    hide Decode;
    if data != [] { ValidStart(data); }
    SkipUnique(data, 0, |data|, 0);
  }

  /** Every requested scan, of the whole file and of each shard, succeeds. */
  ghost predicate AllScan(kinds: set<Kind>, data: seq<byte>, n: nat)
    requires n >= 1 && NoWrap(|data|, n)
  {
    Cpfreq in kinds ==> Valid(data) && NoneStranded(data, n)
  }

  lemma KeysTile(k: Kind, kinds: set<Kind>, data: seq<byte>, n: nat)
    requires n >= 1 && NoWrap(|data|, n) && AllScan(kinds, data, n) && k in kinds
    ensures Flatten(ShardKeys(k, data, n)) == KeysOf(k, data, Whole)
  {
    hide KeysOf, NoWrap, NoneStranded, Valid;
    match k {
      case Freq => FreqKeysTile(data, n);
      case Bigram => PairKeysTile(data, n);
      case Cpfreq => CpKeysTile(data, n);
    }
  }

  /** The scan of shard `j + 1` of `n`. */
  function ShardScan(args: Args, kinds: set<Kind>, data: seq<byte>, n: nat, j: nat): Result<Doc>
    requires n >= 1 && NoWrap(|data|, n) && j < n
  {
    Scan(args, kinds, data, Part(j + 1, n))
  }

  /** The scans all succeed exactly under that condition. */
  lemma AllScanIff(args: Args, kinds: set<Kind>, data: seq<byte>, n: nat)
    requires n >= 1 && NoWrap(|data|, n)
    ensures AllScan(kinds, data, n) <==>
      Scan(args, kinds, data, Whole).Ok? && forall j: nat :: j < n ==> ShardScan(args, kinds, data, n, j).Ok?
  {
    hide Decode, NoWrap, ScanData, NoneStranded, CpfreqWindow;
    CpfreqTilesIff(data, n);
    if Valid(data) { ValidLead(data); }
    forall j: nat | j < n
      ensures ShardScan(args, kinds, data, n, j).Ok? <==> (Cpfreq in kinds ==> Valid(Windows(data, n)[j]))
    {
      assert Windows(data, n)[j] == CpfreqWindow(data, j + 1, n);
    }
    if Valid(data) && Cpfreq in kinds && forall j: nat :: j < n ==> ShardScan(args, kinds, data, n, j).Ok? {
      forall j | 0 <= j < n
        ensures Valid(Windows(data, n)[j])
      {
        assert ShardScan(args, kinds, data, n, j).Ok?;
      }
    }
  }

  // ----- the parts -----

  /** The parts as the merge command reads them back. */
  ghost function Parts(args: Args, kinds: set<Kind>, data: seq<byte>, n: nat): (r: seq<Doc>)
    requires n >= 1 && NoWrap(|data|, n)
    ensures |r| == n && forall j :: 0 <= j < n ==> r[j] == PartDoc(args, kinds, data, n, j)
  {
    seq(n, j requires 0 <= j < n => PartDoc(args, kinds, data, n, j))
  }

  ghost function PartDoc(args: Args, kinds: set<Kind>, data: seq<byte>, n: nat, j: nat): Doc
    requires n >= 1 && NoWrap(|data|, n) && j < n
  {
    Doc(args.name, map k | k in kinds :: Back(ScanData(args, k, data, Part(j + 1, n))))
  }

  /** The texts the `n` shard scans print. */
  ghost function PartTexts(args: Args, kinds: set<Kind>, data: seq<byte>, n: nat): (r: seq<string>)
    requires n >= 1 && NoWrap(|data|, n) && forall j: nat :: j < n ==> ShardScan(args, kinds, data, n, j).Ok?
    ensures |r| == n && forall j: nat :: j < n ==> r[j] == Render(ShardScan(args, kinds, data, n, j).value)
  {
    seq(n, j requires 0 <= j < n => Render(ShardScan(args, kinds, data, n, j).value))
  }

  lemma PartParses(args: Args, kinds: set<Kind>, data: seq<byte>, n: nat, j: nat)
    requires n >= 1 && NoWrap(|data|, n) && j < n && ArgsOk(args) && |data| <= LL_MAX
    requires ShardScan(args, kinds, data, n, j).Ok?
    ensures Parse(Render(ShardScan(args, kinds, data, n, j).value)) == Ok(PartDoc(args, kinds, data, n, j))
  {
    hide ScanData, Render, Parse, ArgsOk, NoWrap, DocOk, Valid;
    ScanDocOk(args, kinds, data, Part(j + 1, n));
    ParseRender(ShardScan(args, kinds, data, n, j).value);
    assert BackAll(ShardScan(args, kinds, data, n, j).value).blocks == PartDoc(args, kinds, data, n, j).blocks;
  }

  lemma {:induction false} PartsParse(texts: seq<string>, docs: seq<Doc>)
    requires |texts| == |docs| && forall j :: 0 <= j < |texts| ==> Parse(texts[j]) == Ok(docs[j])
    ensures ParseAll(texts) == Ok(docs)
    decreases |texts|
  {
    hide Parse;
    if texts != [] {
      var n := |texts| - 1;
      PartsParse(texts[..n], docs[..n]);
      assert docs == docs[..n] + [docs[n]];
    }
  }

  // ----- what the merge accumulates -----

  ghost function ShardRows(k: Kind, data: seq<byte>, n: nat): (r: seq<Rows>)
    requires n >= 1 && NoWrap(|data|, n)
    ensures |r| == n && forall j :: 0 <= j < n ==> r[j] == Tally(ShardKeys(k, data, n)[j])
  {
    seq(n, j requires 0 <= j < n => Tally(ShardKeys(k, data, n)[j]))
  }

  /** The agreed provenance of every part. */
  function Common(args: Args): (r: seq<Option<string>>)
    ensures |r| == 7
  {
    [Some(if args.source.Some? && args.source.value != "" then args.source.value else "exemplar"),
     args.retrieved, args.url, args.ref, args.license, args.fidelity, args.adaptation]
  }

  /** The accumulator of kind `k` after the first `j` parts. */
  ghost function AccAfter(args: Args, k: Kind, data: seq<byte>, n: nat, j: nat): Acc
    requires n >= 1 && NoWrap(|data|, n) && j <= n
  {
    if j == 0 then NO_ACC
    else Acc(true, MergeAll(ShardRows(k, data, n)[..j]), ClassifyAll(Windows(data, n)[..j]), Common(args), NO_CONFLICT,
             Cut(|data|, j, n), true)
  }

  lemma PartRows(args: Args, k: Kind, data: seq<byte>, n: nat, j: nat)
    requires n >= 1 && NoWrap(|data|, n) && j < n
    ensures var d := Back(ScanData(args, k, data, Part(j + 1, n)));
      d.rows == ShardRows(k, data, n)[j] && d.encoding == Classify(Windows(data, n)[j])
  {
    hide Cut, NoWrap, Tally, KeysOf, Classify, CpfreqWindow, Printed, ScanProv;
    assert Windows(data, n)[j] == CpfreqWindow(data, j + 1, n);
    assert ShardRows(k, data, n)[j] == Tally(KeysOf(k, data, Part(j + 1, n)));
  }

  lemma PartProv(args: Args, data: seq<byte>, n: nat, j: nat)
    requires n >= 1 && NoWrap(|data|, n) && j < n
    ensures var p := Printed(ScanProv(args, data, Part(j + 1, n)));
      Agreed(p) == Common(args) && p.bytes == Some(Cut(|data|, j + 1, n) - Cut(|data|, j, n))
  {
    hide NoWrap, FreqWindow, Sha256.HexDigest;
    PartSize(data, n, j);
  }

  lemma PartSize(data: seq<byte>, n: nat, j: nat)
    requires n >= 1 && NoWrap(|data|, n) && j < n
    ensures |FreqWindow(data, Part(j + 1, n))| == Cut(|data|, j + 1, n) - Cut(|data|, j, n)
  {
    hide Cut, NoWrap;
    CutsRise(|data|, j, n);
  }

  lemma PartAgrees(args: Args, k: Kind, data: seq<byte>, n: nat, j: nat)
    requires n >= 1 && NoWrap(|data|, n) && j < n
    ensures var d := Back(ScanData(args, k, data, Part(j + 1, n)));
      Agreed(d.prov) == Common(args) && d.rows == ShardRows(k, data, n)[j] &&
      d.encoding == Classify(Windows(data, n)[j]) &&
      d.prov.bytes == Some(Cut(|data|, j + 1, n) - Cut(|data|, j, n))
  {
    hide Cut, NoWrap, Tally, KeysOf, Classify, CpfreqWindow, Printed, ScanProv, Agreed, Common, Windows, ShardRows;
    PartRows(args, k, data, n, j);
    PartProv(args, data, n, j);
  }

  /** Merging one more part whose provenance agrees. */
  lemma AccAgree(a: Acc, d: Data, fields: seq<Option<string>>)
    requires |fields| == 7 && Agreed(d.prov) == fields && d.prov.bytes.Some?
    requires a == NO_ACC || (a.fields == fields && a.conflict == NO_CONFLICT && a.have && a.anyBytes)
    ensures AccOk(a) && AccStep(a, d) ==
      Acc(true, Merge(a.rows, d.rows), Combine(a.encoding, d.encoding), fields, NO_CONFLICT,
          a.bytesSum + d.prov.bytes.value, true)
  {
    hide Merge, Combine;
    var r := AccStep(a, d);
    assert |NO_FIELDS| == 7 && |NO_CONFLICT| == 7;
    assert forall i :: 0 <= i < 7 ==> NO_FIELDS[i].None? && !NO_CONFLICT[i];
    assert r.fields == fields;
    assert r.conflict == NO_CONFLICT;
  }

  lemma AccNext(args: Args, k: Kind, data: seq<byte>, n: nat, j: nat)
    requires n >= 1 && NoWrap(|data|, n) && j < n
    ensures var a := AccAfter(args, k, data, n, j);
      AccOk(a) && AccStep(a, Back(ScanData(args, k, data, Part(j + 1, n)))) == AccAfter(args, k, data, n, j + 1)
  {
    NothingYet();
    hide Cut, NoWrap, AccStep, ScanData, Back, Merge, Classify, Combine, Agreed, Common, Windows, ShardRows, MergeAll,
         ClassifyAll;
    CutEnds(|data|, n);
    PartAgrees(args, k, data, n, j);
    AccAgree(AccAfter(args, k, data, n, j), Back(ScanData(args, k, data, Part(j + 1, n))), Common(args));
    RowsMore(ShardRows(k, data, n), j);
    ClassMore(Windows(data, n), j);
  }

  lemma RowsMore(rows: seq<Rows>, j: nat)
    requires j < |rows|
    ensures MergeAll(rows[..j + 1]) == Merge(MergeAll(rows[..j]), rows[j]) && MergeAll(rows[..0]) == map[]
  {
    hide Merge;
    assert rows[..j + 1][..j] == rows[..j];
  }

  lemma ClassMore(windows: seq<seq<byte>>, j: nat)
    requires j < |windows|
    ensures ClassifyAll(windows[..j + 1]) == Combine(ClassifyAll(windows[..j]), Classify(windows[j]))
    ensures ClassifyAll(windows[..0]) == ""
  {
    hide Combine, Classify;
    assert windows[..j + 1][..j] == windows[..j];
  }

  lemma {:induction false} PartsAccumulate(args: Args, k: Kind, kinds: set<Kind>, data: seq<byte>, n: nat, j: nat)
    requires n >= 1 && NoWrap(|data|, n) && j <= n && k in kinds
    ensures AccAll(k, Parts(args, kinds, data, n)[..j]) == AccAfter(args, k, data, n, j)
    decreases j
  {
    hide NoWrap, AccStep, ScanData, Back, AccAfter, AccAll, PartDoc, Cut;
    var parts := Parts(args, kinds, data, n);
    if j == 0 {
      NothingAccumulated(args, k, data, n);
    } else {
      PartsAccumulate(args, k, kinds, data, n, j - 1);
      AccNext(args, k, data, n, j - 1);
      var d := Back(ScanData(args, k, data, Part(j, n)));
      PartBlock(args, k, kinds, data, n, j - 1);
      assert parts[..j] == parts[..j - 1] + [parts[j - 1]];
      AccMore(k, parts[..j - 1], parts[j - 1], d);
    }
  }

  lemma NothingAccumulated(args: Args, k: Kind, data: seq<byte>, n: nat)
    requires n >= 1 && NoWrap(|data|, n)
    ensures AccAll(k, []) == AccAfter(args, k, data, n, 0)
  {
    hide NoWrap;
  }

  lemma PartBlock(args: Args, k: Kind, kinds: set<Kind>, data: seq<byte>, n: nat, j: nat)
    requires n >= 1 && NoWrap(|data|, n) && j < n && k in kinds
    ensures var doc := PartDoc(args, kinds, data, n, j);
      k in doc.blocks && doc.blocks[k] == Back(ScanData(args, k, data, Part(j + 1, n)))
  {
    hide NoWrap, ScanData, Back;
  }

  lemma AccMore(k: Kind, parts: seq<Doc>, last: Doc, d: Data)
    requires k in last.blocks && last.blocks[k] == d
    ensures AccAll(k, parts + [last]) == AccStep(AccAll(k, parts), d)
  {
    hide AccStep;
    assert (parts + [last])[..|parts|] == parts;
  }

  lemma NothingYet()
    ensures MergeAll([]) == NO_ACC.rows && ClassifyAll([]) == NO_ACC.encoding && NO_ACC.bytesSum == 0
  {
  }

  lemma {:induction false} AbsentKind(k: Kind, parts: seq<Doc>)
    requires forall d :: d in parts ==> k !in d.blocks
    ensures AccAll(k, parts) == NO_ACC
    decreases |parts|
  {
    if parts != [] {
      assert parts[|parts| - 1] in parts;
      AbsentKind(k, parts[..|parts| - 1]);
    }
  }

  // ----- the theorem -----

  /** The whole scan's bundle, with the encoding class the shards' classes combine to. */
  ghost function MergedScan(args: Args, kinds: set<Kind>, data: seq<byte>, n: nat): Doc
    requires n >= 1 && NoWrap(|data|, n)
  {
    Doc(args.name, map k | k in kinds :: ScanData(args, k, data, Whole).(encoding := ClassifyAll(Windows(data, n))))
  }

  lemma KindMerged(args: Args, k: Kind, kinds: set<Kind>, data: seq<byte>, n: nat)
    requires n >= 1 && NoWrap(|data|, n) && AllScan(kinds, data, n) && k in kinds
    ensures var a := AccAll(k, Parts(args, kinds, data, n));
      a.have && a.conflict == NO_CONFLICT && KindBytes(a) == |data| &&
      MergedData(a, Some(|data|), Some(Sha256.HexDigest(data))) == Back(MergedScan(args, kinds, data, n).blocks[k])
  {
    hide Cut, NoWrap, Tally, KeysOf, AccAll, ClassifyAll, AllScan, Sha256.HexDigest, MergeAll, ScanData;
    var parts, rows := Parts(args, kinds, data, n), ShardRows(k, data, n);
    PartsAccumulate(args, k, kinds, data, n, n);
    assert parts[..n] == parts && rows[..n] == rows && Windows(data, n)[..n] == Windows(data, n);
    CutEnds(|data|, n);
    MergeAllTally(rows, ShardKeys(k, data, n));
    KeysTile(k, kinds, data, n);
    ClassLength(data, n);
    WholeData(args, k, data);
    assert |Sha256.HexDigest(data)| == 64;
  }

  lemma WholeData(args: Args, k: Kind, data: seq<byte>)
    ensures var d := ScanData(args, k, data, Whole);
      d.rows == Tally(KeysOf(k, data, Whole)) && d.prov.bytes == Some(|data|) &&
      d.prov.sha256 == Some(Sha256.HexDigest(data)) &&
      Agreed(Printed(d.prov)) == Common(args) && d.prov.licenseNote.None? && d.prov.attribution.None?
  {
    hide Tally, KeysOf, Sha256.HexDigest, Classify;
  }

  lemma ClassLength(data: seq<byte>, n: nat)
    requires n >= 1 && NoWrap(|data|, n)
    ensures Prefix(ClassifyAll(Windows(data, n)), 7) == ClassifyAll(Windows(data, n))
  {
    hide ClassifyAll, NoWrap, CpfreqWindow;
    ClassifyAllRange(Windows(data, n));
  }

  lemma KindAbsent(args: Args, k: Kind, kinds: set<Kind>, data: seq<byte>, n: nat)
    requires n >= 1 && NoWrap(|data|, n) && k !in kinds
    ensures AccAll(k, Parts(args, kinds, data, n)) == NO_ACC
  {
    hide NoWrap, ScanData, AccAll;
    var parts := Parts(args, kinds, data, n);
    forall d | d in parts
      ensures k !in d.blocks
    {
      var j :| 0 <= j < |parts| && parts[j] == d;
      assert d == PartDoc(args, kinds, data, n, j);
    }
    AbsentKind(k, parts);
  }

  lemma {:induction false} TotalOfParts(args: Args, kinds: set<Kind>, data: seq<byte>, n: nat, list: seq<Kind>)
    requires n >= 1 && NoWrap(|data|, n) && AllScan(kinds, data, n)
    ensures BytesTotal(Parts(args, kinds, data, n), list) == if exists k :: k in list && k in kinds then |data| else 0
    decreases |list|
  {
    hide NoWrap, AllScan, AccAll;
    if list != [] {
      TotalOfParts(args, kinds, data, n, list[1..]);
      if list[0] in kinds {
        KindMerged(args, list[0], kinds, data, n);
      } else {
        KindAbsent(args, list[0], kinds, data, n);
      }
    }
  }

  lemma DocsMerge(args: Args, kinds: set<Kind>, data: seq<byte>, n: nat)
    requires n >= 1 && NoWrap(|data|, n) && AllScan(kinds, data, n)
    ensures MergeDocs(args.name, Parts(args, kinds, data, n), Some(|data|), Some(Sha256.HexDigest(data))) ==
      Ok(BackAll(MergedScan(args, kinds, data, n)))
  {
    hide NoWrap, AllScan, AccAll, Sha256.HexDigest, MergedData, ScanData, ClassifyAll, Back, CANONICAL;
    var parts := Parts(args, kinds, data, n);
    forall k: Kind
      ensures k in CANONICAL && true !in AccAll(k, parts).conflict && (AccAll(k, parts).have <==> k in kinds)
    {
      AllCanonical(k);
      NoConflict();
      if k in kinds { KindMerged(args, k, kinds, data, n); } else { KindAbsent(args, k, kinds, data, n); }
    }
    TotalOfParts(args, kinds, data, n, CANONICAL);
    forall k | k in kinds
      ensures MergedData(AccAll(k, parts), Some(|data|), Some(Sha256.HexDigest(data))) ==
        Back(MergedScan(args, kinds, data, n).blocks[k])
    {
      KindMerged(args, k, kinds, data, n);
    }
    assert parts != [];
    var r := MergeDocs(args.name, parts, Some(|data|), Some(Sha256.HexDigest(data)));
    assert r.Ok?;
    assert r.value.blocks == BackAll(MergedScan(args, kinds, data, n)).blocks;
  }

  /** The `--bytes` cross-check: the parts are accepted exactly for the file's own size, or when they state none. */
  lemma BytesCheckIff(args: Args, kinds: set<Kind>, data: seq<byte>, n: nat, b: int)
    requires n >= 1 && NoWrap(|data|, n) && AllScan(kinds, data, n)
    ensures MergeDocs(args.name, Parts(args, kinds, data, n), Some(b), None).Ok? <==>
      kinds == {} || data == [] || b == |data|
  {
    hide NoWrap, AllScan, AccAll, MergedData, ScanData, ClassifyAll, Back, CANONICAL;
    var parts := Parts(args, kinds, data, n);
    forall k: Kind
      ensures k in CANONICAL && true !in AccAll(k, parts).conflict
    {
      AllCanonical(k);
      NoConflict();
      if k in kinds { KindMerged(args, k, kinds, data, n); } else { KindAbsent(args, k, kinds, data, n); }
    }
    TotalOfParts(args, kinds, data, n, CANONICAL);
    if kinds != {} {
      var k :| k in kinds;
      assert k in CANONICAL;
    }
    assert parts != [];
  }

  lemma AllCanonical(k: Kind)
    ensures k in CANONICAL
  {
    assert CANONICAL[match k case Freq => 0 case Cpfreq => 1 case Bigram => 2] == k;
  }

  lemma NoConflict()
    ensures true !in NO_CONFLICT && !NO_ACC.have && NO_ACC.conflict == NO_CONFLICT
  {
  }

  lemma {:induction false} BackLines(doc: Doc, kinds: seq<Kind>)
    ensures BlocksLines(BackAll(doc), kinds) == BlocksLines(doc, kinds)
    decreases |kinds|
  {
    hide HeadLines, RowLines, FieldLines, ScanCsv;
    if kinds != [] {
      BackLines(doc, kinds[1..]);
      assert BackAll(doc).blocks.Keys == doc.blocks.Keys;
      if kinds[0] in doc.blocks { SourcePrinted(doc.blocks[kinds[0]].prov); }
    }
  }

  lemma SourcePrinted(p: Prov)
    ensures Fields(Printed(p)) == Fields(p)
  {
    hide Signed;
    assert "exemplar" != "";
  }

  /** Reading a bundle back and printing it again prints the same text. */
  lemma RenderBack(doc: Doc)
    ensures Render(BackAll(doc)) == Render(doc)
  {
    BackLines(doc, CANONICAL);
  }

  /** Merging the texts of the `n` shard scans prints the whole scan's bundle, under the shards' encoding class. */
  lemma MergedTexts(args: Args, kinds: set<Kind>, data: seq<byte>, n: nat)
    requires n >= 1 && NoWrap(|data|, n) && ArgsOk(args) && |data| <= LL_MAX && AllScan(kinds, data, n)
    ensures (forall j: nat :: j < n ==> ShardScan(args, kinds, data, n, j).Ok?) &&
      MergeTexts(args.name, PartTexts(args, kinds, data, n), Some(|data|), Some(Sha256.HexDigest(data))) ==
        Ok(Render(MergedScan(args, kinds, data, n)))
  {
    hide NoWrap, ArgsOk, AllScan, Scan, Render, Parse, MergeDocs, MergedScan, Sha256.HexDigest;
    AllScanIff(args, kinds, data, n);
    var texts, docs := PartTexts(args, kinds, data, n), Parts(args, kinds, data, n);
    forall j | 0 <= j < n
      ensures Parse(texts[j]) == Ok(docs[j])
    {
      assert texts[j] == Render(ShardScan(args, kinds, data, n, j).value);
      PartParses(args, kinds, data, n, j);
    }
    PartsParse(texts, docs);
    DocsMerge(args, kinds, data, n);
    RenderBack(MergedScan(args, kinds, data, n));
  }

  /** When the shards' classes combine to the whole file's class. */
  ghost predicate EncodingAgrees(data: seq<byte>, n: nat)
    requires n >= 1 && NoWrap(|data|, n)
  {
    if !NoneStranded(data, n) then !Valid(data)
    else data == [] || !Cont(data[0]) || !Valid(data[Lead(data, 0)..])
  }

  lemma MergedScanOk(args: Args, kinds: set<Kind>, data: seq<byte>, n: nat)
    requires n >= 1 && NoWrap(|data|, n) && ArgsOk(args) && |data| <= LL_MAX
    ensures DocOk(MergedScan(args, kinds, data, n))
  {
    hide ScanData, Clean, NoWrap, ClassifyAll, ProvOk, KeyOk;
    ClassifyAllRange(Windows(data, n));
    ClassesClean(ClassifyAll(Windows(data, n)));
    forall k | k in kinds
      ensures DataOk(k, MergedScan(args, kinds, data, n).blocks[k])
    {
      ScanDataOk(args, k, data, Whole);
    }
  }

  lemma ClassesClean(e: string)
    requires e in {"ascii", "utf8", "bytes"}
    ensures Clean(e) && |e| <= 7
  {
  }

  /** Merging the shards' texts, with `--bytes` and `--sha256` of the file, prints exactly the text of the whole
      scan if and only if nothing was asked for or the encoding classes agree. */
  lemma ShardedEqualsWholeIff(args: Args, kinds: set<Kind>, data: seq<byte>, n: nat)
    requires n >= 1 && NoWrap(|data|, n) && ArgsOk(args) && |data| <= LL_MAX && AllScan(kinds, data, n)
    ensures Scan(args, kinds, data, Whole).Ok? && (forall j: nat :: j < n ==> ShardScan(args, kinds, data, n, j).Ok?)
    ensures MergeTexts(args.name, PartTexts(args, kinds, data, n), Some(|data|), Some(Sha256.HexDigest(data))) ==
        Ok(Render(Scan(args, kinds, data, Whole).value))
      <==> kinds == {} || EncodingAgrees(data, n)
  {
    hide NoWrap, ArgsOk, AllScan, Render, Parse, DocOk, EncodingAgrees, MergedScan, MergeTexts, Scan, Sha256.HexDigest;
    AllScanIff(args, kinds, data, n);
    MergedTexts(args, kinds, data, n);
    var merged, whole := MergedScan(args, kinds, data, n), Scan(args, kinds, data, Whole).value;
    if kinds == {} || EncodingAgrees(data, n) { SameClassSameDoc(args, kinds, data, n); }
    if Render(merged) == Render(whole) && kinds != {} { SameTextSameClass(args, kinds, data, n); }
  }

  lemma SameClassSameDoc(args: Args, kinds: set<Kind>, data: seq<byte>, n: nat)
    requires n >= 1 && NoWrap(|data|, n) && Scan(args, kinds, data, Whole).Ok?
    requires kinds == {} || EncodingAgrees(data, n)
    ensures MergedScan(args, kinds, data, n) == Scan(args, kinds, data, Whole).value
  {
    hide NoWrap, ClassifyAll, Classify, NoneStranded, Valid, ScanProv, Tally, EncodingAgrees;
    ClassesAgreeIff(data, n);
    assert MergedScan(args, kinds, data, n).blocks == Scan(args, kinds, data, Whole).value.blocks;
  }

  lemma SameTextSameClass(args: Args, kinds: set<Kind>, data: seq<byte>, n: nat)
    requires n >= 1 && NoWrap(|data|, n) && ArgsOk(args) && |data| <= LL_MAX && AllScan(kinds, data, n)
    requires Scan(args, kinds, data, Whole).Ok? && kinds != {}
    requires Render(MergedScan(args, kinds, data, n)) == Render(Scan(args, kinds, data, Whole).value)
    ensures EncodingAgrees(data, n)
  {
    hide NoWrap, ArgsOk, AllScan, Render, Parse, ClassifyAll, Classify, NoneStranded, Valid, DocOk, ScanProv, Tally,
         EncodingAgrees;
    ClassesAgreeIff(data, n);
    var merged, whole := MergedScan(args, kinds, data, n), Scan(args, kinds, data, Whole).value;
    MergedScanOk(args, kinds, data, n);
    ScanDocOk(args, kinds, data, Whole);
    ParseRender(merged);
    ParseRender(whole);
    var k :| k in kinds;
    assert BackAll(merged).blocks[k].encoding == BackAll(whole).blocks[k].encoding;
  }

  lemma ClassesAgreeIff(data: seq<byte>, n: nat)
    requires n >= 1 && NoWrap(|data|, n)
    ensures ClassifyAll(Windows(data, n)) == Classify(data) <==> EncodingAgrees(data, n)
  {
    hide NoWrap, ClassifyAll, Classify, NoneStranded, Valid;
    MergedEncodingIff(data, n);
  }

  /** Three bytes to a shard of a valid file are enough for every scan to succeed and the texts to be equal. */
  lemma WideShardsEqualWhole(args: Args, kinds: set<Kind>, data: seq<byte>, n: nat)
    requires n >= 1 && NoWrap(|data|, n) && ArgsOk(args) && |data| <= LL_MAX
    requires Valid(data) && 3 * n <= |data|
    ensures Scan(args, kinds, data, Whole).Ok? && (forall j: nat :: j < n ==> ShardScan(args, kinds, data, n, j).Ok?)
    ensures MergeTexts(args.name, PartTexts(args, kinds, data, n), Some(|data|), Some(Sha256.HexDigest(data))) ==
      Ok(Render(Scan(args, kinds, data, Whole).value))
  {
    hide NoWrap, ArgsOk, Render, Scan, Valid;
    WideShards(data, n);
    if data != [] { ValidStart(data); }
    ShardedEqualsWholeIff(args, kinds, data, n);
  }

  /** The merged bundle passes the recount check on the file, whatever class the shards' encodings combine to. */
  lemma MergedScanPasses(args: Args, kinds: set<Kind>, data: seq<byte>, n: nat)
    requires n >= 1 && NoWrap(|data|, n) && ArgsOk(args) && |data| <= LL_MAX && AllScan(kinds, data, n)
    ensures (forall j: nat :: j < n ==> ShardScan(args, kinds, data, n, j).Ok?) &&
      var text := MergeTexts(args.name, PartTexts(args, kinds, data, n), Some(|data|), Some(Sha256.HexDigest(data)));
      text.Ok? && Check(text.value, data) == Ok(0)
  {
    hide NoWrap, ArgsOk, Render, Parse, Scan, ClassifyAll, NoneStranded, Valid, DocOk, ScanData, Sha256.HexDigest,
         KindMismatches, MergeTexts;
    MergedTexts(args, kinds, data, n);
    MergedScanOk(args, kinds, data, n);
    var doc := MergedScan(args, kinds, data, n);
    ParseRender(doc);
    forall k | k in kinds
      ensures KindMismatches(k, BackAll(doc).blocks[k], data) == 0
    {
      NoMismatch(args, k, kinds, data);
      EncodingUnread(k, Back(ScanData(args, k, data, Whole)), ClassifyAll(Windows(data, n)), data);
    }
    NoneMismatch(BackAll(doc), CANONICAL, data);
  }

  lemma EncodingUnread(k: Kind, d: Data, e: string, data: seq<byte>)
    ensures KindMismatches(k, d.(encoding := e), data) == KindMismatches(k, d, data)
  {
    hide Tally, KeysOf, Sha256.HexDigest, Valid;
  }
}
