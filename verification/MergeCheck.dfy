/** The merge and check commands of analyze/main.c over bundle texts. */
module MergeCheck {
  import opened Bits
  import opened Rows
  import opened Text
  import opened KindBlock
  import opened CpTable
  import opened Bundle
  import opened Analyze
  import opened Meaning
  import opened MergeMeaning
  import opened Reader
  import ReaderMeaning
  import opened Commands
  import Utf8
  import Sha256

  // ----- listing parsed rows -----

  /** The rows in ascending key order, from any order of visiting them. */
  method ListMap(m: Rows) returns (rows: seq<Row>)
    ensures rows == Listing(m)
  {
    hide Lists, Ascending, Listing;
    var raw: seq<Row> := [];
    var rest := m.Keys;
    NoListing();
    assert m - rest == map[];
    while rest != {}
      invariant rest <= m.Keys && Lists(raw, m - rest)
      decreases rest
    {
      var k :| k in rest;
      AddLast(raw, m - rest, k, m[k]);
      assert m - (rest - {k}) == (m - rest)[k := m[k]];
      raw, rest := raw + [Row(k, m[k])], rest - {k};
    }
    assert m - rest == m;
    SortRowsLists(raw, m);
    rows := SortRows(raw);
  }

  /** Whether a recount holds exactly the bundle's rows. */
  method RowsMatch(b: Block, m: Rows) returns (eq: bool)
    requires b.Valid()
    ensures eq <==> b.Rows() == m
  {
    hide Lists, Ascending, CellRows, Denoted, Table.Valid;
    var ra := ListRows(b);
    var rb := ListMap(m);
    ListingUnique(ra, b.Rows(), rb, m);
    if |ra| != |rb| { return false; }
    for i := 0 to |ra|
      invariant forall j :: 0 <= j < i ==> ra[j] == rb[j]
    {
      if ra[i].key != rb[i].key || ra[i].count != rb[i].count { return false; }
    }
    return true;
  }

  // ----- check -----

  /** One kind's comparisons: the recount, the byte total and the digest. */
  method CheckKind(k: Kind, d: Data, data: seq<byte>) returns (bad: nat)
    requires |data| < U64
    ensures bad == KindMismatches(k, d, data)
  {
    hide Tally, KeysOf, Utf8.Valid, Sha256.HexDigest, Table.Valid, CellRows, Denoted;
    bad := 0;
    var b, ok := CountKind(k, data, Whole);
    if !ok {
      bad := bad + 1;
    } else {
      var eq := RowsMatch(b, d.rows);
      if !eq { bad := bad + 1; }
    }
    if d.prov.bytes.Some? && d.prov.bytes.value != |data| { bad := bad + 1; }
    if d.prov.sha256.Some? {
      var hex := Sha256.Sha256Hex(data);
      if hex != d.prov.sha256.value { bad := bad + 1; }
    }
  }

  /** The check command: the number of failed comparisons, or the reader's error. */
  method CmdCheck(text: string, data: seq<byte>) returns (r: Result<nat>)
    requires |data| < U64
    ensures r == Check(text, data)
    ensures r.Ok? <==> Parse(text).Ok?
    ensures r.Ok? ==> r.value == |Failures(Parse(text).value, data)|
    ensures r == Ok(0) <==> (Parse(text).Ok? && NothingFails(Parse(text).value, data))
  {
    CheckMeans(text, data);
    CheckIs(text, data);
    hide Check, Parse, NothingFails, Failures, ReaderMeaning.TextSaid, Mismatches;
    var doc := ParseBundle(text);
    if doc.Err? { return Err(doc.message); }
    var bad := CheckKinds(doc.value, data);
    return Ok(bad);
  }

  lemma CheckIs(text: string, data: seq<byte>)
    ensures Parse(text).Err? ==> Check(text, data) == Err(Parse(text).message)
    ensures Parse(text).Ok? ==> Check(text, data) == Ok(Mismatches(Parse(text).value, CANONICAL, data))
  {
    hide Parse, Mismatches;
  }

  /** The failed comparisons of all kinds. */
  method CheckKinds(doc: Doc, data: seq<byte>) returns (bad: nat)
    requires |data| < U64
    ensures bad == Mismatches(doc, CANONICAL, data)
  {
    hide KindMismatches;
    var kinds := CANONICAL;
    bad := 0;
    assert kinds[0..] == kinds;
    for i := 0 to |kinds|
      invariant bad + Mismatches(doc, kinds[i..], data) == Mismatches(doc, kinds, data)
    {
      assert kinds[i..][1..] == kinds[i + 1..] && kinds[i..][0] == kinds[i];
      if kinds[i] in doc.blocks {
        var n := CheckKind(kinds[i], doc.blocks[kinds[i]], data);
        bad := bad + n;
      }
    }
  }

  // ----- merge -----

  /** Prints a bundle, its kinds in canonical order. */
  method RenderBundle(doc: Doc) returns (lines: seq<string>)
    ensures lines == RenderLines(doc)
  {
    hide ScanCsv, HeadLines, RowLines, ProvLines, Listing, BlockLines;
    var order, csv := CANONICAL, ScanCsv(doc.blocks.Keys, CANONICAL);
    lines := ["analysis " + doc.name];
    ghost var head := lines;
    for i := 0 to 3
      invariant lines == head + BlocksLines(doc, order[..i])
    {
      var k := order[i];
      BlocksSnoc(doc, order[..i], k);
      assert order[..i + 1] == order[..i] + [k];
      if k in doc.blocks {
        var rows := ListMap(doc.blocks[k].rows);
        var block := RenderKindBlock(k, rows, doc.blocks[k].encoding, doc.blocks[k].prov, Cpfreq in doc.blocks, csv);
        BlockIs(k, doc.blocks[k], Cpfreq in doc.blocks, csv);
        lines := lines + block;
      }
    }
    assert order[..3] == order;
  }

  lemma BlockIs(k: Kind, d: Data, hasCpfreq: bool, csv: string)
    ensures BlockLines(k, d, hasCpfreq, csv) ==
            HeadLines(k, d.encoding, hasCpfreq, csv) + RowLines(k, Listing(d.rows)) + ProvLines(d.prov)
  {
  }

  /** Reads the parts in order, up to the first that cannot be read. */
  method ReadParts(texts: seq<string>) returns (parts: Result<seq<Doc>>)
    ensures parts == ParseAll(texts)
  {
    hide Parse;
    var docs: seq<Doc> := [];
    for i := 0 to |texts|
      invariant ParseAll(texts[..i]) == Ok(docs)
    {
      assert texts[..i + 1][..i] == texts[..i];
      var p := ParseBundle(texts[i]);
      if p.Err? {
        FirstError(texts, i);
        return Err(p.message);
      }
      docs := docs + [p.value];
    }
    assert texts[..|texts|] == texts;
    return Ok(docs);
  }

  lemma {:induction false} FirstError(texts: seq<string>, i: nat)
    requires i < |texts| && ParseAll(texts[..i]).Ok? && Parse(texts[i]).Err?
    ensures ParseAll(texts) == Err(Parse(texts[i]).message)
    decreases |texts|
  {
    hide Parse;
    var n := |texts| - 1;
    if i < n {
      assert texts[..n][..i] == texts[..i];
      FirstError(texts[..n], i);
    }
  }

  /** The agreement of the seven fields and the largest byte total, kind after kind. */
  method Agreement(parts: seq<Doc>, acc: map<Kind, Acc>) returns (agree: bool, total: int)
    requires forall k: Kind :: k in acc && acc[k] == AccAll(k, parts)
    ensures agree <==> !exists k :: k in CANONICAL && true in AccAll(k, parts).conflict
    ensures agree ==> total == BytesTotal(parts, CANONICAL)
  {
    hide AccAll;
    var kinds := CANONICAL;
    agree, total := true, 0;
    assert kinds[0..] == kinds;
    TotalNotNegative(parts, kinds);
    for i := 0 to |kinds|
      invariant total >= 0 && forall j :: 0 <= j < i ==> true !in AccAll(kinds[j], parts).conflict
      invariant BytesTotal(parts, kinds) ==
                if total > BytesTotal(parts, kinds[i..]) then total else BytesTotal(parts, kinds[i..])
    {
      var k := kinds[i];
      assert kinds[i..][1..] == kinds[i + 1..] && kinds[i..][0] == k;
      assert k in kinds && acc[k] == AccAll(k, parts);
      if true in acc[k].conflict { return false, 0; }
      var mine := KindBytes(acc[k]);
      if mine > total { total := mine; }
    }
  }

  lemma {:induction false} TotalNotNegative(parts: seq<Doc>, kinds: seq<Kind>)
    ensures BytesTotal(parts, kinds) >= 0
    decreases |kinds|
  {
    hide KindBytes, AccAll;
    if kinds != [] { TotalNotNegative(parts, kinds[1..]); }
  }

  /** The parts that the texts read as. */
  ghost predicate ReadAs(texts: seq<string>, parts: seq<Doc>) {
    |parts| == |texts| && forall i :: 0 <= i < |texts| ==> Parse(texts[i]) == Ok(parts[i])
  }

  lemma {:induction false} ReadAsIs(texts: seq<string>, parts: seq<Doc>)
    ensures ParseAll(texts) == Ok(parts) <==> ReadAs(texts, parts)
    decreases |texts|
  {
    hide Parse;
    if texts != [] {
      var n := |texts| - 1;
      if |parts| == |texts| {
        ReadAsIs(texts[..n], parts[..n]);
        assert parts == parts[..n] + [parts[n]];
      }
      if ParseAll(texts).Ok? {
        var init := ParseAll(texts[..n]).value;
        ReadAsIs(texts[..n], init);
      }
    }
  }

  /** The text that a merge prints, or its refusal. */
  ghost function MergeText(d: Result<Doc>): Result<string> { if d.Ok? then Ok(Render(d.value)) else Err(d.message) }

  lemma MergedMeans(name: string, texts: seq<string>, bytes: Option<int>, sha: Option<string>)
    ensures forall parts :: ReadAs(texts, parts) ==>
      exists d :: MergeTexts(name, texts, bytes, sha) == MergeText(d) && MergeResult(d, name, parts, bytes, sha)
    ensures (exists i :: 0 <= i < |texts| && Parse(texts[i]).Err?) ==> MergeTexts(name, texts, bytes, sha).Err?
  {
    hide MergeDocs, Render, ParseAll, Parse, MergeResult;
    forall parts | ReadAs(texts, parts)
      ensures exists d :: MergeTexts(name, texts, bytes, sha) == MergeText(d) && MergeResult(d, name, parts, bytes, sha)
    {
      ReadAsIs(texts, parts);
      MergeMeans(name, parts, bytes, sha);
      assert MergeTexts(name, texts, bytes, sha) == MergeText(MergeDocs(name, parts, bytes, sha));
    }
    if ParseAll(texts).Ok? { ReadAsIs(texts, ParseAll(texts).value); }
  }

  /** The merge command: parts that can all be read are merged, or refused, as `MergeResult` says. */
  method CmdMerge(name: string, texts: seq<string>, bytes: Option<int>, sha: Option<string>) returns (r: Result<string>)
    ensures r == MergeTexts(name, texts, bytes, sha)
    ensures forall parts :: ReadAs(texts, parts) ==>
      exists d :: r == MergeText(d) && MergeResult(d, name, parts, bytes, sha)
    ensures (exists i :: 0 <= i < |texts| && Parse(texts[i]).Err?) ==> r.Err?
  {
    MergedMeans(name, texts, bytes, sha);
    hide ParseAll, AccAll, BytesTotal, MergedData, RenderLines, Unlines, KindBytes, ReadAs, MergeResult, Parse, MergeText;
    var parts := ReadParts(texts);
    if parts.Err? { return Err(parts.message); }
    if |parts.value| == 0 { return Err("--merge needs at least one PART.rxt"); }
    var acc := Accumulate(parts.value);
    var agree, total := Agreement(parts.value, acc);
    if !agree { return Err("parts disagree on provenance"); }
    if bytes.Some? && total != 0 && total != bytes.value { return Err("shard byte total != --bytes"); }
    var blocks := map k | k in CANONICAL && acc[k].have :: MergedData(acc[k], bytes, sha);
    assert blocks == map k | k in CANONICAL && AccAll(k, parts.value).have ::
      MergedData(AccAll(k, parts.value), bytes, sha);
    var lines := RenderBundle(Doc(name, blocks));
    return Ok(Unlines(lines));
  }
}
