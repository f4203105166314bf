/** What the analyzer's commands promise, stated on bytes, rows and parts instead of on the functions that the commands
    are proved against: a scan counts, a check compares with a count, a merge adds what agrees (analyze/main.c). */
module Meaning {
  import opened Bits
  import opened Rows
  import opened Text
  import opened KindBlock
  import opened Bundle
  import opened Shards
  import opened Utf8
  import opened Decoder
  import opened Analyze
  import opened Counts
  import Sha256

  // ----- scan -----

  /** The window a kind is counted in. */
  function WindowOf(k: Kind, data: seq<byte>, sh: Shard): seq<byte>
    requires ShardOk(|data|, sh)
  {
    match k case Freq => FreqWindow(data, sh) case Bigram => PairWindow(data, sh) case Cpfreq => CpWindow(data, sh)
  }

  /** The class of a window: its octets are UTF-8 or not, all below 128 or not. */
  ghost predicate ClassOf(e: string, w: seq<byte>) {
    && (e == "bytes" <==> !Utf8Octets(w))
    && (e == "ascii" <==> forall i :: 0 <= i < |w| ==> w[i] < 128)
    && (e == "utf8" <==> Utf8Octets(w) && exists i :: 0 <= i < |w| && w[i] >= 128)
    && e in {"ascii", "utf8", "bytes"}
  }

  lemma {:induction false} LowIsValid(w: seq<byte>)
    requires forall i :: 0 <= i < |w| ==> w[i] < 128
    ensures Utf8Octets(w)
    decreases |w|
  {
    if w != [] {
      LowIsValid(w[1..]);
      assert Utf8Char(w[..1]);
    }
  }

  lemma ClassifyMeans(w: seq<byte>)
    ensures ClassOf(Classify(w), w)
  {
    hide Utf8Octets, Decode;
    ValidIffGrammar(w);
    if !HighByte(w) {
      forall i | 0 <= i < |w|
        ensures w[i] < 128
      {
        assert !(w[i] >= 128);
      }
      LowIsValid(w);
    }
  }

  /** The kinds asked for, each with the counts of its window, the class of the code-point window, and the provenance of
      the command line. */
  ghost predicate ScanOf(doc: Doc, args: Args, kinds: set<Kind>, data: seq<byte>, sh: Shard)
    requires ShardOk(|data|, sh)
  {
    doc.name == args.name && doc.blocks.Keys == kinds && forall k :: k in kinds ==>
      && RowsCount(k, doc.blocks[k].rows, WindowOf(k, data, sh)) && ClassOf(doc.blocks[k].encoding, CpWindow(data, sh))
      && doc.blocks[k].prov == Prov(
           if args.source.None? then Some("exemplar") else args.source, args.retrieved, Some(|FreqWindow(data, sh)|),
           if sh == Whole then Some(Sha256.HexDigest(data)) else None, args.url, args.ref, args.license, args.fidelity,
           args.adaptation, None, None)
  }

  /** A scan succeeds unless code points are asked of a window that is no UTF-8, and then holds what was asked for. */
  lemma ScanMeans(args: Args, kinds: set<Kind>, data: seq<byte>, sh: Shard)
    requires ShardOk(|data|, sh)
    ensures Scan(args, kinds, data, sh).Ok? <==> (Cpfreq in kinds ==> Utf8Octets(CpWindow(data, sh)))
    ensures Scan(args, kinds, data, sh).Ok? ==> ScanOf(Scan(args, kinds, data, sh).value, args, kinds, data, sh)
  {
    hide Utf8Octets, Decode, RowsCount, ClassOf, Classify, Sha256.HexDigest, Tally, FreqWindow, PairWindow, CpWindow, PairKeys;
    ValidIffGrammar(CpWindow(data, sh));
    ClassifyMeans(CpWindow(data, sh));
    if Scan(args, kinds, data, sh).Ok? {
      forall k | k in kinds
        ensures RowsCount(k, Scan(args, kinds, data, sh).value.blocks[k].rows, WindowOf(k, data, sh))
      {
        CountsIff(k, Tally(KeysOf(k, data, sh)), WindowOf(k, data, sh));
      }
    }
  }

  // ----- check -----

  /** The three comparisons of the check command. */
  datatype Comparison = Recount | ByteTotal | Digest

  /** A kind block fails a comparison with a file: its rows do not count the file, or the byte total or the digest that
      it states is not the file's. */
  ghost predicate Fails(c: Comparison, k: Kind, d: Data, data: seq<byte>) {
    match c
    case Recount => !RowsCount(k, d.rows, data)
    case ByteTotal => d.prov.bytes.Some? && d.prov.bytes.value != |data|
    case Digest => d.prov.sha256.Some? && d.prov.sha256.value != Sha256.HexDigest(data)
  }

  ghost predicate FailsIn(doc: Doc, data: seq<byte>, k: Kind, c: Comparison) {
    k in doc.blocks && Fails(c, k, doc.blocks[k], data)
  }

  ghost function FailuresOf(k: Kind, doc: Doc, data: seq<byte>): (r: set<(Kind, Comparison)>)
    ensures forall k', c :: (k', c) in r <==> k' == k && FailsIn(doc, data, k', c)
  {
    hide FailsIn;
    OneFailure(doc, data, k, Recount) + OneFailure(doc, data, k, ByteTotal) + OneFailure(doc, data, k, Digest)
  }

  ghost function OneFailure(doc: Doc, data: seq<byte>, k: Kind, c: Comparison): (r: set<(Kind, Comparison)>)
    ensures |r| == if FailsIn(doc, data, k, c) then 1 else 0
    ensures forall k', c' :: (k', c') in r <==> k' == k && c' == c && FailsIn(doc, data, k', c')
  {
    hide FailsIn;
    if FailsIn(doc, data, k, c) then {(k, c)} else {}
  }

  /** All failed comparisons of a bundle. */
  ghost function Failures(doc: Doc, data: seq<byte>): (r: set<(Kind, Comparison)>)
    ensures forall k, c :: (k, c) in r <==> FailsIn(doc, data, k, c)
  {
    hide FailsIn;
    FailuresOf(Freq, doc, data) + FailuresOf(Cpfreq, doc, data) + FailuresOf(Bigram, doc, data)
  }

  lemma OneKind(k: Kind, doc: Doc, data: seq<byte>)
    ensures |FailuresOf(k, doc, data)| == if k in doc.blocks then KindMismatches(k, doc.blocks[k], data) else 0
    ensures forall k', c :: (k', c) in FailuresOf(k, doc, data) ==> k' == k
  {
    hide Fails, KindMismatches;
    if k in doc.blocks { UnfoldFails(k, doc.blocks[k], data); }
    var r, b, h := OneFailure(doc, data, k, Recount), OneFailure(doc, data, k, ByteTotal), OneFailure(doc, data, k, Digest);
    assert |r + b| == |r| + |b|;
    assert |r + b + h| == |r + b| + |h|;
  }

  lemma UnfoldFails(k: Kind, d: Data, data: seq<byte>)
    ensures KindMismatches(k, d, data) ==
      (if Fails(Recount, k, d, data) then 1 else 0) + (if Fails(ByteTotal, k, d, data) then 1 else 0) +
      (if Fails(Digest, k, d, data) then 1 else 0)
  {
    hide RowsCount, Tally, Utf8Octets, Decode, Sha256.HexDigest, PairKeys;
    CountsIff(k, d.rows, data);
    ValidIffGrammar(data);
  }

  ghost predicate NothingFails(doc: Doc, data: seq<byte>) {
    forall k, c :: k in doc.blocks ==> !Fails(c, k, doc.blocks[k], data)
  }

  /** The check counts the failed comparisons, each once: it finds nothing exactly when every kind that is present counts
      the file and states its size and digest, if any. */
  lemma CheckMeans(text: string, data: seq<byte>)
    ensures Parse(text).Err? <==> Check(text, data).Err?
    ensures Parse(text).Ok? ==> Check(text, data) == Ok(|Failures(Parse(text).value, data)|)
    ensures Check(text, data) == Ok(0) <==> Parse(text).Ok? && NothingFails(Parse(text).value, data)
  {
    hide Parse, Fails, Mismatches, Failures;
    if Parse(text).Ok? {
      CountedFailures(Parse(text).value, data);
      NoFailure(Parse(text).value, data);
    }
  }

  lemma CountedFailures(doc: Doc, data: seq<byte>)
    ensures Mismatches(doc, CANONICAL, data) == |Failures(doc, data)|
  {
    hide FailsIn, FailuresOf, Mismatches, KindMismatches;
    var f, c, b := FailuresOf(Freq, doc, data), FailuresOf(Cpfreq, doc, data), FailuresOf(Bigram, doc, data);
    OneKind(Freq, doc, data);
    OneKind(Cpfreq, doc, data);
    OneKind(Bigram, doc, data);
    ThreeKinds(doc, data);
    Disjoint(f, c, Cpfreq);
    Disjoint(f + c, b, Bigram);
    assert |f + c| == |f| + |c|;
    assert |f + c + b| == |f + c| + |b|;
  }

  lemma Disjoint(a: set<(Kind, Comparison)>, b: set<(Kind, Comparison)>, k: Kind)
    requires (forall k', c :: (k', c) in b ==> k' == k) && forall k', c :: (k', c) in a ==> k' != k
    ensures a !! b
  {
    forall x | x in a
      ensures x !in b
    {
      var (k', c) := x;
      assert x == (k', c);
    }
  }

  lemma ThreeKinds(doc: Doc, data: seq<byte>)
    ensures Mismatches(doc, CANONICAL, data) ==
      (if Freq in doc.blocks then KindMismatches(Freq, doc.blocks[Freq], data) else 0) +
      (if Cpfreq in doc.blocks then KindMismatches(Cpfreq, doc.blocks[Cpfreq], data) else 0) +
      (if Bigram in doc.blocks then KindMismatches(Bigram, doc.blocks[Bigram], data) else 0)
  {
    hide KindMismatches;
    var last, two := [Bigram], [Cpfreq, Bigram];
    assert CANONICAL[1..] == two && two[1..] == last && last[1..] == [];
    assert Mismatches(doc, [], data) == 0;
    assert Mismatches(doc, last, data) == if Bigram in doc.blocks then KindMismatches(Bigram, doc.blocks[Bigram], data) else 0;
    assert Mismatches(doc, two, data) ==
      (if Cpfreq in doc.blocks then KindMismatches(Cpfreq, doc.blocks[Cpfreq], data) else 0) + Mismatches(doc, last, data);
  }

  lemma NoFailure(doc: Doc, data: seq<byte>)
    ensures |Failures(doc, data)| == 0 <==> forall k, c :: k in doc.blocks ==> !Fails(c, k, doc.blocks[k], data)
  {
    hide Fails, FailuresOf;
    if |Failures(doc, data)| == 0 {
      forall k, c | k in doc.blocks
        ensures !Fails(c, k, doc.blocks[k], data)
      {
        assert (k, c) !in Failures(doc, data);
      }
    } else {
      var x :| x in Failures(doc, data);
      assert (x.0, x.1) in Failures(doc, data);
    }
  }
}
