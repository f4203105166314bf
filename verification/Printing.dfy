/** The bundle text as printed (analyze/count.c), line by line: what a reader of the text sees. */
module Printing {
  import opened Bits
  import opened Rows
  import opened Text
  import opened KindBlock
  import opened Bundle
  import Options

  // ----- numbers -----

  const LOWER := "0123456789abcdef"
  const UPPER := "0123456789ABCDEF"

  /** The two lower-case hexadecimal digits of a byte. */
  function HexPair(a: byte): string { [LOWER[a / 16], LOWER[a % 16]] }

  /** `s` is `n` written in the number system of the digits. */
  ghost predicate Numeral(s: string, digits: string, n: nat)
    requires |digits| > 1
    decreases |s|
  {
    if s == "" then n == 0
    else s[|s| - 1] == digits[n % |digits|] && Numeral(s[..|s| - 1], digits, n / |digits|)
  }

  lemma NumeralSnoc(s: string, digits: string, n: nat)
    requires |digits| > 1 && Numeral(s, digits, n / |digits|)
    ensures Numeral(s + [digits[n % |digits|]], digits, n)
  {
    var t := s + [digits[n % |digits|]];
    assert t[..|t| - 1] == s;
  }

  lemma HexPairIs(a: byte)
    ensures Hex(a, 2, false) == HexPair(a)
  {
    var q, r := a / 16, a % 16;
    assert q / 16 == 0 && q % 16 == q;
    assert Hex(0, 0, false) == [];
    assert Hex(q, 1, false) == [HexChar(q, false)];
    assert Hex(a, 2, false) == [HexChar(q, false), HexChar(r, false)];
    LowerDigit(q);
    LowerDigit(r);
  }

  lemma LowerDigit(d: nat)
    requires d < 16
    ensures HexChar(d, false) == LOWER[d] && HexChar(d, true) == UPPER[d]
  {
  }

  /** A decimal count: no leading zero, and the digits of the number. */
  lemma {:induction false} DecText(n: nat)
    ensures Numeral(Dec(n), "0123456789", n) && (|Dec(n)| > 1 ==> Dec(n)[0] != '0')
    decreases n
  {
    var ten := "0123456789";
    DecSnoc(n);
    hide Dec, Numeral;
    if n < 10 {
      OneDigit(n);
    } else {
      DecText(n / 10);
      NumeralSnoc(Dec(n / 10), ten, n);
      NoLeadingZero(n / 10);
    }
  }

  lemma DecSnoc(n: nat)
    ensures Dec(n) == if n < 10 then ["0123456789"[n]] else Dec(n / 10) + ["0123456789"[n % 10]]
  {
  }

  lemma OneDigit(n: nat)
    requires n < 10
    ensures Numeral(["0123456789"[n]], "0123456789", n)
  {
    OneNumeral("0123456789", n);
  }

  lemma OneNumeral(digits: string, n: nat)
    requires n < |digits| == 10
    ensures Numeral([digits[n]], digits, n)
  {
    assert n % 10 == n && n / 10 == 0;
    assert Numeral("", digits, 0);
    hide Numeral;
    NumeralSnoc("", digits, n);
    assert "" + [digits[n]] == [digits[n]];
  }

  lemma {:induction false} NoLeadingZero(n: nat)
    requires n > 0
    ensures Dec(n)[0] != '0'
    decreases n
  {
    if n >= 10 { NoLeadingZero(n / 10); }
  }

  lemma {:induction false} HexText(n: nat, w: nat)
    ensures Numeral(Hex(n, w, true), UPPER, n)
    decreases w + n
  {
    if n > 0 || w > 0 {
      HexText(n / 16, if w == 0 then 0 else w - 1);
      NumeralSnoc(Hex(n / 16, if w == 0 then 0 else w - 1, true), UPPER, n);
      LowerDigit(n % 16);
    }
  }

  // ----- rows -----

  lemma RowTextStarts(t: string)
    ensures Kv(8, "row", t) == "        row " + t
  {
    assert Spaces(8) == "        ";
  }

  /** A byte's row shows its two hexadecimal digits and its count. */
  lemma FreqRowText(a: byte, c: pos64)
    ensures RowLine(Freq, Row(a, c)) == "        row " + HexPair(a) + " " + Dec(c)
  {
    hide Hex, Dec, Kv, HexPair;
    HexPairIs(a);
    RowTextStarts(Hex(a % 256, 2, false) + " " + Dec(c));
    assert a % 256 == a;
    Regroup("        row ", HexPair(a), Dec(c));
  }

  lemma Regroup(a: string, b: string, c: string)
    ensures a + (b + " " + c) == a + b + " " + c
  {
  }

  /** A pair's row shows the digits of its first byte, then of its second, then its count. */
  lemma BigramRowText(a: byte, b: byte, c: pos64)
    ensures RowLine(Bigram, Row(256 * a as int + b, c)) == "        row " + HexPair(a) + " " + HexPair(b) + " " + Dec(c)
  {
    hide Hex, Dec, Kv, HexPair;
    var key := 256 * a as int + b;
    assert key / 256 % 256 == a && key % 256 == b;
    HexPairIs(a);
    HexPairIs(b);
    RowTextStarts(Hex(a, 2, false) + " " + Hex(b, 2, false) + " " + Dec(c));
    assert "        row " + (HexPair(a) + " " + HexPair(b) + " " + Dec(c)) ==
      "        row " + HexPair(a) + " " + HexPair(b) + " " + Dec(c);
  }

  /** A code point's row shows `U+` and its number in upper-case hexadecimal digits, at least four and no more than it
      needs. */
  lemma CpRowText(cp: u32, c: pos64)
    ensures var h := Hex(cp, if cp <= 0xFFFF then 4 else if cp <= 0xFFFFF then 5 else 6, true);
      && RowLine(Cpfreq, Row(cp, c)) == "        row U+" + h + " " + Dec(c)
      && Numeral(h, UPPER, cp) && |h| >= 4 && (|h| > 4 ==> h[0] != '0')
  {
    var w := if cp <= 0xFFFF then 4 else if cp <= 0xFFFFF then 5 else 6;
    HexText(cp, w);
    HexWidth(cp, w);
    CpRowIs(cp, c, w);
    hide *;
    CodeText(Hex(cp, w, true), Dec(c));
  }

  lemma CpRowIs(cp: u32, c: pos64, w: nat)
    requires w == if cp <= 0xFFFF then 4 else if cp <= 0xFFFFF then 5 else 6
    ensures RowLine(Cpfreq, Row(cp, c)) == Kv(8, "row", "U+" + Hex(cp, w, true) + " " + Dec(c))
  {
    hide Hex, Dec, Kv;
  }

  lemma CodeText(h: string, c: string)
    ensures Kv(8, "row", "U+" + h + " " + c) == "        row U+" + h + " " + c
  {
    RowTextStarts("U+" + h + " " + c);
    hide Kv;
    assert "        row " + ("U+" + h + " " + c) == "        row U+" + h + " " + c;
  }

  lemma HexWidth(cp: u32, w: nat)
    requires w == if cp <= 0xFFFF then 4 else if cp <= 0xFFFFF then 5 else 6
    ensures |Hex(cp, w, true)| > 4 ==> Hex(cp, w, true)[0] != '0'
  {
    if w == 4 {
      assert Pow16(4) == 0x1_0000;
      HexLength(cp, 4, true, 4);
    } else if w == 5 {
      assert Pow16(4) == 0x1_0000;
      TopDigit(cp, 5, 4);
    } else {
      assert Pow16(5) == 0x10_0000;
      TopDigit(cp, 6, 5);
    }
  }

  /** A number that needs all the digits asked for starts with no zero. */
  lemma {:induction false} TopDigit(n: nat, w: nat, d: nat)
    requires w == d + 1 && n >= Pow16(d)
    ensures Hex(n, w, true)[0] != '0'
    decreases w + n
  {
    if d > 0 {
      TopDigit(n / 16, w - 1, d - 1);
    } else if n >= 16 {
      TopZero(n / 16);
    } else {
      assert n / 16 == 0 && Hex(0, 0, true) == [];
    }
  }

  lemma {:induction false} TopZero(n: nat)
    requires n > 0
    ensures |Hex(n, 0, true)| > 0 && Hex(n, 0, true)[0] != '0'
    decreases n
  {
    if n >= 16 { TopZero(n / 16); } else { assert n / 16 == 0 && Hex(0, 0, true) == []; }
  }

  // ----- the declarations -----

  /** The six lines a kind block starts with. */
  function Head(kind: string, question: string, query: string, e: string, csv: string, serves: string): seq<string> {
    ["    " + kind,
     "        question How often does each " + question + " occur in this exemplar?",
     "        reader " + query + " (docs/spec/findings.md " + ['\U{C2}', '\U{A7}'] + "4)",
     "        analyzer pcrec-analyze 0.1 --scan " + csv,
     "        encoding " + e,
     "        serves " + query + " when " + serves]
  }

  lemma HeadIs(k: Kind, e: string, hasCpfreq: bool, csv: string)
    ensures var (when, via) := DeriveServes(k, e, hasCpfreq);
      HeadLines(k, e, hasCpfreq, csv) == Head(KindName(k), Unit(k), Query(k), e, csv, when + " via " + via)
  {
    var (when, via) := DeriveServes(k, e, hasCpfreq);
    hide DeriveServes, KindName, Unit, Query, Kv, Question;
    assert Spaces(4) == "    ";
    QuestionIs(k);
    QuestionText(Unit(k), Question(k));
    ReaderText(Query(k));
    AnalyzerText(csv);
    KvText("encoding", e);
    ServesText(Query(k), when, via);
    var ls, hs := HeadLines(k, e, hasCpfreq, csv), Head(KindName(k), Unit(k), Query(k), e, csv, when + " via " + via);
    assert ls[0] == hs[0] && ls[1] == hs[1] && ls[2] == hs[2] && ls[3] == hs[3] && ls[4] == hs[4] && ls[5] == hs[5];
  }

  lemma QuestionIs(k: Kind)
    ensures Question(k) == "How often does each " + Unit(k) + " occur in this exemplar?"
  {
  }

  lemma QuestionText(unit: string, question: string)
    requires question == "How often does each " + unit + " occur in this exemplar?"
    ensures Kv(8, "question", question) == "        question How often does each " + unit + " occur in this exemplar?"
  {
    KvText("question", question);
    hide Kv;
    Joined("        question ", "How often does each ", unit, " occur in this exemplar?");
    assert "        " + "question" + " " == "        question ";
    assert "        question " + "How often does each " == "        question How often does each ";
  }

  lemma Joined(a: string, b: string, c: string, d: string)
    ensures a + (b + c + d) == a + b + c + d
  {
  }

  lemma ReaderText(query: string)
    ensures Kv(8, "reader", query + READER_NOTE) ==
      "        reader " + query + " (docs/spec/findings.md " + ['\U{C2}', '\U{A7}'] + "4)"
  {
    KvText("reader", query + READER_NOTE);
    assert "        reader " + (query + READER_NOTE) == "        reader " + query + READER_NOTE;
  }

  lemma AnalyzerText(csv: string)
    ensures Kv(8, "analyzer", "pcrec-analyze 0.1 --scan " + csv) == "        analyzer pcrec-analyze 0.1 --scan " + csv
  {
    var a, b := "        analyzer ", "pcrec-analyze 0.1 --scan ";
    KvText("analyzer", b + csv);
    hide Kv;
    assert "        " + "analyzer" + " " == a;
    assert a + b == "        analyzer pcrec-analyze 0.1 --scan ";
    assert a + (b + csv) == a + b + csv;
  }

  lemma ServesText(query: string, when: string, via: string)
    ensures Kv(8, "serves", query + " when " + when + " via " + via) ==
      "        serves " + query + " when " + (when + " via " + via)
  {
    KvText("serves", query + " when " + when + " via " + via);
    assert "        serves " + (query + " when " + when + " via " + via) ==
      "        serves " + query + " when " + (when + " via " + via);
  }

  lemma KvText(kw: string, v: string)
    ensures Kv(8, kw, v) == "        " + kw + " " + v
  {
    assert Spaces(8) == "        ";
  }

  /** What each kind's block declares, in every bundle. */
  lemma HeadText(e: string, hasCpfreq: bool, csv: string)
    ensures var au := e == "ascii" || e == "utf8";
      && HeadLines(Freq, e, hasCpfreq, csv) ==
         Head("freq", "byte", "byte-rate", e, csv, if au && !hasCpfreq then "byte,utf8 via unigram" else "byte via unigram")
      && HeadLines(Cpfreq, e, hasCpfreq, csv) ==
         Head("cpfreq", "Unicode code point", "byte-rate", e, csv, "utf8 via encode-utf8")
      && HeadLines(Bigram, e, hasCpfreq, csv) ==
         Head("bigram", "adjacent byte pair", "run-rarity", e, csv, if au then "byte,utf8 via markov1" else "byte via markov1")
  {
    hide *;
    HeadIs(Freq, e, hasCpfreq, csv);
    HeadIs(Cpfreq, e, hasCpfreq, csv);
    HeadIs(Bigram, e, hasCpfreq, csv);
    FreqServes(e, hasCpfreq);
    CpfreqServes(e, hasCpfreq);
    BigramServes(e, hasCpfreq);
    Names();
  }

  lemma Names()
    ensures KindName(Freq) == "freq" && KindName(Cpfreq) == "cpfreq" && KindName(Bigram) == "bigram"
    ensures Unit(Freq) == "byte" && Unit(Cpfreq) == "Unicode code point" && Unit(Bigram) == "adjacent byte pair"
    ensures Query(Freq) == "byte-rate" && Query(Cpfreq) == "byte-rate" && Query(Bigram) == "run-rarity"
  {
  }

  lemma FreqServes(e: string, hasCpfreq: bool)
    ensures var (when, via) := DeriveServes(Freq, e, hasCpfreq);
      when + " via " + via ==
      if (e == "ascii" || e == "utf8") && !hasCpfreq then "byte,utf8 via unigram" else "byte via unigram"
  {
    assert "byte,utf8" + " via " + "unigram" == "byte,utf8 via unigram";
    assert "byte" + " via " + "unigram" == "byte via unigram";
  }

  lemma CpfreqServes(e: string, hasCpfreq: bool)
    ensures var (when, via) := DeriveServes(Cpfreq, e, hasCpfreq); when + " via " + via == "utf8 via encode-utf8"
  {
    assert "utf8" + " via " + "encode-utf8" == "utf8 via encode-utf8";
  }

  lemma BigramServes(e: string, hasCpfreq: bool)
    ensures var (when, via) := DeriveServes(Bigram, e, hasCpfreq);
      when + " via " + via == if e == "ascii" || e == "utf8" then "byte,utf8 via markov1" else "byte via markov1"
  {
    assert "byte,utf8" + " via " + "markov1" == "byte,utf8 via markov1";
    assert "byte" + " via " + "markov1" == "byte via markov1";
  }

  /** No two kinds of a bundle that answer the same query declare that they serve the same alphabet. */
  lemma ServesApart(k: Kind, k': Kind, e: string, e': string, hasCpfreq: bool, t: string)
    requires k != k' && Query(k) == Query(k') && (k == Cpfreq || k' == Cpfreq ==> hasCpfreq)
    ensures !(t in Options.Split(DeriveServes(k, e, hasCpfreq).0) && t in Options.Split(DeriveServes(k', e', hasCpfreq).0))
  {
    Options.LoneToken("byte");
    Options.LoneToken("utf8");
    assert Query(Freq) == "byte-rate" && Query(Bigram) == "run-rarity";
    assert Query(Freq)[0] != Query(Bigram)[0];
    assert "byte"[0] != "utf8"[0];
  }

  // ----- provenance -----

  function FieldText(name: string, v: Option<string>): seq<string> {
    if v.Some? then ["            " + name + " " + v.value] else []
  }

  /** A number and its sign. */
  lemma SignedText(n: int)
    ensures n >= 0 ==> Signed(n) == Dec(n)
    ensures n < 0 ==> Signed(n) == "-" + Dec(-n)
  {
  }

  /** The provenance of a kind block: the source, never absent, and each other field that is stated, in this order. */
  lemma ProvText(p: Prov)
    ensures ProvLines(p) ==
      ["        provenance",
       "            source " + if p.source.Some? && p.source.value != "" then p.source.value else "exemplar"] +
      FieldText("retrieved", p.retrieved) +
      FieldText("bytes", if p.bytes.Some? then Some(Signed(p.bytes.value)) else None) +
      FieldText("sha256", p.sha256) + FieldText("url", p.url) + FieldText("ref", p.ref) +
      FieldText("license", p.license) + FieldText("fidelity", p.fidelity) + FieldText("adaptation", p.adaptation)
  {
    hide Signed, SourceText, FieldText, FieldLines, Fields;
    var fs := Fields(p);
    FieldsList(p);
    NineFields(fs);
    SourceIs(p);
    SourceField(SourceText(p));
    ProvFirst(p);
    var t := FieldText;
    Front("        provenance", "            source " + SourceText(p), t(fs[1].0, fs[1].1), t(fs[2].0, fs[2].1),
          t(fs[3].0, fs[3].1), t(fs[4].0, fs[4].1), t(fs[5].0, fs[5].1), t(fs[6].0, fs[6].1), t(fs[7].0, fs[7].1),
          t(fs[8].0, fs[8].1));
  }

  lemma ProvFirst(p: Prov)
    ensures ProvLines(p) == ["        provenance"] + FieldLines(Fields(p))
  {
    hide FieldLines, Fields;
    assert Spaces(8) + "provenance" == "        provenance" by { assert Spaces(8) == "        "; }
  }

  lemma SourceField(v: string)
    ensures FieldText("source", Some(v)) == ["            source " + v]
  {
    assert "            " + "source" + " " + v == "            source " + v;
  }

  lemma Front(a: string, b: string, t1: seq<string>, t2: seq<string>, t3: seq<string>, t4: seq<string>, t5: seq<string>,
              t6: seq<string>, t7: seq<string>, t8: seq<string>)
    ensures [a] + ([b] + t1 + t2 + t3 + t4 + t5 + t6 + t7 + t8) == [a, b] + t1 + t2 + t3 + t4 + t5 + t6 + t7 + t8
  {
    assert [a, b] == [a] + [b];
  }

  lemma SourceIs(p: Prov)
    ensures SourceText(p) == if p.source.Some? && p.source.value != "" then p.source.value else "exemplar"
  {
  }

  lemma FieldsList(p: Prov)
    ensures Fields(p) ==
      [("source", Some(SourceText(p))), ("retrieved", p.retrieved),
       ("bytes", if p.bytes.Some? then Some(Signed(p.bytes.value)) else None), ("sha256", p.sha256), ("url", p.url),
       ("ref", p.ref), ("license", p.license), ("fidelity", p.fidelity), ("adaptation", p.adaptation)]
  {
    hide Signed, SourceText;
  }

  lemma FieldIs(name: string, v: string)
    ensures Kv(12, name, v) == "            " + name + " " + v
  {
    assert Spaces(12) == "            ";
  }

  lemma OneField(fs: seq<(string, Option<string>)>)
    requires fs != []
    ensures FieldLines(fs) == FieldText(fs[0].0, fs[0].1) + FieldLines(fs[1..])
  {
    hide Kv;
    if fs[0].1.Some? { FieldIs(fs[0].0, fs[0].1.value); }
  }

  lemma NineFields(fs: seq<(string, Option<string>)>)
    requires |fs| == 9
    ensures FieldLines(fs) ==
      FieldText(fs[0].0, fs[0].1) + FieldText(fs[1].0, fs[1].1) + FieldText(fs[2].0, fs[2].1) +
      FieldText(fs[3].0, fs[3].1) + FieldText(fs[4].0, fs[4].1) + FieldText(fs[5].0, fs[5].1) +
      FieldText(fs[6].0, fs[6].1) + FieldText(fs[7].0, fs[7].1) + FieldText(fs[8].0, fs[8].1)
  {
    hide FieldText, FieldLines;
    ThreeFields(fs);
    ThreeFields(fs[3..]);
    ThreeFields(fs[6..]);
    assert fs[3..][3..] == fs[6..] && fs[6..][3..] == [];
    NoFields();
    var t := FieldText;
    Nine(t(fs[0].0, fs[0].1), t(fs[1].0, fs[1].1), t(fs[2].0, fs[2].1), t(fs[3].0, fs[3].1), t(fs[4].0, fs[4].1),
         t(fs[5].0, fs[5].1), t(fs[6].0, fs[6].1), t(fs[7].0, fs[7].1), t(fs[8].0, fs[8].1));
  }

  lemma Nine(a: seq<string>, b: seq<string>, c: seq<string>, d: seq<string>, e: seq<string>, f: seq<string>,
             g: seq<string>, h: seq<string>, i: seq<string>)
    ensures a + b + c + (d + e + f + (g + h + i + [])) == a + b + c + d + e + f + g + h + i
  {
    assert g + h + i + [] == g + h + i;
    Left(d + e + f, g, h, i);
    Left(a + b + c, d, e, f);
    assert a + b + c + (d + e + f + g + h + i) == a + b + c + (d + e + f) + g + h + i;
  }

  lemma NoFields()
    ensures FieldLines([]) == []
  {
  }

  lemma ThreeFields(fs: seq<(string, Option<string>)>)
    requires |fs| >= 3
    ensures FieldLines(fs) ==
      FieldText(fs[0].0, fs[0].1) + FieldText(fs[1].0, fs[1].1) + FieldText(fs[2].0, fs[2].1) + FieldLines(fs[3..])
  {
    hide FieldText, FieldLines;
    OneField(fs);
    OneField(fs[1..]);
    OneField(fs[2..]);
    assert fs[1..][1..] == fs[2..] && fs[2..][1..] == fs[3..];
    Four(FieldText(fs[0].0, fs[0].1), FieldText(fs[1].0, fs[1].1), FieldText(fs[2].0, fs[2].1), FieldLines(fs[3..]));
  }

  lemma Left(p: seq<string>, a: seq<string>, b: seq<string>, c: seq<string>)
    ensures p + (a + b + c) == p + a + b + c
  {
  }

  lemma Four(a: seq<string>, b: seq<string>, c: seq<string>, d: seq<string>)
    ensures a + (b + (c + d)) == a + b + c + d
  {
  }

  // ----- the whole text -----

  function ScanList(f: bool, c: bool, b: bool): string {
    if f && c && b then "freq,cpfreq,bigram" else if f && c then "freq,cpfreq" else if f && b then "freq,bigram"
    else if c && b then "cpfreq,bigram" else if f then "freq" else if c then "cpfreq" else if b then "bigram" else ""
  }

  lemma ScanListIs(present: set<Kind>)
    ensures ScanCsv(present, CANONICAL) == ScanList(Freq in present, Cpfreq in present, Bigram in present)
  {
    var last, two := [Bigram], [Cpfreq, Bigram];
    assert CANONICAL[1..] == two && two[1..] == last && last[1..] == [];
    assert ScanCsv(present, last) == if Bigram in present then "bigram" else "";
    assert ScanCsv(present, two) ==
      if Cpfreq in present then (if Bigram in present then "cpfreq" + "," + "bigram" else "cpfreq")
      else ScanCsv(present, last);
    CommaTexts();
  }

  lemma CommaTexts()
    ensures "cpfreq" + "," + "bigram" == "cpfreq,bigram" && "freq" + "," + "bigram" == "freq,bigram"
    ensures "freq" + "," + "cpfreq" == "freq,cpfreq" && "freq" + "," + "cpfreq,bigram" == "freq,cpfreq,bigram"
  {
  }

  /** The lines of one kind of a bundle, if it is present. */
  ghost function KindText(doc: Doc, k: Kind): seq<string> {
    if k !in doc.blocks then []
    else
      var d := doc.blocks[k];
      HeadLines(k, d.encoding, Cpfreq in doc.blocks,
                ScanList(Freq in doc.blocks, Cpfreq in doc.blocks, Bigram in doc.blocks)) +
      RowLines(k, Listing(d.rows)) + ProvLines(d.prov)
  }

  /** A bundle's text: its name, then its kinds, bytes first, then code points, then pairs, each with its rows in
      ascending order. */
  lemma BundleText(doc: Doc)
    ensures RenderLines(doc) == ["analysis " + doc.name] + KindText(doc, Freq) + KindText(doc, Cpfreq) + KindText(doc, Bigram)
    ensures Render(doc) == Unlines(RenderLines(doc))
  {
    ScanListIs(doc.blocks.Keys);
    hide HeadLines, RowLines, ProvLines, ScanCsv, Listing;
    var last, two := [Bigram], [Cpfreq, Bigram];
    assert CANONICAL[1..] == two && two[1..] == last && last[1..] == [];
    assert BlocksLines(doc, []) == [];
    assert BlocksLines(doc, last) == KindText(doc, Bigram) + [];
    assert BlocksLines(doc, two) == KindText(doc, Cpfreq) + BlocksLines(doc, last);
    assert BlocksLines(doc, CANONICAL) == KindText(doc, Freq) + BlocksLines(doc, two);
  }
}
