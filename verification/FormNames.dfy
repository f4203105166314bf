/** The identifier numbering of memfn/src/formhash.c: `$k` is the order of first appearance, in a table of 256 names. */
module FormNames {
  import opened Bits
  import opened FormLex

  const NAMES: nat := 256

  /** A piece of the normal form: a name to be numbered (or its number), a token kept as it is, or a line's end. */
  datatype Item<+N> = Name(v: N) | Keep(t: Tok) | Eol

  function Find(names: seq<string>, n: string): (k: nat)
    ensures k <= |names| && (k < |names| <==> n in names)
    ensures k < |names| ==> names[k] == n
    ensures forall i :: 0 <= i < k ==> names[i] != n
  {
    if names == [] then 0 else if names[0] == n then 0
    else
      assert forall i :: 0 < i < |names| ==> names[i] == names[1..][i - 1];
      assert n in names <==> n in names[1..];
      1 + Find(names[1..], n)
  }

  /** The table after meeting `n`: a new name is recorded while there is room. */
  function Known(names: seq<string>, n: string): seq<string> {
    if n in names || |names| >= NAMES then names else names + [n]
  }

  /** The table after a sequence of items. */
  function Table(xs: seq<Item<string>>): seq<string> {
    if xs == [] then []
    else
      var last := xs[|xs| - 1];
      var names := Table(xs[..|xs| - 1]);
      if last.Name? then Known(names, last.v) else names
  }

  function NumberOne(names: seq<string>, x: Item<string>): Item<nat> {
    match x
    case Name(n) => Name(Find(names, n))
    case Keep(t) => Keep(t)
    case Eol => Eol
  }

  function Numbered(xs: seq<Item<string>>): (r: seq<Item<nat>>)
    ensures |r| == |xs|
  {
    if xs == [] then [] else Numbered(xs[..|xs| - 1]) + [NumberOne(Table(xs[..|xs| - 1]), xs[|xs| - 1])]
  }

  /** The two sequences differ by a one-to-one renaming of their names. */
  ghost predicate Related(xs: seq<Item<string>>, ys: seq<Item<string>>) {
    && |xs| == |ys|
    && (forall i :: 0 <= i < |xs| ==> if xs[i].Name? then ys[i].Name? else ys[i] == xs[i])
    && (forall i, j :: 0 <= i < |xs| && 0 <= j < |xs| && xs[i].Name? && xs[j].Name? ==>
          (xs[i].v == xs[j].v <==> ys[i].v == ys[j].v))
  }

  // ----- the table -----

  lemma {:induction false} NumberedAt(xs: seq<Item<string>>, i: nat)
    requires i < |xs|
    ensures Numbered(xs)[i] == NumberOne(Table(xs[..i]), xs[i])
    decreases |xs|
  {
    var n := |xs| - 1;
    if i < n {
      NumberedAt(xs[..n], i);
      assert xs[..n][..i] == xs[..i];
    }
  }

  /** The table only grows at its end, has no name twice, and holds at most 256. */
  lemma {:induction false} TableGrows(xs: seq<Item<string>>, i: nat)
    requires i <= |xs|
    ensures Table(xs[..i]) <= Table(xs)
    ensures |Table(xs)| <= NAMES
    ensures |Table(xs[..i])| == NAMES ==> Table(xs[..i]) == Table(xs)
    ensures forall j, k :: 0 <= j < k < |Table(xs)| ==> Table(xs)[j] != Table(xs)[k]
    decreases |xs|
  {
    var n := |xs|;
    if i < n {
      TableGrows(xs[..n - 1], i);
      assert xs[..n - 1][..i] == xs[..i];
    } else {
      assert xs[..i] == xs;
      if n > 0 { TableGrows(xs[..n - 1], n - 1); assert xs[..n - 1][..n - 1] == xs[..n - 1]; }
    }
  }

  function NumberAt(xs: seq<Item<string>>, i: nat): nat
    requires i < |xs| && xs[i].Name?
  {
    Find(Table(xs[..i]), xs[i].v)
  }

  /** A number below 256 is the name's place in the final table; 256 says the table was full and lacked it. */
  lemma NumberMeans(xs: seq<Item<string>>, i: nat)
    requires i < |xs| && xs[i].Name?
    ensures var k, names := NumberAt(xs, i), Table(xs);
            k <= NAMES && (k < NAMES ==> k < |names| && names[k] == xs[i].v) &&
            (k == NAMES ==> |names| == NAMES && xs[i].v !in names)
  {
    var before := Table(xs[..i]);
    TableGrows(xs[..i], i);
    assert xs[..i][..i] == xs[..i];
    TableGrows(xs, i);
    TableGrows(xs, i + 1);
    assert xs[..i + 1][..i] == xs[..i];
    var k := Find(before, xs[i].v);
    var after := Table(xs[..i + 1]);
    if k < |before| {
      assert Table(xs)[k] == before[k];
    } else if |before| < NAMES {
      assert after == before + [xs[i].v];
      assert Table(xs)[k] == after[k];
    }
  }

  /** Below 256 the numbers tell names apart, and equal names have equal numbers. */
  lemma NumbersTell(xs: seq<Item<string>>, i: nat, j: nat)
    requires i < |xs| && j < |xs| && xs[i].Name? && xs[j].Name?
    ensures xs[i].v == xs[j].v ==> NumberAt(xs, i) == NumberAt(xs, j)
    ensures NumberAt(xs, i) == NumberAt(xs, j) < NAMES ==> xs[i].v == xs[j].v
  {
    NumberMeans(xs, i);
    NumberMeans(xs, j);
    TableGrows(xs, 0);
  }

  // ----- related sequences number alike -----

  /** `names'` is `names` with each name replaced by its counterpart. */
  ghost predicate Counterparts(xs: seq<Item<string>>, ys: seq<Item<string>>, names: seq<string>, names': seq<string>)
    requires Related(xs, ys)
  {
    && |names| == |names'|
    && (forall k :: 0 <= k < |names| ==>
          exists i :: 0 <= i < |xs| && xs[i].Name? && xs[i].v == names[k] && ys[i].v == names'[k])
  }

  lemma {:induction false} TablesRelated(xs: seq<Item<string>>, ys: seq<Item<string>>, n: nat)
    requires Related(xs, ys) && n <= |xs|
    ensures Counterparts(xs, ys, Table(xs[..n]), Table(ys[..n]))
    decreases n
  {
    if n > 0 {
      TablesRelated(xs, ys, n - 1);
      assert xs[..n][..n - 1] == xs[..n - 1] && ys[..n][..n - 1] == ys[..n - 1];
      var names, names' := Table(xs[..n - 1]), Table(ys[..n - 1]);
      if xs[n - 1].Name? {
        SameFind(xs, ys, names, names', n - 1);
        var after, after' := Table(xs[..n]), Table(ys[..n]);
        forall k | 0 <= k < |after|
          ensures exists i :: 0 <= i < |xs| && xs[i].Name? && xs[i].v == after[k] && ys[i].v == after'[k]
        {
          if k < |names| {
            assert after[k] == names[k] && after'[k] == names'[k];
          } else {
            assert xs[n - 1].v == after[k] && ys[n - 1].v == after'[k];
          }
        }
      }
    }
  }

  lemma SameFind(xs: seq<Item<string>>, ys: seq<Item<string>>, names: seq<string>, names': seq<string>, i: nat)
    requires Related(xs, ys) && Counterparts(xs, ys, names, names') && i < |xs| && xs[i].Name?
    ensures Find(names, xs[i].v) == Find(names', ys[i].v)
  {
    forall k | 0 <= k < |names|
      ensures names[k] == xs[i].v <==> names'[k] == ys[i].v
    {
      var j :| 0 <= j < |xs| && xs[j].Name? && xs[j].v == names[k] && ys[j].v == names'[k];
    }
    var k, k' := Find(names, xs[i].v), Find(names', ys[i].v);
  }

  /** A one-to-one renaming never changes the numbering, however many names there are. */
  lemma RelatedNumber(xs: seq<Item<string>>, ys: seq<Item<string>>)
    requires Related(xs, ys)
    ensures Numbered(xs) == Numbered(ys)
  {
    forall i | 0 <= i < |xs|
      ensures Numbered(xs)[i] == Numbered(ys)[i]
    {
      NumberedAt(xs, i);
      NumberedAt(ys, i);
      if xs[i].Name? {
        TablesRelated(xs, ys, i);
        SameFind(xs, ys, Table(xs[..i]), Table(ys[..i]), i);
      }
    }
  }

  // ----- and only those, unless the table overflows twice -----

  /** At most one occurrence is numbered 256: at most one use of a name that did not fit. */
  ghost predicate Fits(xs: seq<Item<string>>) {
    forall i, j :: 0 <= i < j < |xs| ==> !(Overflow(xs, i) && Overflow(xs, j))
  }

  ghost predicate Overflow(xs: seq<Item<string>>, i: nat)
    requires i < |xs|
  {
    Numbered(xs)[i] == Name(NAMES)
  }

  lemma SameNumbersRelated(xs: seq<Item<string>>, ys: seq<Item<string>>)
    requires Numbered(xs) == Numbered(ys) && Fits(xs)
    ensures Related(xs, ys)
  {
    forall i | 0 <= i < |xs|
      ensures if xs[i].Name? then ys[i].Name? && NumberAt(ys, i) == NumberAt(xs, i) else ys[i] == xs[i]
    {
      NumberedAt(xs, i);
      NumberedAt(ys, i);
    }
    forall i, j | 0 <= i < |xs| && 0 <= j < |xs| && xs[i].Name? && xs[j].Name?
      ensures xs[i].v == xs[j].v <==> ys[i].v == ys[j].v
    {
      NumbersTell(xs, i, j);
      NumbersTell(ys, i, j);
      NumberedAt(xs, i);
      NumberedAt(xs, j);
      NumberMeans(xs, i);
      assert i < j ==> !(Overflow(xs, i) && Overflow(xs, j));
      assert j < i ==> !(Overflow(xs, j) && Overflow(xs, i));
    }
  }

  // ----- the kept identifiers -----

  /** The identifiers that are never renamed: keywords, standard types, and the library names a form calls. */
  function KeptList(): seq<string> {
    Keywords1() + Keywords2() + Keywords3() + Keywords4() + LibraryNames()
  }

  function Keywords1(): seq<string> {
    ["auto", "break", "case", "char", "const", "continue", "default", "do", "double"]
  }

  function Keywords2(): seq<string> {
    ["else", "enum", "extern", "float", "for", "goto", "if", "inline", "int", "long"]
  }

  function Keywords3(): seq<string> {
    ["register", "restrict", "return", "short", "signed", "sizeof", "static", "struct"]
  }

  function Keywords4(): seq<string> {
    ["switch", "typedef", "union", "unsigned", "void", "volatile", "while", "_Bool",
     "__builtin_ctzll", "__builtin_expect", "__attribute__"]
  }

  function LibraryNames(): seq<string> {
    ["size_t", "ptrdiff_t", "uint8_t", "uint16_t", "uint32_t", "uint64_t", "int64_t",
     "NULL", "memchr", "memcmp", "memcpy", "memrchr"]
  }

  predicate Kept(n: string) { n in KeptList() }

  predicate Short(names: seq<string>) { forall n :: n in names ==> |n| < 32 }

  lemma KeptShort(n: string)
    requires Kept(n)
    ensures |n| < 32
  {
    hide Keywords1, Keywords2, Keywords3, Keywords4, LibraryNames;
    Short1();
    Short2();
    Short3();
    Short4();
    Short5();
  }

  lemma Short1()
    ensures Short(Keywords1())
  {
  }

  lemma Short2()
    ensures Short(Keywords2())
  {
  }

  lemma Short3()
    ensures Short(Keywords3())
  {
  }

  lemma Short4()
    ensures Short(Keywords4())
  {
  }

  lemma Short5()
    ensures Short(LibraryNames())
  {
  }

  /** An identifier the normal form renames. */
  predicate Renamed(n: string) { IsId(n) && !Kept(n) }

  ghost predicate NamesOk(xs: seq<Item<string>>) {
    forall i :: 0 <= i < |xs| && xs[i].Name? ==> Renamed(xs[i].v)
  }

  // ----- what an overflowing table loses -----

  lemma {:induction false} ChangeOverflow(xs: seq<Item<string>>, j: nat, z: string)
    requires j < |xs| && Overflow(xs, j) && z !in Table(xs[..j])
    ensures Numbered(xs[j := Name(z)]) == Numbered(xs) && Table(xs[j := Name(z)]) == Table(xs)
    decreases |xs|
  {
    var n, ys := |xs| - 1, xs[j := Name(z)];
    NumberedAt(xs, j);
    NumberMeans(xs, j);
    TableGrows(xs[..j], j);
    if j == n {
      assert ys[..n] == xs[..n];
      assert |Table(xs[..n])| == NAMES;
    } else {
      assert ys[..n] == xs[..n][j := Name(z)] && xs[..n][..j] == xs[..j];
      NumberedAt(xs[..n], j);
      ChangeOverflow(xs[..n], j, z);
    }
  }

  /** A name longer than every name of the sequence. */
  function Longest(xs: seq<Item<string>>): (m: nat)
    ensures m >= 32 && forall i :: 0 <= i < |xs| && xs[i].Name? ==> |xs[i].v| <= m
  {
    if xs == [] then 32
    else
      var m := Longest(xs[..|xs| - 1]);
      var last := xs[|xs| - 1];
      if last.Name? && |last.v| > m then |last.v| else m
  }

  lemma FreshName(xs: seq<Item<string>>) returns (z: string)
    ensures Renamed(z) && forall i :: 0 <= i < |xs| && xs[i].Name? ==> xs[i].v != z
    ensures z !in Table(xs)
  {
    z := seq(Longest(xs) + 1, _ => 'a');
    if Kept(z) { KeptShort(z); }
    TableNames(xs);
  }

  lemma {:induction false} TableNames(xs: seq<Item<string>>)
    ensures forall k :: 0 <= k < |Table(xs)| ==> |Table(xs)[k]| <= Longest(xs)
    decreases |xs|
  {
    if xs != [] { TableNames(xs[..|xs| - 1]); }
  }

  /** Two uses of names that did not fit: another sequence numbers alike without being a renaming. */
  lemma OverflowHides(xs: seq<Item<string>>, i: nat, j: nat) returns (ys: seq<Item<string>>)
    requires i < j < |xs| && Overflow(xs, i) && Overflow(xs, j) && NamesOk(xs)
    ensures NamesOk(ys) && Numbered(ys) == Numbered(xs) && !Related(xs, ys)
  {
    NumberedAt(xs, i);
    NumberedAt(xs, j);
    var z;
    if xs[i].v == xs[j].v {
      z := FreshName(xs);
      TableGrows(xs, j);
    } else {
      z := xs[i].v;
      NumberMeans(xs[..j], i);
      assert xs[..j][..i] == xs[..i];
    }
    ys := xs[j := Name(z)];
    ChangeOverflow(xs, j, z);
    assert xs[i].Name? && xs[j].Name? && ys[i].v == xs[i].v && ys[j].v == z;
  }

  /** The numbering tells exactly the sequences related by a one-to-one renaming when, and only when, at most one use
      of a name falls outside the table: up to 256 distinct names, and the first use of a 257th. */
  lemma NumberingExact(xs: seq<Item<string>>)
    requires NamesOk(xs)
    ensures Fits(xs) <==> forall ys :: NamesOk(ys) && Numbered(ys) == Numbered(xs) ==> Related(xs, ys)
  {
    if Fits(xs) {
      forall ys | NamesOk(ys) && Numbered(ys) == Numbered(xs)
        ensures Related(xs, ys)
      {
        SameNumbersRelated(xs, ys);
      }
    } else {
      var i, j :| 0 <= i < j < |xs| && Overflow(xs, i) && Overflow(xs, j);
      var ys := OverflowHides(xs, i, j);
    }
  }

  /** Up to 256 distinct names always fit. */
  lemma FewNamesFit(xs: seq<Item<string>>)
    requires |NamesOf(xs)| <= NAMES
    ensures Fits(xs)
  {
    forall i | 0 <= i < |xs|
      ensures !Overflow(xs, i)
    {
      NumberedAt(xs, i);
      if Overflow(xs, i) {
        NumberMeans(xs, i);
        FullTable(xs, xs[i].v);
      }
    }
  }

  function NamesOf(xs: seq<Item<string>>): set<string> { set i | 0 <= i < |xs| && xs[i].Name? :: xs[i].v }

  lemma FullTable(xs: seq<Item<string>>, z: string)
    requires |Table(xs)| == NAMES && z !in Table(xs) && z in NamesOf(xs)
    ensures |NamesOf(xs)| > NAMES
  {
    TableGrows(xs, 0);
    TableIn(xs);
    DistinctCount(Table(xs));
    var s := (set k | 0 <= k < |Table(xs)| :: Table(xs)[k]);
    assert s + {z} <= NamesOf(xs);
    SubsetSize(s + {z}, NamesOf(xs));
  }

  lemma {:induction false} TableIn(xs: seq<Item<string>>)
    ensures forall k :: 0 <= k < |Table(xs)| ==> Table(xs)[k] in NamesOf(xs)
    decreases |xs|
  {
    if xs != [] {
      var n := |xs| - 1;
      TableIn(xs[..n]);
      forall m | m in NamesOf(xs[..n])
        ensures m in NamesOf(xs)
      {
        var i :| 0 <= i < n && xs[..n][i].Name? && xs[..n][i].v == m;
        assert xs[i].v == m;
      }
      if xs[n].Name? { assert xs[n].v in NamesOf(xs); }
    }
  }

  lemma {:induction false} DistinctCount(names: seq<string>)
    requires forall j, k :: 0 <= j < k < |names| ==> names[j] != names[k]
    ensures |set k | 0 <= k < |names| :: names[k]| == |names|
    decreases |names|
  {
    var s := (set k | 0 <= k < |names| :: names[k]);
    if names == [] {
      assert s == {};
    } else {
      var n := |names| - 1;
      var t := (set k | 0 <= k < n :: names[..n][k]);
      DistinctCount(names[..n]);
      assert |t| == n;
      forall x
        ensures x in s <==> x in t + {names[n]}
      {
        if x in t { var k :| 0 <= k < n && names[..n][k] == x; assert names[k] == x; }
        if x in s { var k :| 0 <= k < |names| && names[k] == x; assert k < n ==> names[..n][k] == x; }
        assert names[n] in s;
      }
      assert s == t + {names[n]};
      assert names[n] !in t;
    }
  }
}
