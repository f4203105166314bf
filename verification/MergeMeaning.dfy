/** What the merge command promises (analyze/main.c), stated on the parts: parts that disagree are refused, and what is
    merged is what the parts hold. */
module MergeMeaning {
  import opened Rows
  import opened Text
  import opened KindBlock
  import opened Bundle
  import opened Decoder
  import opened Analyze

  /** The provenance fields on which parts must agree. */
  datatype Field = Source | Retrieved | Url | Ref | License | Fidelity | Adaptation

  function Stated(p: Prov, f: Field): Option<string> {
    match f
    case Source => p.source
    case Retrieved => p.retrieved
    case Url => p.url
    case Ref => p.ref
    case License => p.license
    case Fidelity => p.fidelity
    case Adaptation => p.adaptation
  }

  predicate Holds(parts: seq<Doc>, i: nat, k: Kind) { i < |parts| && k in parts[i].blocks }

  /** Part `i` holds the kind and states `v` in the field. */
  predicate States(parts: seq<Doc>, i: nat, k: Kind, f: Field, v: string) {
    Holds(parts, i, k) && Stated(parts[i].blocks[k].prov, f) == Some(v)
  }

  /** Some kind and field have two parts that state different values. */
  ghost predicate Disagree(parts: seq<Doc>) { exists k, f :: Clash(parts, k, f) }

  ghost predicate Clash(parts: seq<Doc>, k: Kind, f: Field) {
    exists i: nat, j: nat, v, w :: i < j && States(parts, i, k, f, v) && States(parts, j, k, f, w) && v != w
  }

  /** The sum of the parts' counts of one key. */
  function RowTotal(parts: seq<Doc>, k: Kind, key: nat): nat {
    if parts == [] then 0
    else
      var last := parts[|parts| - 1];
      RowTotal(parts[..|parts| - 1], k, key) + if k in last.blocks then Get(last.blocks[k].rows, key) else 0
  }

  /** The sum of the byte totals that parts state for the kind. */
  function ByteTotal(parts: seq<Doc>, k: Kind): int {
    if parts == [] then 0
    else
      var last := parts[|parts| - 1];
      ByteTotal(parts[..|parts| - 1], k) +
      if k in last.blocks && last.blocks[k].prov.bytes.Some? then last.blocks[k].prov.bytes.value else 0
  }

  function Max(a: int, b: int): int { if a > b then a else b }

  /** The largest of the kinds' byte totals, at least 0. */
  function Largest(parts: seq<Doc>): int {
    Max(0, Max(ByteTotal(parts, Freq), Max(ByteTotal(parts, Cpfreq), ByteTotal(parts, Bigram))))
  }

  /** The merged encoding: `ascii` where every part that has a class says so, `utf8` where all say that or `ascii` and one
      says it, and any other class that occurs otherwise. */
  ghost predicate Highest(e: string, parts: seq<Doc>, k: Kind) {
    var cs := Classes(parts, k);
    if cs == {} then e == "" else e in cs && (e == "ascii" ==> cs == {"ascii"}) && (e == "utf8" ==> cs <= {"ascii", "utf8"})
  }

  ghost function Classes(parts: seq<Doc>, k: Kind): set<string> {
    (set i: nat | i < |parts| && Holds(parts, i, k) :: parts[i].blocks[k].encoding) - {""}
  }

  /** What a field of the merge is: the value of every part that states one, and absent where none does. */
  ghost predicate FieldMerged(v: Option<string>, parts: seq<Doc>, k: Kind, f: Field) {
    && (v.Some? <==> exists i, w :: States(parts, i, k, f, w))
    && (v.Some? ==> forall i, w :: States(parts, i, k, f, w) ==> w == v.value)
  }

  ghost predicate MergedOf(d: Data, parts: seq<Doc>, k: Kind, bytes: Option<int>, sha: Option<string>) {
    && (forall key: nat :: Get(d.rows, key) == Wrap(RowTotal(parts, k, key)))
    && (forall f :: FieldMerged(Stated(d.prov, f), parts, k, f))
    && (exists e :: Highest(e, parts, k) && d.encoding == Prefix(e, 7))
    && d.prov.bytes == (if bytes.Some? then bytes else if ByteTotal(parts, k) != 0 then Some(ByteTotal(parts, k)) else None)
    && d.prov.sha256 == (if sha.Some? then Some(Prefix(sha.value, 64)) else None)
    && d.prov.licenseNote.None? && d.prov.attribution.None?
  }

  /** The parts merge exactly when there is one, none disagree, and a size that is given is their byte total, where that
      is not 0. The merge then holds the kinds that a part holds, each merged. */
  ghost predicate MergeResult(r: Result<Doc>, name: string, parts: seq<Doc>, bytes: Option<int>, sha: Option<string>) {
    && (r.Ok? <==> parts != [] && !Disagree(parts) && (bytes.Some? ==> Largest(parts) in {0, bytes.value}))
    && (parts != [] ==> (r == Err("parts disagree on provenance") <==> Disagree(parts)))
    && (r.Ok? ==>
          r.value.name == name &&
          (forall k :: k in r.value.blocks <==> exists i :: Holds(parts, i, k)) &&
          forall k :: k in r.value.blocks ==> MergedOf(r.value.blocks[k], parts, k, bytes, sha))
  }

  // ----- what is gathered for one kind -----

  function FieldNo(f: Field): (n: nat)
    ensures n < 7
  {
    match f
    case Source => 0 case Retrieved => 1 case Url => 2 case Ref => 3 case License => 4 case Fidelity => 5
    case Adaptation => 6
  }

  lemma AgreedIs(p: Prov, f: Field)
    ensures Agreed(p)[FieldNo(f)] == Stated(p, f)
  {
  }

  /** The values that parts state. */
  ghost function Values(parts: seq<Doc>, k: Kind, f: Field): set<string> {
    if parts == [] then {}
    else
      var last := parts[|parts| - 1];
      Values(parts[..|parts| - 1], k, f) +
      if k in last.blocks && Stated(last.blocks[k].prov, f).Some? then {Stated(last.blocks[k].prov, f).value} else {}
  }

  lemma {:induction false} ValuesAre(parts: seq<Doc>, k: Kind, f: Field, v: string)
    ensures v in Values(parts, k, f) <==> exists i :: States(parts, i, k, f, v)
    decreases |parts|
  {
    if parts != [] {
      var n := |parts| - 1;
      var init := parts[..n];
      ValuesAre(init, k, f, v);
      ValuesMore(parts, k, f, v);
      hide Values, States;
      forall i: nat
        ensures States(parts, i, k, f, v) <==> (if i < n then States(init, i, k, f, v) else i == n && States(parts, n, k, f, v))
      {
        StatesInit(parts, i, k, f, v);
      }
      if i: nat :| States(init, i, k, f, v) { assert States(parts, i, k, f, v); }
    }
  }

  lemma ValuesMore(parts: seq<Doc>, k: Kind, f: Field, v: string)
    requires parts != []
    ensures var n := |parts| - 1; v in Values(parts, k, f) <==> v in Values(parts[..n], k, f) || States(parts, n, k, f, v)
  {
    hide Stated;
  }

  lemma StatesInit(parts: seq<Doc>, i: nat, k: Kind, f: Field, v: string)
    requires parts != []
    ensures var n := |parts| - 1;
      States(parts, i, k, f, v) <==> if i < n then States(parts[..n], i, k, f, v) else i == n && States(parts, n, k, f, v)
  {
    hide Stated;
  }

  ghost predicate Gathered(field: Option<string>, conflict: bool, vs: set<string>) {
    && (field.Some? <==> vs != {}) && (field.Some? ==> field.value in vs)
    && (conflict <==> TwoIn(vs))
  }

  ghost predicate TwoIn(vs: set<string>) { exists v, w :: v in vs && w in vs && v != w }

  lemma GatherOne(field: Option<string>, conflict: bool, vs: set<string>, v: Option<string>)
    requires Gathered(field, conflict, vs)
    ensures Gathered(FirstValue(field, v), conflict || Disagrees(field, v), vs + if v.Some? then {v.value} else {})
  {
    var us := vs + if v.Some? then {v.value} else {};
    if conflict { var a, b :| a in vs && b in vs && a != b; assert a in us && b in us; }
    if Disagrees(field, v) { assert field.value in us && v.value in us; }
    if !conflict && !Disagrees(field, v) && field.Some? { assert forall a :: a in us ==> a == field.value; }
  }

  lemma {:induction false} FieldGathered(k: Kind, parts: seq<Doc>, f: Field)
    ensures var a := AccAll(k, parts); Gathered(a.fields[FieldNo(f)], a.conflict[FieldNo(f)], Values(parts, k, f))
    decreases |parts|
  {
    if parts != [] {
      var n := |parts| - 1;
      FieldGathered(k, parts[..n], f);
      if k in parts[n].blocks {
        var a, d := AccAll(k, parts[..n]), parts[n].blocks[k];
        AgreedIs(d.prov, f);
        GatherOne(a.fields[FieldNo(f)], a.conflict[FieldNo(f)], Values(parts[..n], k, f), Stated(d.prov, f));
        StepField(a, d, FieldNo(f));
      }
    }
  }

  lemma StepField(a: Acc, d: Data, x: nat)
    requires AccOk(a) && x < 7
    ensures AccStep(a, d).fields[x] == FirstValue(a.fields[x], Agreed(d.prov)[x])
    ensures AccStep(a, d).conflict[x] == (a.conflict[x] || Disagrees(a.fields[x], Agreed(d.prov)[x]))
  {
    hide Agreed;
  }

  lemma {:induction false} SumsGathered(k: Kind, parts: seq<Doc>)
    ensures var a := AccAll(k, parts);
      && (a.have <==> exists i :: Holds(parts, i, k))
      && (forall key: nat :: Get(a.rows, key) == Wrap(RowTotal(parts, k, key)))
      && KindBytes(a) == ByteTotal(parts, k)
    decreases |parts|
  {
    hide Get, Merge, Wrap, FirstValue, Disagrees;
    if parts == [] {
      NoSums();
    } else {
      var n := |parts| - 1;
      var init, last := parts[..n], parts[n];
      SumsGathered(k, init);
      HoldsMore(parts, k);
      if k in last.blocks {
        var a, d := AccAll(k, init), last.blocks[k];
        StepSums(a, d);
        BytesOnlyStated(k, init);
        forall key: nat
          ensures Get(Merge(a.rows, d.rows), key) == Wrap(RowTotal(parts, k, key))
        {
          MergeGet(a.rows, d.rows, key);
          PlusWraps(RowTotal(init, k, key), Get(d.rows, key));
        }
      }
    }
  }

  lemma NoSums()
    ensures forall key: nat :: Get(map[], key) == Wrap(0)
  {
  }

  lemma HoldsMore(parts: seq<Doc>, k: Kind)
    requires parts != []
    ensures var n := |parts| - 1;
      (exists i :: Holds(parts, i, k)) <==> (exists i :: Holds(parts[..n], i, k)) || k in parts[n].blocks
  {
    var n := |parts| - 1;
    if i: nat :| Holds(parts, i, k) { assert i < n ==> Holds(parts[..n], i, k); }
    if i: nat :| Holds(parts[..n], i, k) { assert Holds(parts, i, k); }
    if k in parts[n].blocks { assert Holds(parts, n, k); }
  }

  lemma StepSums(a: Acc, d: Data)
    requires AccOk(a)
    ensures var r := AccStep(a, d);
      && r.have && r.rows == Merge(a.rows, d.rows) && r.encoding == Combine(a.encoding, d.encoding)
      && r.bytesSum == a.bytesSum + (if d.prov.bytes.Some? then d.prov.bytes.value else 0)
      && r.anyBytes == (a.anyBytes || d.prov.bytes.Some?)
  {
    hide Merge, Combine, Agreed, FirstValue, Disagrees;
  }

  lemma {:induction false} BytesOnlyStated(k: Kind, parts: seq<Doc>)
    ensures var a := AccAll(k, parts); !a.anyBytes ==> a.bytesSum == 0
    decreases |parts|
  {
    hide Merge, Combine, Agreed, FirstValue, Disagrees, AccStep;
    if parts != [] {
      var n := |parts| - 1;
      BytesOnlyStated(k, parts[..n]);
      if k in parts[n].blocks { StepSums(AccAll(k, parts[..n]), parts[n].blocks[k]); }
    }
  }

  lemma {:induction false} ClassGathered(k: Kind, parts: seq<Doc>)
    ensures Highest(AccAll(k, parts).encoding, parts, k)
    decreases |parts|
  {
    hide Merge, Combine, Agreed, FirstValue, Disagrees, AccStep;
    if parts == [] {
      assert Classes(parts, k) == {};
    } else {
      var n := |parts| - 1;
      ClassGathered(k, parts[..n]);
      ClassesMore(parts, k);
      if k in parts[n].blocks {
        StepSums(AccAll(k, parts[..n]), parts[n].blocks[k]);
        CombineHigher(AccAll(k, parts[..n]).encoding, Classes(parts[..n], k), parts[n].blocks[k].encoding);
      }
    }
  }

  lemma ClassesMore(parts: seq<Doc>, k: Kind)
    requires parts != []
    ensures var n := |parts| - 1;
      Classes(parts, k) == Classes(parts[..n], k) +
        if k in parts[n].blocks then {parts[n].blocks[k].encoding} - {""} else {}
  {
    var n := |parts| - 1;
    var init := parts[..n];
    forall e
      ensures e in Classes(parts, k) <==>
        e in Classes(init, k) || (k in parts[n].blocks && e == parts[n].blocks[k].encoding && e != "")
    {
      if e in Classes(parts, k) {
        var i: nat :| i < |parts| && Holds(parts, i, k) && parts[i].blocks[k].encoding == e;
        assert i < n ==> Holds(init, i, k) && init[i].blocks[k].encoding == e;
      }
      if e in Classes(init, k) {
        var i: nat :| i < |init| && Holds(init, i, k) && init[i].blocks[k].encoding == e;
        assert Holds(parts, i, k) && parts[i].blocks[k].encoding == e;
      }
      if k in parts[n].blocks && e == parts[n].blocks[k].encoding { assert Holds(parts, n, k); }
    }
  }

  ghost predicate HighestOf(e: string, cs: set<string>) {
    if cs == {} then e == "" else e in cs && (e == "ascii" ==> cs == {"ascii"}) && (e == "utf8" ==> cs <= {"ascii", "utf8"})
  }

  lemma CombineHigher(a: string, cs: set<string>, b: string)
    requires HighestOf(a, cs) && "" !in cs
    ensures HighestOf(Combine(a, b), cs + ({b} - {""}))
  {
    if b == "" { assert cs + ({b} - {""}) == cs; }
  }

  // ----- the theorem -----

  lemma ConflictIs(k: Kind, parts: seq<Doc>)
    ensures true in AccAll(k, parts).conflict <==> exists f :: Clash(parts, k, f)
  {
    hide AccAll, Values, Clash, TwoIn;
    var a := AccAll(k, parts);
    forall f
      ensures a.conflict[FieldNo(f)] <==> Clash(parts, k, f)
    {
      FieldGathered(k, parts, f);
      TwoValues(k, parts, f);
    }
    if true in a.conflict {
      var x :| 0 <= x < 7 && a.conflict[x];
      assert Clash(parts, k, FieldAt(x));
    }
  }

  function FieldAt(x: nat): (f: Field)
    requires x < 7
    ensures FieldNo(f) == x
  {
    if x == 0 then Source else if x == 1 then Retrieved else if x == 2 then Url else if x == 3 then Ref
    else if x == 4 then License else if x == 5 then Fidelity else Adaptation
  }

  lemma TwoValues(k: Kind, parts: seq<Doc>, f: Field)
    ensures TwoIn(Values(parts, k, f)) <==> Clash(parts, k, f)
  {
    hide Values, States;
    var vs := Values(parts, k, f);
    if v, w :| v in vs && w in vs && v != w { ClashOf(k, parts, f, v, w); }
    if i: nat, j: nat, v, w :| i < j && States(parts, i, k, f, v) && States(parts, j, k, f, w) && v != w {
      ValuesAre(parts, k, f, v);
      ValuesAre(parts, k, f, w);
      assert v in vs && w in vs;
    }
  }

  lemma ClashOf(k: Kind, parts: seq<Doc>, f: Field, v: string, w: string)
    requires v in Values(parts, k, f) && w in Values(parts, k, f) && v != w
    ensures Clash(parts, k, f)
  {
    ValuesAre(parts, k, f, v);
    ValuesAre(parts, k, f, w);
    hide Values, States;
    var i: nat :| States(parts, i, k, f, v);
    var j: nat :| States(parts, j, k, f, w);
    if i == j { StatesOne(parts, i, k, f, v, w); }
    assert i < j || j < i;
  }

  lemma StatesOne(parts: seq<Doc>, i: nat, k: Kind, f: Field, v: string, w: string)
    requires States(parts, i, k, f, v) && States(parts, i, k, f, w)
    ensures v == w
  {
    hide Stated;
  }

  lemma DisagreeIs(parts: seq<Doc>)
    ensures Disagree(parts) <==> exists k :: k in CANONICAL && true in AccAll(k, parts).conflict
  {
    hide AccAll, CANONICAL, Clash;
    forall k
      ensures k in CANONICAL
      ensures true in AccAll(k, parts).conflict <==> exists f :: Clash(parts, k, f)
    {
      InCanonical(k);
      ConflictIs(k, parts);
    }
    if k, f :| Clash(parts, k, f) { assert true in AccAll(k, parts).conflict; }
  }

  lemma InCanonical(k: Kind)
    ensures k in CANONICAL
  {
    assert CANONICAL[match k case Freq => 0 case Cpfreq => 1 case Bigram => 2] == k;
  }

  lemma LargestIs(parts: seq<Doc>)
    ensures BytesTotal(parts, CANONICAL) == Largest(parts)
  {
    hide AccAll, KindBytes;
    SumsGathered(Freq, parts);
    SumsGathered(Cpfreq, parts);
    SumsGathered(Bigram, parts);
    var last, two := [Bigram], [Cpfreq, Bigram];
    assert CANONICAL[1..] == two && two[1..] == last && last[1..] == [];
    assert BytesTotal(parts, []) == 0;
    assert BytesTotal(parts, last) == Max(0, ByteTotal(parts, Bigram));
    assert BytesTotal(parts, two) == Max(BytesTotal(parts, last), ByteTotal(parts, Cpfreq));
  }

  lemma DataMerged(k: Kind, parts: seq<Doc>, bytes: Option<int>, sha: Option<string>)
    requires true !in AccAll(k, parts).conflict
    ensures MergedOf(MergedData(AccAll(k, parts), bytes, sha), parts, k, bytes, sha)
  {
    var a := AccAll(k, parts);
    var d := MergedData(a, bytes, sha);
    SumsGathered(k, parts);
    ClassGathered(k, parts);
    forall f
      ensures FieldMerged(Stated(d.prov, f), parts, k, f)
    {
      FieldOnce(k, parts, f);
      StatedMerged(a, bytes, sha, f);
    }
    hide AccAll, Highest, Values, KindBytes, FieldMerged, Stated, RowTotal, ByteTotal, Get, Wrap, Prefix;
    assert d.encoding == Prefix(a.encoding, 7);
  }

  lemma StatedMerged(a: Acc, bytes: Option<int>, sha: Option<string>, f: Field)
    requires AccOk(a)
    ensures Stated(MergedData(a, bytes, sha).prov, f) == a.fields[FieldNo(f)]
  {
    hide KindBytes, Prefix;
  }

  lemma FieldOnce(k: Kind, parts: seq<Doc>, f: Field)
    requires true !in AccAll(k, parts).conflict
    ensures FieldMerged(AccAll(k, parts).fields[FieldNo(f)], parts, k, f)
  {
    FieldGathered(k, parts, f);
    hide AccAll, Values, FieldMerged;
    var a := AccAll(k, parts);
    assert !a.conflict[FieldNo(f)];
    OneValue(a.fields[FieldNo(f)], parts, k, f);
  }

  lemma OneValue(v: Option<string>, parts: seq<Doc>, k: Kind, f: Field)
    requires Gathered(v, false, Values(parts, k, f))
    ensures FieldMerged(v, parts, k, f)
  {
    hide Values, States;
    forall w
      ensures w in Values(parts, k, f) <==> exists i :: States(parts, i, k, f, w)
    {
      ValuesAre(parts, k, f, w);
    }
    var vs := Values(parts, k, f);
    forall i: nat, w | States(parts, i, k, f, w)
      ensures v == Some(w)
    {
      assert w in vs;
      assert w in vs && v.value in vs && v.value != w ==> TwoIn(vs);
    }
    if v.Some? { assert v.value in vs; }
  }

  /** What merging parts gives, for all parts. */
  lemma MergeMeans(name: string, parts: seq<Doc>, bytes: Option<int>, sha: Option<string>)
    ensures MergeResult(MergeDocs(name, parts, bytes, sha), name, parts, bytes, sha)
  {
    var r := MergeDocs(name, parts, bytes, sha);
    DisagreeIs(parts);
    LargestIs(parts);
    hide AccAll, BytesTotal, MergedData, Disagree, Largest, MergedOf, CANONICAL;
    if r.Ok? {
      forall k
        ensures k in r.value.blocks <==> exists i :: Holds(parts, i, k)
      {
        InCanonical(k);
        SumsGathered(k, parts);
      }
      forall k | k in r.value.blocks
        ensures MergedOf(r.value.blocks[k], parts, k, bytes, sha)
      {
        DataMerged(k, parts, bytes, sha);
      }
    }
    Messages();
  }

  lemma Messages()
    ensures "parts disagree on provenance" != "shard byte total != --bytes"
  {
    assert "parts disagree on provenance"[0] == 'p' && "shard byte total != --bytes"[0] == 's';
  }
}
